/** What reads that leave the client inside a packet, with the connection still standing, do to QoS 2.  Of a length
    field that is broken off the code takes the part that came for all of it, and so takes a PUBREL without its packet
    id for a whole one; of a body that comes up short outside a session it takes the rest for packets. */
module SlowReads {
  import opened Bytes
  import opened FixedHeader
  import opened RemainingLength
  import opened PublishCodec
  import opened MessageHandlers
  import opened Transport
  import opened PacketReader
  import opened PacketBoundaries
  import opened Session
  import opened AckOrder
  import opened ClientHandshake
  import opened EndToEnd
  import opened CalmRuns
  import opened LostMessage
  import InflightRetention
  import QoS2Ids

  // ---- a PUBREL whose length does not come in time ----

  /** The header byte comes and the length byte does not: the read gives a PUBREL of length 0, and leaves the
      length and the id in the stream. */
  lemma CutReleaseRead(other: ushort, rest: seq<byte>, gs: seq<int>, b: seq<byte>)
    requires |b| >= 5
    ensures var s := Source(EncodeAck(PUBREL, 0, other) + rest, [1, 0] + gs);
      var (out, b', s') := ReadOutcome(s, b);
      && CutsLength(s) && out == Packet(PUBREL) && |b'| == |b| && b'[0] == 98 && b'[1] == 0
      && s' == Source([2] + EncodeInt(other) + rest, gs)
  {
    var s := Source(EncodeAck(PUBREL, 0, other) + rest, [1, 0] + gs);
    var s1, s2 := Source([2] + EncodeInt(other) + rest, [0] + gs), Source([2] + EncodeInt(other) + rest, gs);
    ReleaseBytes(other);
    assert s.data == [98] + s1.data;
    FirstByte(s, 98, s1);
    assert Get(s1, 1) == (0, [], s2);
    assert DecodeSource(s1, 0) == (0, s2);
    NothingRead(Put(b, 0, [98]));
  }

  lemma ReleaseBytes(id: ushort)
    ensures EncodeAck(PUBREL, 0, id) == [98, 2] + EncodeInt(id)
  {
    var h, body := AckFrame(PUBREL, id);
    HeaderIs(PUBREL, 0, 1, 0);
    ShortFrame(h, body);
  }

  lemma NothingRead(b: seq<byte>)
    requires |b| >= 5
    ensures EncodeShort(0) == [0]
    ensures var b' := Put(b, 1, [0]); b'[0] == b[0] && b'[1] == 0
  {
  }

  /** The packet id is what the uninitialised variable holds: PUBCOMP goes out for it, and it is freed. */
  lemma CutReleaseFrees(s: State, i: Input)
    requires i.out == Packet(PUBREL) && Peek(i.buf, 0) == 98 && Peek(i.buf, 1) == 0 && i.ackW == 4
    ensures var p := OnPacket(s, i);
      && p.es == [Sent(Ack(PUBCOMP, i.garbage))] && p.s.table == QoS2Ids.Free(s.table, i.garbage)
      && p.rc == SUCCESS && !p.stop && p.s.alive.pingSent == s.alive.pingSent
  {
    assert Decode(i.buf, 1) == (1, 0);
  }

  lemma CutCycle(s: State, i: Input, id: ushort)
    requires !s.clean && CalmWith(s, i, id)
    requires i.out == Packet(PUBREL) && Peek(i.buf, 0) == 98 && Peek(i.buf, 1) == 0
    ensures var c := Cycle(s, i);
      !Broken(c.es) && Handed(c.es) == [] && c.s.table == QoS2Ids.Free(s.table, id) && !c.s.clean
  {
    CutReleaseFrees(Read(s, i), i);
    HandedOne(Sent(Ack(PUBCOMP, id)));
    CycleAdds(s, i);
    CalmEnds(Handled(s, i), i);
  }

  // ---- the same message twice ----

  lemma MessageTaken(s: State, i: Input, p: Publish)
    requires !s.clean && CalmWith(s, i, 0) && Carries(i, Publishing(p)) && p.Legal() && p.qos == 2 && Room(s, p.id)
    ensures var c := Cycle(s, i);
      && !Broken(c.es) && Handed(c.es) == [p.Decoded(Unset(0))] && !c.s.clean
      && c.s.table == QoS2Ids.Use(s.table, p.id).1
  {
    PublishCycle(s, i, p);
    CalmPublish(s, i, p);
  }

  lemma MessageRead(s: State, p: Publish, rest: seq<byte>, gs: seq<int>) returns (i: Input)
    requires p.Legal() && p.qos == 2 && p.Length() == 4 && |s.readbuf| >= 6
    ensures CalmWith(s, i, 0) && Enabled(s, Cycling(i)) && Carries(i, Publishing(p))
    ensures DrawOne(Source(p.Encoding() + rest, GENEROUS + gs), s.readbuf, Cycling(i))
         == Some((Source(rest, gs), i.buf))
  {
    var h, body := PublishFrame(p);
    ShortFrame(h, body);
    i := SmallDrawn(s, h, body, rest, gs);
  }

  lemma CutReleaseDrawn(s: State, id: ushort, other: ushort, rest: seq<byte>, gs: seq<int>) returns (i: Input)
    requires |s.readbuf| >= 6
    ensures CalmWith(s, i, id) && Enabled(s, Cycling(i))
    ensures i.out == Packet(PUBREL) && Peek(i.buf, 0) == 98 && Peek(i.buf, 1) == 0
    ensures DrawOne(Source(EncodeAck(PUBREL, 0, other) + rest, [1, 0] + gs), s.readbuf, Cycling(i))
         == Some((Source([2] + EncodeInt(other) + rest, gs), i.buf))
  {
    var src := Source(EncodeAck(PUBREL, 0, other) + rest, [1, 0] + gs);
    var (out, buf, _) := ReadOutcome(src, s.readbuf);
    i := Calm(s.alive, out, buf).(garbage := id);
    CutReleaseRead(other, rest, gs, s.readbuf);
    ReadShape(src, s.readbuf);
  }

  /** The bytes that were left are a packet of type 0. */
  lemma LeftoverDrawn(s: State, other: ushort, rest: seq<byte>, gs: seq<int>) returns (i: Input)
    requires |s.readbuf| >= 6 && other / 256 == 1
    ensures CalmWith(s, i, 0) && Enabled(s, Cycling(i)) && i.out == Packet(0)
    ensures DrawOne(Source([2] + EncodeInt(other) + rest, GENEROUS + gs), s.readbuf, Cycling(i))
         == Some((Source(rest, gs), i.buf))
  {
    var body := [other % 256];
    i := SmallDrawn(s, 2, body, rest, gs);
    assert [2] + EncodeInt(other) == [2, |body|] + body;
  }

  function Again(id: ushort): Publish {
    Smallest(id).(dup := 1)
  }

  lemma FreeAgain(t: seq<ushort>, t': seq<ushort>, id: ushort)
    requires QoS2Ids.Distinct(t) && id > 0 && id !in t && 0 in t && t' == QoS2Ids.Use(t, id).1
    ensures id !in QoS2Ids.Free(t', id) && 0 in QoS2Ids.Free(t', id)
  {
    QoS2Ids.UseAdds(t, id);
    QoS2Ids.FreeRemoves(t', id);
    assert QoS2Ids.Free(t', id)[QoS2Ids.Find(t', id)] == 0;
  }

  /** What the server sends: the message, a PUBREL of another exchange, and the message again, because no PUBREC
      has come yet.  The length byte of the PUBREL is late. */
  function Traffic(id: ushort, other: ushort): Source {
    Source(Smallest(id).Encoding() + FromRelease(id, other).data, GENEROUS + FromRelease(id, other).grants)
  }

  function FromRelease(id: ushort, other: ushort): Source {
    Source(EncodeAck(PUBREL, 0, other) + FromAgain(id).data, [1, 0] + (GENEROUS + FromAgain(id).grants))
  }

  function FromLeftover(id: ushort, other: ushort): Source {
    Source([2] + EncodeInt(other) + FromAgain(id).data, GENEROUS + FromAgain(id).grants)
  }

  function FromAgain(id: ushort): Source {
    Source(Again(id).Encoding() + [], GENEROUS + [])
  }

  /** The message as it is handed over. */
  function HandedMessage(id: ushort, dup: nat): PublishOut {
    PublishOut(dup, 2, 0, id, [], [], 0)
  }

  ghost predicate Ready(s: State) {
    !s.clean && |s.readbuf| >= 6
  }

  lemma FirstTime(s: State, id: ushort, other: ushort, src: Source) returns (ops: seq<Op>, s': State)
    requires Ready(s) && Room(s, id) && src == Traffic(id, other)
    ensures Reached(s, src, ops, s', FromRelease(id, other), [HandedMessage(id, 0)])
    ensures Ready(s') && s'.table == QoS2Ids.Use(s.table, id).1
  {
    var next := FromRelease(id, other);
    var h, body := SmallestIs(id);
    var i := MessageRead(s, Smallest(id), next.data, next.grants);
    MessageTaken(s, i, Smallest(id));
    InflightRetention.CycleSame(s, i);
    ReachedNext(s, src, [], s, src, [], i, next);
    ops, s' := [] + [Cycling(i)], Cycle(s, i).s;
  }

  lemma Freed(s0: State, id: ushort, other: ushort, src0: Source, ops: seq<Op>, s: State)
    returns (ops': seq<Op>, s': State)
    requires Ready(s)
    requires Reached(s0, src0, ops, s, FromRelease(id, other), [HandedMessage(id, 0)])
    ensures Reached(s0, src0, ops', s', FromLeftover(id, other), [HandedMessage(id, 0)])
    ensures Ready(s') && s'.table == QoS2Ids.Free(s.table, id)
  {
    var i := CutReleaseDrawn(s, id, other, FromAgain(id).data, GENEROUS + FromAgain(id).grants);
    CutCycle(s, i, id);
    InflightRetention.CycleSame(s, i);
    ReachedNext(s0, src0, ops, s, FromRelease(id, other), [HandedMessage(id, 0)], i, FromLeftover(id, other));
    ops', s' := ops + [Cycling(i)], Cycle(s, i).s;
  }

  lemma Skipped(s0: State, id: ushort, other: ushort, src0: Source, ops: seq<Op>, s: State)
    returns (ops': seq<Op>, s': State)
    requires Ready(s) && other / 256 == 1
    requires Reached(s0, src0, ops, s, FromLeftover(id, other), [HandedMessage(id, 0)])
    ensures Reached(s0, src0, ops', s', FromAgain(id), [HandedMessage(id, 0)])
    ensures Ready(s') && s'.table == s.table
  {
    var i := LeftoverDrawn(s, other, FromAgain(id).data, FromAgain(id).grants);
    QuietCycle(s, i);
    InflightRetention.CycleSame(s, i);
    ReachedNext(s0, src0, ops, s, FromLeftover(id, other), [HandedMessage(id, 0)], i, FromAgain(id));
    ops', s' := ops + [Cycling(i)], Cycle(s, i).s;
  }

  lemma SecondTime(s0: State, id: ushort, src0: Source, ops: seq<Op>, s: State) returns (ops': seq<Op>, s': State)
    requires Ready(s) && Room(s, id)
    requires Reached(s0, src0, ops, s, FromAgain(id), [HandedMessage(id, 0)])
    ensures Reached(s0, src0, ops', s', Source([], []), [HandedMessage(id, 0), HandedMessage(id, 1)])
  {
    var i := MessageRead(s, Again(id), [], []);
    MessageTaken(s, i, Again(id));
    ReachedNext(s0, src0, ops, s, FromAgain(id), [HandedMessage(id, 0)], i, Source([], []));
    ops', s' := ops + [Cycling(i)], Cycle(s, i).s;
  }

  /** At-most-once does need the first half of `Tidy`.  A persistent client with a free place in its table gets these
      three packets, and the one late byte, and hands the same message over twice; no send fails, no session is
      closed, and every byte is read.  The packet id of the PUBREL is one of 256 to 511, so that its bytes are skipped
      as a packet of type 0. */
  lemma SlowReadDeliversTwice(s: State, id: ushort, other: ushort) returns (ops: seq<Op>, s': State)
    requires Ready(s) && QoS2Ids.Distinct(s.table) && id > 0 && id !in s.table && 0 in s.table && other / 256 == 1
    ensures Reached(s, Traffic(id, other), ops, s', Source([], []), [HandedMessage(id, 0), HandedMessage(id, 1)])
  {
    var src := Traffic(id, other);
    var ops1, s1 := FirstTime(s, id, other, src);
    var ops2, s2 := Freed(s, id, other, src, ops1, s1);
    var ops3, s3 := Skipped(s, id, other, src, ops2, s2);
    FreeAgain(s.table, s1.table, id);
    ops, s' := SecondTime(s, id, src, ops3, s3);
  }

  // ---- a body that comes up short outside a session ----

  /** A PUBLISH of QoS 0 whose payload looks like a PUBREL. */
  function Disguised(id: ushort): Publish {
    Publish(0, 0, 0, 0, [97], EncodeAck(PUBREL, 0, id))
  }

  lemma DisguisedBytes(id: ushort) returns (body: seq<byte>)
    ensures Disguised(id).Encoding() == [48, |body|] + body && |body| == 7 && Disguised(id).Legal()
    ensures body == [0, 1, 97] + EncodeAck(PUBREL, 0, id)
  {
    var h := Header(PUBLISH, 0, 0, 0);
    body := Disguised(id).Body();
    HeaderIs(PUBLISH, 0, 0, 0);
    ReleaseBytes(id);
    assert EncodeString([97]) == [0, 1, 97];
    assert body == [0, 1, 97] + EncodeAck(PUBREL, 0, id);
    ShortFrame(h, body);
  }

  /** The first bytes of a body come, and the others do not: those are left in the stream. */
  lemma ShortBodyRead(h: byte, x: seq<byte>, y: seq<byte>, rest: seq<byte>, gs: seq<int>, b: seq<byte>)
    requires 1 <= |x| && 1 <= |y| && |x + y| <= 100 && |b| >= 5 && |b| >= 2 + |x + y|
    ensures var s := Source([h, |x + y|] + (x + y) + rest, [1, 1, |x|] + gs);
      var (out, b', s') := ReadOutcome(s, b);
      out == ShortBody && |b'| == |b| && s' == Source(y + rest, gs)
  {
    var n := |x + y|;
    var s := Source([h, n] + (x + y) + rest, [1, 1, |x|] + gs);
    var s1, s2 := Source([n] + (x + y) + rest, [1, |x|] + gs), Source(x + y + rest, [|x|] + gs);
    FirstByte(s, h, s1);
    FirstByte(s1, n, s2);
    assert DecodeSource(s1, 0) == (n, s2);
    ShortFrame(h, x + y);
    PartComes(x, y, rest, gs, Put(Put(b, 0, [h]), 1, EncodeShort(n)));
  }

  lemma PartComes(x: seq<byte>, y: seq<byte>, rest: seq<byte>, gs: seq<int>, b: seq<byte>)
    requires 1 <= |y| && |b| >= 2 + |x + y| && FrameSize(|x + y|) == 2 + |x + y|
    ensures var (out, b', s') := ReadRest(|x + y|, b, Source(x + y + rest, [|x|] + gs));
      out == ShortBody && |b'| == |b| && s' == Source(y + rest, gs)
  {
    var s := Source(x + y + rest, [|x|] + gs);
    assert s.data[|x|..] == y + rest && s.data[..|x|] == x && s.grants[1..] == gs;
  }

  /** Outside a session such a read has no consequence. */
  lemma ShortCycle(s: State, i: Input)
    requires !s.connected && i.out == ShortBody
    ensures var c := Cycle(s, i);
      c.rc == 1 && c.es == [] && c.s.table == s.table && c.s.clean == s.clean && c.s.readbuf == i.buf
  {
  }

  function FromDisguised(id: ushort): Source {
    Source(Disguised(id).Encoding() + FromAgain(id).data, [1, 1, 3] + (GENEROUS + FromAgain(id).grants))
  }

  function FromPayload(id: ushort): Source {
    Source(EncodeAck(PUBREL, 0, id) + FromAgain(id).data, GENEROUS + FromAgain(id).grants)
  }

  /** The message, other traffic, and the message again; of the other packet the last four bytes are late. */
  function OutsideTraffic(id: ushort): Source {
    Source(Smallest(id).Encoding() + FromDisguised(id).data, GENEROUS + FromDisguised(id).grants)
  }

  ghost predicate ReadyOutside(s: State) {
    !s.clean && |s.readbuf| >= 9 && !s.connected
  }

  lemma FirstOutside(s: State, id: ushort, src: Source) returns (ops: seq<Op>, s': State)
    requires ReadyOutside(s) && Room(s, id) && src == OutsideTraffic(id)
    ensures Reached(s, src, ops, s', FromDisguised(id), [HandedMessage(id, 0)])
    ensures ReadyOutside(s') && s'.table == QoS2Ids.Use(s.table, id).1
  {
    var next := FromDisguised(id);
    var h, body := SmallestIs(id);
    var i := MessageRead(s, Smallest(id), next.data, next.grants);
    MessageTaken(s, i, Smallest(id));
    InflightRetention.CycleSame(s, i);
    ReachedNext(s, src, [], s, src, [], i, next);
    ops, s' := [] + [Cycling(i)], Cycle(s, i).s;
  }

  lemma DisguisedCut(s0: State, id: ushort, src0: Source, ops: seq<Op>, s: State)
    returns (ops': seq<Op>, s': State)
    requires ReadyOutside(s) && Reached(s0, src0, ops, s, FromDisguised(id), [HandedMessage(id, 0)])
    ensures Reached(s0, src0, ops', s', FromPayload(id), [HandedMessage(id, 0)])
    ensures ReadyOutside(s') && s'.table == s.table
  {
    var i := DisguisedDrawn(s, id, FromAgain(id).data, GENEROUS + FromAgain(id).grants);
    ShortCycle(s, i);
    InflightRetention.CycleSame(s, i);
    ReachedNext(s0, src0, ops, s, FromDisguised(id), [HandedMessage(id, 0)], i, FromPayload(id));
    ops', s' := ops + [Cycling(i)], Cycle(s, i).s;
  }

  lemma DisguisedDrawn(s: State, id: ushort, rest: seq<byte>, gs: seq<int>) returns (i: Input)
    requires |s.readbuf| >= 9
    ensures CalmWith(s, i, 0) && Enabled(s, Cycling(i)) && i.out == ShortBody
    ensures DrawOne(Source(Disguised(id).Encoding() + rest, [1, 1, 3] + gs), s.readbuf, Cycling(i))
         == Some((Source(EncodeAck(PUBREL, 0, id) + rest, gs), i.buf))
  {
    var body := DisguisedBytes(id);
    var src := Source([48, |body|] + body + rest, [1, 1, 3] + gs);
    var (out, buf, _) := ReadOutcome(src, s.readbuf);
    i := Calm(s.alive, out, buf);
    ReleaseBytes(id);
    ShortBodyRead(48, [0, 1, 97], EncodeAck(PUBREL, 0, id), rest, gs, s.readbuf);
  }

  /** The bytes of the payload are a PUBREL. */
  lemma PayloadTaken(s0: State, id: ushort, src0: Source, ops: seq<Op>, s: State)
    returns (ops': seq<Op>, s': State)
    requires ReadyOutside(s) && Reached(s0, src0, ops, s, FromPayload(id), [HandedMessage(id, 0)])
    ensures Reached(s0, src0, ops', s', FromAgain(id), [HandedMessage(id, 0)])
    ensures Ready(s') && s'.table == QoS2Ids.Free(s.table, id)
  {
    var h, body := AckFrame(PUBREL, id);
    ShortFrame(h, body);
    var i := SmallDrawn(s, h, body, FromAgain(id).data, FromAgain(id).grants);
    CalmRelease(s, i, id);
    ReleaseCycle(s, i, 0, id);
    InflightRetention.CycleSame(s, i);
    ReachedNext(s0, src0, ops, s, FromPayload(id), [HandedMessage(id, 0)], i, FromAgain(id));
    ops', s' := ops + [Cycling(i)], Cycle(s, i).s;
  }

  /** At-most-once does need the other half of `Tidy`, too.  A persistent client without a session, as it is while
      `connect` waits, takes the late part of another packet's payload for a PUBREL, and hands the same message over
      twice; no send fails, no session is closed, and every byte is read. */
  lemma ShortBodyDeliversTwice(s: State, id: ushort) returns (ops: seq<Op>, s': State)
    requires ReadyOutside(s) && QoS2Ids.Distinct(s.table) && id > 0 && id !in s.table && 0 in s.table
    ensures Reached(s, OutsideTraffic(id), ops, s', Source([], []), [HandedMessage(id, 0), HandedMessage(id, 1)])
  {
    var src := OutsideTraffic(id);
    var ops1, s1 := FirstOutside(s, id, src);
    var ops2, s2 := DisguisedCut(s, id, src, ops1, s1);
    var ops3, s3 := PayloadTaken(s, id, src, ops2, s2);
    FreeAgain(s.table, s1.table, id);
    ops, s' := SecondTime(s, id, src, ops3, s3);
  }
}
