/** `connect` with a publish kept from before: its result replaces that of CONNACK, so that a refused connection
    ends as SUCCESS and with the session up. */
module RefusedConnect {
  import opened Bytes
  import opened FixedHeader
  import opened RemainingLength
  import opened PublishCodec
  import opened MessageHandlers
  import opened Transport
  import opened PacketReader
  import opened PacketBoundaries
  import opened Session
  import opened InflightRetention
  import opened CalmRuns
  import ConnectCodec
  import C = Client

  /** A slot in use, in a client without a session. */
  ghost predicate KeptApart(s: State) {
    !s.connected && s.inflight.id > 0 && Sound(s.inflight) && |s.readbuf| >= 6
  }

  /** After `ops` the client is in state `s`, and `src` is left to read. */
  ghost predicate Stands(s0: State, src0: Source, ops: seq<Op>, s: State, src: Source) {
    && Run(s0, ops).Some? && Run(s0, ops).value.0 == s
    && Drawn(src0, s0.readbuf, ops) == Some((src, s.readbuf))
  }

  lemma StepAt(s0: State, src0: Source, ops: seq<Op>, s: State, src: Source, op: Op)
    requires Stands(s0, src0, ops, s, src) && Enabled(s, op) && !op.Cycling? && Next(s, op).readbuf == s.readbuf
    ensures Stands(s0, src0, ops + [op], Next(s, op), src)
  {
    RunExtends(s0, ops, op);
    DrawnExtends(src0, s0.readbuf, ops, op);
  }

  lemma CycleAt(s0: State, src0: Source, ops: seq<Op>, s: State, src: Source, i: Input, src': Source)
    requires Stands(s0, src0, ops, s, src) && Enabled(s, Cycling(i))
    requires DrawOne(src, s.readbuf, Cycling(i)) == Some((src', i.buf))
    ensures Stands(s0, src0, ops + [Cycling(i)], Cycle(s, i).s, src')
  {
    RunExtends(s0, ops, Cycling(i));
    DrawnExtends(src0, s0.readbuf, ops, Cycling(i));
    CycleSame(s, i);
  }

  /** The acknowledgement that ends a delivery. */
  function AckKind(qos: nat): nat {
    if qos == 1 then PUBACK else PUBCOMP
  }

  /** What the server sends: a CONNACK with code 5, "not authorized", and the acknowledgement of the kept publish,
      if that is to be acknowledged. */
  function Reply(f: Inflight): Source {
    Source([32, 2] + [0, 5] + FromAck(f).data, GENEROUS + FromAck(f).grants)
  }

  function FromAck(f: Inflight): Source {
    if 1 <= f.qos <= 2 then Source([AckKind(f.qos) * 16, 2] + EncodeInt(f.id) + [], GENEROUS + []) else Source([], [])
  }

  /** CONNECT goes out, and the receive timer starts. */
  lemma Begins(s: State, src: Source, o: ConnectCodec.ConnectData) returns (sent: seq<Op>, s': State)
    requires KeptApart(s)
    ensures Stands(s, src, [SetOptions(o.keepAlive, o.clean != 0)] + sent, s', src)
    ensures |sent| == 2 && sent[0].Sending? && sent[0].packet == ConnectCodec.Encoding(o)
    ensures sent[0].w == |sent[0].packet| && sent[1].StartReceived?
    ensures KeptApart(s') && s'.inflight == s.inflight
  {
    var op0, op1, op2 := SetOptions(o.keepAlive, o.clean != 0),
      Sending(ConnectCodec.Encoding(o), |ConnectCodec.Encoding(o)|, 0), StartReceived(0);
    var s1 := Next(s, op0);
    var s2 := Next(s1, op1);
    s', sent := Next(s2, op2), [op1, op2];
    StepAt(s, src, [], s, src, op0);
    StepAt(s, src, [] + [op0], s1, src, op1);
    StepAt(s, src, [] + [op0] + [op1], s2, src, op2);
    assert [] + [op0] + [op1] + [op2] == [op0] + sent;
  }

  /** CONNACK refuses the connection. */
  lemma Refuses(s0: State, src0: Source, ops: seq<Op>, s: State, rest: Source) returns (op: Op, s': State)
    requires KeptApart(s) && Stands(s0, src0, ops, s, Source([32, 2] + [0, 5] + rest.data, GENEROUS + rest.grants))
    ensures Stands(s0, src0, ops + [op], s', rest)
    ensures op.Cycling? && op.input.out == Packet(CONNACK) && ConnectCodec.ConnackCode(op.input.buf) == 5
    ensures s'.last == CONNACK && s'.readbuf == op.input.buf
    ensures KeptApart(s') && s'.inflight == s.inflight
  {
    var body: seq<byte> := [0, 5];
    var i := SmallDrawn(s, 32, body, rest.data, rest.grants);
    QuietCycle(s, i);
    CycleAt(s0, src0, ops, s, Source([32, |body|] + body + rest.data, GENEROUS + rest.grants), i, rest);
    RefusalRead(i.buf, body);
    op, s' := Cycling(i), Cycle(s, i).s;
  }

  lemma RefusalRead(b: seq<byte>, body: seq<byte>)
    requires body == [0, 5] && At(b, 0, Frame(32, body))
    ensures ConnectCodec.ConnackCode(b) == 5
  {
    FrameParts(b, 32, body);
    ShortFrame(32, body);
  }

  /** The kept publish goes out again. */
  lemma Resends(s0: State, src0: Source, ops: seq<Op>, s: State, src: Source) returns (op: Op, s': State)
    requires KeptApart(s) && Stands(s0, src0, ops, s, src)
    ensures Stands(s0, src0, ops + [op], s', src) && op == Resending(s.inflight.len, 0)
    ensures KeptApart(s') && s'.inflight == s.inflight && s'.last == s.last
  {
    op := Resending(s.inflight.len, 0);
    s' := Next(s, op);
    StepAt(s0, src0, ops, s, src, op);
  }

  /** And is acknowledged, which empties the slot. */
  lemma Acknowledges(s0: State, src0: Source, ops: seq<Op>, s: State) returns (cycle: Op, ack: Op, s': State)
    requires KeptApart(s) && 1 <= s.inflight.qos <= 2 && Stands(s0, src0, ops, s, FromAck(s.inflight))
    ensures Stands(s0, src0, ops + [cycle] + [ack], s', Source([], [])) && cycle.Cycling? && ack.TakeAck?
    ensures !s'.connected && s'.inflight.id == 0
    ensures s'.last == AckKind(s.inflight.qos) && s'.readbuf == cycle.input.buf
  {
    var kind, body := AckKind(s.inflight.qos), EncodeInt(s.inflight.id);
    var s1;
    cycle, s1 := AckComes(s0, src0, ops, s, kind, body);
    AckTaken(s1, kind, body);
    ack, s' := TakeAck(0), Next(s1, TakeAck(0));
    StepAt(s0, src0, ops + [cycle], s1, Source([], []), ack);
  }

  lemma AckComes(s0: State, src0: Source, ops: seq<Op>, s: State, kind: nat, body: seq<byte>)
    returns (op: Op, s': State)
    requires |s.readbuf| >= 6 && (kind == PUBACK || kind == PUBCOMP) && |body| == 2
    requires Stands(s0, src0, ops, s, Source([kind * 16, |body|] + body + [], GENEROUS + []))
    ensures Stands(s0, src0, ops + [op], s', Source([], [])) && op.Cycling?
    ensures s'.last == kind && s'.readbuf == op.input.buf && At(s'.readbuf, 0, Frame(kind * 16, body))
    ensures s'.inflight == s.inflight && s'.clean == s.clean && s'.connected == s.connected
  {
    var h: byte := kind * 16;
    var i := SmallDrawn(s, h, body, [], []);
    AckQuiet(s, i, kind);
    CycleAt(s0, src0, ops, s, Source([h, |body|] + body + [], GENEROUS + []), i, Source([], []));
    op, s' := Cycling(i), Cycle(s, i).s;
  }

  lemma AckQuiet(s: State, i: Input, kind: nat)
    requires CalmWith(s, i, 0) && i.out == Packet(kind) && (kind == PUBACK || kind == PUBCOMP)
    ensures var s' := Cycle(s, i).s;
      && s'.last == kind && s'.readbuf == i.buf
      && s'.inflight == s.inflight && s'.clean == s.clean && s'.connected == s.connected
  {
    QuietCycle(s, i);
  }

  lemma AckTaken(s: State, kind: nat, body: seq<byte>)
    requires (kind == PUBACK || kind == PUBCOMP) && body == EncodeInt(s.inflight.id)
    requires At(s.readbuf, 0, Frame(kind * 16, body))
    ensures DecodeAck(s.readbuf, AckOut(0, 0, 0)).0 == 1
    ensures Acked(s, 0) == s.(inflight := s.inflight.(id := 0))
  {
    var h := Header(kind, 0, 0, 0);
    assert EncodeAck(kind, 0, s.inflight.id) == Frame(h, body);
    AckRoundTrip(kind, 0, s.inflight.id, s.readbuf, AckOut(0, 0, 0));
  }

  // ---- connect as a whole ----

  /** These steps are a course that `connect` can take from `s` when CONNECT goes out, and it returns `rc`. */
  ghost predicate Possible(s: State, o: ConnectCodec.ConnectData, size: nat, rc: int,
                           sent: seq<Op>, connack: seq<Op>, more: seq<Op>) {
    var ops := [SetOptions(o.keepAlive, o.clean != 0)] + sent + connack + more + C.OpenStep(rc);
    && |sent| == 2 && C.ConnectCourse(o, size, rc, sent, connack, more) && Run(s, ops).Some?
    && var t := Run(s, ops).value.0; C.Settled(s.inflight, connack, more, rc, t.last, t.readbuf)
  }

  /** The last of these cycles got a CONNACK of this code. */
  predicate Answered(connack: seq<Op>, code: int) {
    connack != [] &&
    var op := connack[|connack| - 1];
    op.Cycling? && op.input.out == Packet(CONNACK) && ConnectCodec.ConnackCode(op.input.buf) == code
  }

  lemma Ends(s0: State, src0: Source, ops: seq<Op>, resend: Op, s: State) returns (more: seq<Op>, s': State)
    requires KeptApart(s) && s.inflight.qos <= 2 && Stands(s0, src0, ops + [resend], s, FromAck(s.inflight))
    requires resend.Resending?
    ensures Stands(s0, src0, ops + more, s', Source([], [])) && C.Republished(more, s.inflight.qos, SUCCESS)
  {
    if 1 <= s.inflight.qos <= 2 {
      var cycle, ack;
      cycle, ack, s' := Acknowledges(s0, src0, ops + [resend], s);
      more := [resend, cycle, ack];
      assert ops + [resend] + [cycle] + [ack] == ops + more;
      RepublishedBy(resend, [cycle], [ack], more, s.inflight.qos);
    } else {
      more, s' := [resend], s;
      RepublishedBy(resend, [], [], more, s.inflight.qos);
    }
  }

  lemma RepublishedBy(resend: Op, cycles: seq<Op>, ack: seq<Op>, more: seq<Op>, qos: nat)
    requires resend.Resending? && C.CyclesOnly(cycles) && C.AtMostOneAck(ack) && more == [resend] + cycles + ack
    requires if 1 <= qos <= 2 then ack != [] else cycles == [] && ack == []
    ensures C.Republished(more, qos, SUCCESS)
  {
    assert C.Ending(SUCCESS, qos, cycles, ack);
    assert more == [more[0]] + cycles + ack + [];
  }

  lemma CourseFits(o: ConnectCodec.ConnectData, size: nat, sent: seq<Op>, refusal: Op, more: seq<Op>)
    requires C.Connectable(o) && PacketLen(ConnectCodec.ConnectLength(o)) <= size && refusal.Cycling?
    requires |sent| == 2 && sent[0].Sending? && sent[0].packet == ConnectCodec.Encoding(o)
    requires sent[0].w == |sent[0].packet| && sent[1].StartReceived?
    ensures C.ConnectCourse(o, size, SUCCESS, sent, [refusal], more)
  {
  }

  /** The course in which CONNACK refuses, and `connect` returns SUCCESS; the server has sent `Reply`, and all of
      it was read. */
  lemma RefusedYetConnected(s: State, o: ConnectCodec.ConnectData, size: nat)
    returns (sent: seq<Op>, connack: seq<Op>, more: seq<Op>)
    requires KeptApart(s) && C.Connectable(o) && PacketLen(ConnectCodec.ConnectLength(o)) <= size
    ensures Possible(s, o, size, SUCCESS, sent, connack, more) && |connack| == 1 && Answered(connack, 5)
    ensures var ops := [SetOptions(o.keepAlive, o.clean != 0)] + sent + connack + more + C.OpenStep(SUCCESS);
      Run(s, ops).Some? && Run(s, ops).value.0.connected && Drawn(Reply(s.inflight), s.readbuf, ops).Some?
  {
    var src, options := Reply(s.inflight), [SetOptions(o.keepAlive, o.clean != 0)];
    var s1, s2, s3, s4, refusal, resend;
    sent, s1 := Begins(s, src, o);
    refusal, s2 := Refuses(s, src, options + sent, s1, FromAck(s.inflight));
    connack := [refusal];
    resend, s3 := Resends(s, src, options + sent + connack, s2, FromAck(s.inflight));
    SlotQos(s);
    more, s4 := Ends(s, src, options + sent + connack, resend, s3);
    StepAt(s, src, options + sent + connack + more, s4, Source([], []), Open);
    CourseFits(o, size, sent, refusal, more);
    assert C.OpenStep(SUCCESS) == [Open];
  }

  lemma SlotQos(s: State)
    requires KeptApart(s)
    ensures s.inflight.qos <= 2
  {
  }

  lemma LastCycle(s: State, front: seq<Op>, op: Op)
    requires op.Cycling? && Run(s, front + [op] + [Open]).Some?
    ensures var t := Run(s, front + [op] + [Open]).value.0;
      t.readbuf == op.input.buf && (t.last == CONNACK ==> op.input.out == Packet(CONNACK))
  {
    var ops := front + [op] + [Open];
    assert ops[..|ops| - 1] == front + [op];
    LastRun(s, front, op);
  }

  lemma LastRun(s: State, front: seq<Op>, op: Op)
    requires op.Cycling? && Run(s, front + [op]).Some?
    ensures var t := Run(s, front + [op]).value.0;
      t.readbuf == op.input.buf && (t.last == CONNACK ==> op.input.out == Packet(CONNACK))
  {
    assert (front + [op])[..|front|] == front;
    CycleSame(Run(s, front).value.0, op.input);
  }

  lemma SplitAtLast(a: seq<Op>, b: seq<Op>, more: seq<Op>, end: seq<Op>)
    requires b != [] && more == []
    ensures a + b + more + end == a + b[..|b| - 1] + [b[|b| - 1]] + end
  {
  }

  lemma AcceptedAtLast(s: State, o: ConnectCodec.ConnectData, size: nat,
                       sent: seq<Op>, connack: seq<Op>, more: seq<Op>)
    requires s.inflight.id == 0 && Possible(s, o, size, SUCCESS, sent, connack, more)
    ensures Answered(connack, 0)
  {
    var begin := [SetOptions(o.keepAlive, o.clean != 0)] + sent;
    var t := Run(s, begin + connack + more + C.OpenStep(SUCCESS)).value.0;
    ResultAccepts(connack, t.last, t.readbuf);
    SplitAtLast(begin, connack, more, [Open]);
    LastCycle(s, begin + connack[..|connack| - 1], connack[|connack| - 1]);
  }

  lemma ResultAccepts(connack: seq<Op>, last: int, readbuf: seq<byte>)
    requires C.ConnackResult(connack, last, readbuf) == SUCCESS
    ensures connack != [] && last == CONNACK && ConnectCodec.ConnackCode(readbuf) == 0
  {
  }

  /** SUCCESS of `connect` means an accepted connection on every course, if and only if no publish is kept. */
  lemma AcceptedExactly(s: State, o: ConnectCodec.ConnectData, size: nat)
    requires !s.connected && Sound(s.inflight) && |s.readbuf| >= 6
    requires C.Connectable(o) && PacketLen(ConnectCodec.ConnectLength(o)) <= size
    ensures s.inflight.id == 0 <==>
      forall sent, connack, more :: Possible(s, o, size, SUCCESS, sent, connack, more) ==> Answered(connack, 0)
  {
    if s.inflight.id == 0 {
      forall sent, connack, more | Possible(s, o, size, SUCCESS, sent, connack, more) ensures Answered(connack, 0) {
        AcceptedAtLast(s, o, size, sent, connack, more);
      }
    } else {
      var sent, connack, more := RefusedYetConnected(s, o, size);
      assert !Answered(connack, 0);
    }
  }
}
