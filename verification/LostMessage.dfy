/** Incoming QoS 2 when the sender may have more exchanges under way than the client's table has places: a
    play in which a message is acknowledged to the end and never handed over, so that the condition of
    `ExactlyOnce` is needed. */
module LostMessage {
  import opened Bytes
  import opened FixedHeader
  import opened PublishCodec
  import opened Session
  import opened PacketReader
  import opened PacketBoundaries
  import opened ClientHandshake
  import opened Handshake
  import opened QoS2Ids
  import opened EndToEnd
  import opened CalmRuns
  import InflightRetention

  /** Without that condition a message can be lost: a PUBLISH that meets a full table is acknowledged
      with PUBREC all the same, and handed to nobody. */
  lemma FullTableLosesMessage(w: World, i: Input)
    requires Good(w) && Takes(w, i) && w.down[0].PubOf?
    requires 0 !in w.client.table && w.down[0].id !in w.client.table && !Broken(Cycle(w.client, i).es)
    ensures var w' := Taken(w, i);
      w'.handed == w.handed && w'.up == w.up + [Ack(PUBREC, w.down[0].id)]
  {
    TakenPublish(w, i);
    UseAdds(w.client.table, w.down[0].id);
  }

  // ---- a network that gives whole packets ----

  /** What the next cycle gets. */
  function Comes(w: World): Input
    requires |w.client.readbuf| >= 5
  {
    var (out, buf, _) := ReadOutcome(SourceOf(w, GENEROUS), w.client.readbuf);
    Calm(w.client.alive, out, buf)
  }

  /** The smallest PUBLISH of QoS 2. */
  function Smallest(id: ushort): Publish {
    Publish(0, 2, 0, id, [], [])
  }

  lemma SmallestIs(id: ushort) returns (h: byte, body: seq<byte>)
    ensures Smallest(id).Legal() && |body| == 4 && Smallest(id).Encoding() == Frame(h, body)
  {
    h, body := Header(PUBLISH, 0, 2, 0), Smallest(id).Body();
  }

  /** The only packet on its way is a small one. */
  predicate OneSmall(w: World) {
    && |w.down| == 1 && !w.down[0].OtherOf? && |w.client.readbuf| >= 6
    && (w.down[0].PubOf? ==>
      var d := w.down[0];
      d.n < |w.sent| && d.dup == 0 && w.sent[d.n] == Smallest(d.id))
  }

  lemma SmallHead(w: World) returns (h: byte, body: seq<byte>)
    requires OneSmall(w)
    ensures 1 <= |body| <= 4 && Stream(w.sent, w.down) == [h, |body|] + body
  {
    if w.down[0].PubOf? {
      h, body := SmallestIs(w.down[0].id);
      assert w.sent[w.down[0].n].(dup := 0) == w.sent[w.down[0].n];
    } else {
      h, body := AckFrame(PUBREL, w.down[0].id);
    }
    ShortFrame(h, body);
    assert BytesOf(w.sent, w.down[0]) == Frame(h, body);
    assert Stream(w.sent, w.down[1..]) == [];
  }

  /** The client can read it. */
  lemma SmallComes(w: World)
    requires Good(w) && OneSmall(w)
    ensures Allowed(w, ClientReads(Comes(w), GENEROUS)) && Takes(w, Comes(w))
    ensures After(w, ClientReads(Comes(w), GENEROUS)) == Taken(w, Comes(w))
  {
    var h, body := SmallHead(w);
    GenerousRead(h, body, [], [], w.client.readbuf);
    assert GENEROUS + [] == GENEROUS && [h, |body|] + body + [] == [h, |body|] + body;
    ReadShape(SourceOf(w, GENEROUS), w.client.readbuf);
    assert Enabled(w.client, Cycling(Comes(w)));
    ReadsHead(w, Comes(w), GENEROUS);
  }

  // ---- filling the table ----

  /** The first `k` places of the table are taken, by ids whose exchanges wait for PUBREC. */
  ghost predicate Filled(w: World, k: nat) {
    && Good(w) && w.down == [] && w.up == [] && |w.client.readbuf| >= 6
    && k <= |w.client.table| < w.window && |w.client.table| < 65535
    && |w.exchanges| == k && (forall id :: id in w.exchanges ==> id <= k)
    && Numbered(w.client.table, k)
  }

  predicate Numbered(t: seq<ushort>, k: nat) {
    forall j :: 0 <= j < |t| ==> t[j] == if j < k then j + 1 else 0
  }

  lemma NumberedNext(t: seq<ushort>, k: nat)
    requires Numbered(t, k) && k < |t| < 65535
    ensures k + 1 !in t && Use(t, k + 1) == (true, t[k := k + 1]) && Numbered(t[k := k + 1], k + 1)
  {
    FindIs(t, 0, k);
  }

  lemma NumberedFull(t: seq<ushort>)
    requires Numbered(t, |t|) && |t| < 65535
    ensures 0 !in t && |t| + 1 !in t
  {
  }

  /** A new exchange begins. */
  lemma Begun(w: World, k: nat) returns (w': World)
    requires Filled(w, k)
    ensures Allowed(w, Begin(Smallest(k + 1))) && w' == After(w, Begin(Smallest(k + 1)))
    ensures Good(w') && OneSmall(w') && w'.down == [PubOf(k + 1, |w.sent|, 0)] && w'.up == []
    ensures w'.client == w.client && w'.window == w.window && |w'.exchanges| == k + 1
    ensures forall id :: id in w'.exchanges ==> id <= k + 1
    ensures |w.sent| !in w'.delivered
  {
    var h, body := SmallestIs(k + 1);
    BeginKeeps(w, Smallest(k + 1));
    w' := After(w, Begin(Smallest(k + 1)));
    assert w'.exchanges == w.exchanges[k + 1 as ushort := Exchange(AwaitRec, |w.sent|)];
    assert forall j :: 0 <= j < |w.delivered| ==> w.delivered[j] < |w.sent|;
  }

  /** The client hands the message over. */
  lemma Accepted(w: World, k: nat) returns (w': World)
    requires Good(w) && OneSmall(w) && w.down[0].PubOf? && w.down[0].id == k + 1
    requires k < |w.client.table| < 65535 && Numbered(w.client.table, k)
    ensures Allowed(w, ClientReads(Comes(w), GENEROUS)) && w' == After(w, ClientReads(Comes(w), GENEROUS))
    ensures Good(w') && w'.client.table == w.client.table[k := k + 1] && |w'.client.readbuf| == |w.client.readbuf|
    ensures w'.exchanges == w.exchanges && w'.window == w.window
  {
    var i := Comes(w);
    SmallComes(w);
    w' := Taken(w, i);
    TakenPublish(w, i);
    NumberedNext(w.client.table, k);
    TakesKeeps(w, i);
    InflightRetention.CycleSame(w.client, i);
  }

  /** And then the connection is lost. */
  lemma Dropped(w: World, k: nat)
    requires Good(w) && |w.client.readbuf| >= 6 && Numbered(w.client.table, k)
    requires k <= |w.client.table| < w.window && |w.client.table| < 65535
    requires |w.exchanges| == k && forall id :: id in w.exchanges ==> id <= k
    ensures Filled(After(w, Lose), k)
  {
    LoseKeeps(w);
  }

  lemma PlayStep(w: World, ms: seq<Move>, v: World, m: Move)
    requires Play(w, ms) == Some(v) && Allowed(v, m)
    ensures Play(w, ms + [m]) == Some(After(v, m))
  {
    assert (ms + [m])[..|ms + [m]| - 1] == ms;
  }

  lemma {:induction false} Fill(w: World, k: nat) returns (ms: seq<Move>, v: World)
    requires Start(w) && |w.client.readbuf| >= 6 && k <= |w.client.table| < w.window && |w.client.table| < 65535
    ensures Play(w, ms) == Some(v) && Filled(v, k) && |v.client.table| == |w.client.table|
  {
    if k == 0 {
      ms, v := [], w;
      StartGood(w);
    } else {
      ms, v := Fill(w, k - 1);
      var v1 := Begun(v, k - 1);
      PlayStep(w, ms, v, Begin(Smallest(k)));
      ms := ms + [Begin(Smallest(k))];
      NumberedNext(v.client.table, k - 1);
      var v2 := Accepted(v1, k - 1);
      PlayStep(w, ms, v1, ClientReads(Comes(v1), GENEROUS));
      ms := ms + [ClientReads(Comes(v1), GENEROUS)];
      Dropped(v2, k);
      PlayStep(w, ms, v2, Lose);
      ms, v := ms + [Lose], After(v2, Lose);
    }
  }

  // ---- one exchange too many ----

  /** The sender's `n`-th message is lost when its exchange, for `id`, ends. */
  predicate Losing(w: World, id: ushort, n: nat, phase: Phase) {
    id in w.exchanges && w.exchanges[id] == Exchange(phase, n) && n !in w.delivered
  }

  lemma LostTaken(w: World, id: ushort, n: nat) returns (w': World)
    requires Good(w) && OneSmall(w) && w.down == [PubOf(id, n, 0)] && w.up == [] && Losing(w, id, n, AwaitRec)
    requires 0 !in w.client.table && id !in w.client.table
    ensures Allowed(w, ClientReads(Comes(w), GENEROUS)) && w' == After(w, ClientReads(Comes(w), GENEROUS))
    ensures Good(w') && w'.down == [] && w'.up == [Ack(PUBREC, id)] && Losing(w', id, n, AwaitRec)
    ensures |w'.client.readbuf| >= 6
  {
    SmallComes(w);
    NoRoom(w, Comes(w), id, n);
    w' := Taken(w, Comes(w));
    TakesKeeps(w, Comes(w));
    InflightRetention.CycleSame(w.client, Comes(w));
  }

  lemma NoRoom(w: World, i: Input, id: ushort, n: nat)
    requires Good(w) && Takes(w, i) && i == Calm(w.client.alive, i.out, i.buf)
    requires w.down == [PubOf(id, n, 0)] && w.up == [] && 0 !in w.client.table && id !in w.client.table
    ensures var w' := Taken(w, i);
      w'.down == [] && w'.up == [Ack(PUBREC, id)] && w'.delivered == w.delivered && w'.exchanges == w.exchanges
  {
    TakenPublish(w, i);
    CalmPublish(w.client, i, w.sent[n].(dup := 0));
    UseAdds(w.client.table, id);
  }

  lemma LostRec(w: World, id: ushort, n: nat) returns (w': World)
    requires Good(w) && w.down == [] && w.up == [Ack(PUBREC, id)] && Losing(w, id, n, AwaitRec)
    requires |w.client.readbuf| >= 6
    ensures w' == After(w, SenderTakes) && Good(w') && OneSmall(w')
    ensures w'.down == [RelOf(id)] && w'.up == [] && Losing(w', id, n, AwaitComp)
  {
    w' := After(w, SenderTakes);
    ReplyKeeps(w);
  }

  lemma LostReleased(w: World, id: ushort, n: nat) returns (w': World)
    requires Good(w) && OneSmall(w) && w.down == [RelOf(id)] && w.up == [] && Losing(w, id, n, AwaitComp)
    ensures Allowed(w, ClientReads(Comes(w), GENEROUS)) && w' == After(w, ClientReads(Comes(w), GENEROUS))
    ensures w'.up == [Ack(PUBCOMP, id)] && Losing(w', id, n, AwaitComp)
  {
    var i := Comes(w);
    SmallComes(w);
    w' := Taken(w, i);
    CalmRelease(w.client, i, id);
    TakenRelease(w, i);
  }

  lemma LostComp(w: World, id: ushort, n: nat) returns (w': World)
    requires w.up == [Ack(PUBCOMP, id)] && Losing(w, id, n, AwaitComp)
    ensures w' == After(w, SenderTakes) && n in w'.completed && n !in w'.delivered
  {
    w' := After(w, SenderTakes);
    assert w'.completed == w.completed + [n];
  }

  /** With a window larger than the table, and the table full, one more exchange runs to PUBCOMP without its
      message ever being handed over. */
  lemma OneTooMany(w: World, ms: seq<Move>, v: World) returns (ms': seq<Move>, n: nat, v': World)
    requires Play(w, ms) == Some(v) && Filled(v, |v.client.table|)
    ensures Play(w, ms') == Some(v') && n in v'.completed && n !in v'.delivered
  {
    var k := |v.client.table|;
    NumberedFull(v.client.table);
    n := |v.sent|;
    var v1 := Begun(v, k);
    var v2 := LostTaken(v1, k + 1, n);
    var v3 := LostRec(v2, k + 1, n);
    var v4 := LostReleased(v3, k + 1, n);
    v' := LostComp(v4, k + 1, n);
    PlayStep(w, ms, v, Begin(Smallest(k + 1)));
    ms' := ms + [Begin(Smallest(k + 1))];
    PlayStep(w, ms', v1, ClientReads(Comes(v1), GENEROUS));
    ms' := ms' + [ClientReads(Comes(v1), GENEROUS)];
    PlayStep(w, ms', v2, SenderTakes);
    ms' := ms' + [SenderTakes];
    PlayStep(w, ms', v3, ClientReads(Comes(v3), GENEROUS));
    ms' := ms' + [ClientReads(Comes(v3), GENEROUS)];
    PlayStep(w, ms', v4, SenderTakes);
    ms' := ms' + [SenderTakes];
  }

  /** From every start in which the sender may have more under way than the table holds, as far as there are
      packet ids for that, a message is lost on some play. */
  lemma SmallTableLoses(w: World) returns (ms: seq<Move>, n: nat)
    requires Start(w) && |w.client.readbuf| >= 6 && |w.client.table| < w.window && |w.client.table| < 65535
    ensures Play(w, ms).Some? && n in Play(w, ms).value.completed && n !in Play(w, ms).value.delivered
  {
    var v;
    ms, v := Fill(w, |w.client.table|);
    ms, n, v := OneTooMany(w, ms, v);
  }

  /** Every completed message of every play from `w` was handed over once. */
  ghost predicate AlwaysOnce(w: World) {
    forall ms, n :: Play(w, ms).Some? && n in Play(w, ms).value.completed ==> HandedOnce(Play(w, ms).value, n)
  }

  /** Exactly-once holds on all plays if and only if the table has a place for every exchange that can be
      under way. */
  lemma ExactlyOnceExactly(w: World)
    requires Start(w) && |w.client.readbuf| >= 6
    ensures AlwaysOnce(w) <==> w.window <= |w.client.table| || 65535 <= |w.client.table|
  {
    if w.window <= |w.client.table| || 65535 <= |w.client.table| {
      forall ms, n | Play(w, ms).Some? && n in Play(w, ms).value.completed ensures HandedOnce(Play(w, ms).value, n) {
        ExactlyOnce(w, ms, n);
      }
    } else {
      var ms, n := SmallTableLoses(w);
      if HandedOnce(Play(w, ms).value, n) { assert false; }
    }
  }
}
