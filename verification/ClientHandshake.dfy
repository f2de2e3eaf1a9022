/** What a cycle of the client does with the packets of an incoming QoS 2 exchange, in a persistent session. */
module ClientHandshake {
  import opened Bytes
  import opened FixedHeader
  import opened PublishCodec
  import opened MessageHandlers
  import opened PacketReader
  import opened Session
  import opened AckOrder
  import opened InflightRetention
  import QoS2Ids

  /** The QoS 2 messages handed to `deliverMessage`, in order. */
  function Handed(es: seq<Event>): seq<PublishOut> {
    if es == [] then [] else Handed(es[..|es| - 1]) + HandedBy(es[|es| - 1])
  }

  function HandedBy(e: Event): seq<PublishOut> {
    if e.Delivered? && e.msg.qos == 2 then [e.msg] else []
  }

  /** A send failed or the session was closed. */
  predicate Broken(es: seq<Event>) {
    exists k :: 0 <= k < |es| && (es[k].Cut? || es[k].Closed?)
  }

  lemma {:induction false} HandedConcat(a: seq<Event>, b: seq<Event>)
    ensures Handed(a + b) == Handed(a) + Handed(b)
  {
    if b == [] {
      assert a + b == a;
    } else {
      var front, e := b[..|b| - 1], b[|b| - 1];
      HandedConcat(a, front);
      assert (a + b)[..|a + b| - 1] == a + front && (a + b)[|a + b| - 1] == e;
      assert Handed(b) == Handed(front) + HandedBy(e);
      Joined(Handed(a), Handed(front), HandedBy(e));
    }
  }

  lemma HandedOne(e: Event)
    ensures Handed([e]) == HandedBy(e)
  {
  }

  lemma BrokenConcat(a: seq<Event>, b: seq<Event>)
    ensures Broken(a) || Broken(b) ==> Broken(a + b)
  {
    if Broken(a) {
      var k :| 0 <= k < |a| && (a[k].Cut? || a[k].Closed?);
      assert (a + b)[k] == a[k];
    } else if Broken(b) {
      var k :| 0 <= k < |b| && (b[k].Cut? || b[k].Closed?);
      assert (a + b)[|a| + k] == b[k];
    }
  }

  lemma BrokenOrWhole(es: seq<Event>)
    ensures !Broken(es) ==> NoCut(es)
  {
  }

  // ---- parts of a cycle ----

  /** `q` adds nothing to the exchange that `p` did not have. */
  ghost predicate Adds(p: Part, q: Part) {
    && Handed(q.es) == Handed(p.es)
    && (Broken(p.es) ==> Broken(q.es))
    && (!p.s.clean ==> q.s.table == p.s.table && !q.s.clean)
  }

  lemma WithKeepAliveAdds(p: Part, i: Input)
    ensures Adds(p, WithKeepAlive(p, i))
  {
    var es := KeepAlive(p.s.alive, i).1;
    HandedConcat(p.es, es);
    BrokenConcat(p.es, es);
    HandedOne(SendEvent(Ping, i.pingW));
  }

  lemma FinishAdds(p: Part, kind: int)
    ensures Adds(p, Finish(p, kind))
  {
  }

  lemma CycleAdds(s: State, i: Input)
    ensures Adds(OnPacket(Read(s, i), i), Cycle(s, i))
  {
    var p := OnPacket(Read(s, i), i);
    var r := ReadEvents(i);
    if i.out.Packet? { HandedOne(Received(i.out.kind, i.buf)); }
    HandedConcat(r, p.es);
    BrokenConcat(r, p.es);
    var q := p.(es := r + p.es);
    WithKeepAliveAdds(q, i);
    FinishAdds(WithKeepAlive(q, i), i.Type());
  }

  // ---- a QoS 2 PUBLISH ----

  /** Whether a message with this id would be handed over. */
  predicate Room(s: State, id: ushort) {
    id !in s.table && QoS2Ids.Use(s.table, id).0
  }

  lemma AcceptHands(s: State, m: PublishOut)
    requires m.qos == 2
    ensures Handed(Accept(s, m).1) == if Room(s, m.id) then [m] else []
    ensures Accept(s, m).0 == if Room(s, m.id) then s.(table := QoS2Ids.Use(s.table, m.id).1) else s
  {
  }

  lemma OnPublishHands(s: State, i: Input, m: PublishOut)
    requires DecodePublish(i.buf, Unset(i.garbage)) == (1, m) && m.qos == 2
    ensures var p := OnPublish(s, i);
      && Handed(p.es) == (if Room(s, m.id) then [m] else [])
      && p.s.table == (if Room(s, m.id) then QoS2Ids.Use(s.table, m.id).1 else s.table)
      && p.s.clean == s.clean
  {
    var (s', es) := Accept(s, m);
    AcceptHands(s, m);
    HandedConcat(es, [SendEvent(Ack(PUBREC, m.id), i.ackW)]);
    HandedOne(SendEvent(Ack(PUBREC, m.id), i.ackW));
  }

  lemma OnPacketHands(s: State, i: Input, m: PublishOut)
    requires i.out == Packet(PUBLISH) && m.qos == 2
    requires DecodePublish(i.buf, Unset(i.garbage)) == (1, m)
    ensures var p := OnPacket(Read(s, i), i);
      && Handed(p.es) == (if Room(s, m.id) then [m] else [])
      && p.s.table == (if Room(s, m.id) then QoS2Ids.Use(s.table, m.id).1 else s.table)
      && p.s.clean == s.clean
  {
    OnPublishHands(Read(s, i), i, m);
  }

  lemma MessageCycle(s: State, i: Input, m: PublishOut)
    requires !s.clean && i.out == Packet(PUBLISH) && m.qos == 2
    requires DecodePublish(i.buf, Unset(i.garbage)) == (1, m)
    ensures var c := Cycle(s, i);
      && Handed(c.es) == (if Room(s, m.id) then [m] else [])
      && c.s.table == (if Room(s, m.id) then QoS2Ids.Use(s.table, m.id).1 else s.table)
      && !c.s.clean
  {
    CycleAdds(s, i);
    OnPacketHands(s, i, m);
  }

  lemma CycleAnswers(s: State, i: Input, m: Incoming)
    requires m.Legal() && Carries(i, m)
    ensures !Broken(Cycle(s, i).es) ==> Answers(Cycle(s, i).es) == m.Image()
  {
    CycleReplies(s, i, m);
    BrokenOrWhole(Cycle(s, i).es);
  }

  lemma PublishCycle(s: State, i: Input, p: Publish)
    requires !s.clean && p.Legal() && p.qos == 2 && Carries(i, Publishing(p))
    ensures var c := Cycle(s, i);
      && Handed(c.es) == (if Room(s, p.id) then [p.Decoded(Unset(i.garbage))] else [])
      && c.s.table == (if Room(s, p.id) then QoS2Ids.Use(s.table, p.id).1 else s.table)
      && !c.s.clean
      && (!Broken(c.es) ==> Answers(c.es) == [Ack(PUBREC, p.id)])
  {
    PublishRoundTrip(p, i.buf, Unset(i.garbage));
    MessageCycle(s, i, p.Decoded(Unset(i.garbage)));
    CycleAnswers(s, i, Publishing(p));
  }

  // ---- a PUBREL ----

  lemma OnPacketFrees(s: State, i: Input, dup: nat, id: ushort)
    requires i.out == Packet(PUBREL) && dup < 2
    requires DecodeAck(i.buf, AckOut(0, 0, i.garbage)) == (1, AckOut(PUBREL, dup, id))
    ensures var p := OnPacket(Read(s, i), i);
      && Handed(p.es) == [] && p.s.clean == s.clean
      && (p.s.table == s.table || p.s.table == QoS2Ids.Free(s.table, id))
      && (!Broken(p.es) ==> p.s.table == QoS2Ids.Free(s.table, id))
  {
  }

  lemma FreeingCycle(s: State, i: Input, dup: nat, id: ushort)
    requires !s.clean && i.out == Packet(PUBREL) && dup < 2
    requires DecodeAck(i.buf, AckOut(0, 0, i.garbage)) == (1, AckOut(PUBREL, dup, id))
    ensures var c := Cycle(s, i);
      && Handed(c.es) == [] && !c.s.clean
      && (c.s.table == s.table || c.s.table == QoS2Ids.Free(s.table, id))
      && (!Broken(c.es) ==> c.s.table == QoS2Ids.Free(s.table, id))
  {
    CycleAdds(s, i);
    OnPacketFrees(s, i, dup, id);
  }

  lemma ReleaseCycle(s: State, i: Input, dup: nat, id: ushort)
    requires !s.clean && dup < 2 && Carries(i, Acking(PUBREL, dup, id))
    ensures var c := Cycle(s, i);
      && Handed(c.es) == [] && !c.s.clean
      && (c.s.table == s.table || c.s.table == QoS2Ids.Free(s.table, id))
      && (!Broken(c.es) ==> c.s.table == QoS2Ids.Free(s.table, id) && Answers(c.es) == [Ack(PUBCOMP, id)])
  {
    AckRoundTrip(PUBREL, dup, id, i.buf, AckOut(0, 0, i.garbage));
    FreeingCycle(s, i, dup, id);
    CycleAnswers(s, i, Acking(PUBREL, dup, id));
  }

  // ---- everything else ----

  /** Steps that are no part of an incoming QoS 2 exchange and keep the session persistent. */
  predicate Aside(op: Op) {
    match op
    case Cycling(i) => i.out != Packet(PUBREL) && (i.out == Packet(PUBLISH) ==> Qos(Peek(i.buf, 0)) != 2)
    case SetOptions(_, clean) => !clean
    case Sending(_, _, _) => true
    case _ => true
  }

  /** No PUBREC and no PUBCOMP among the answers. */
  predicate Unrelated(es: seq<Event>) {
    forall k :: 0 <= k < |es| && es[k].Sent? && es[k].p.Ack? ==> es[k].p.kind != PUBREC && es[k].p.kind != PUBCOMP
  }

  ghost predicate Leaves(s: State, p: Part) {
    Handed(p.es) == [] && Unrelated(p.es) && p.s.table == s.table && p.s.clean == s.clean
  }

  lemma MsgQos(b: seq<byte>, prev: PublishOut)
    requires DecodePublish(b, prev).0 == 1 && Kind(Peek(b, 0)) == PUBLISH
    ensures DecodePublish(b, prev).1.qos == Qos(Peek(b, 0))
  {
  }

  lemma OnPublishLeaves(s: State, i: Input)
    requires i.out == Packet(PUBLISH) && Kind(Peek(i.buf, 0)) == PUBLISH && Qos(Peek(i.buf, 0)) != 2
    ensures Leaves(s, OnPublish(s, i))
  {
    if DecodePublish(i.buf, Unset(i.garbage)).0 == 1 {
      MsgQos(i.buf, Unset(i.garbage));
      DeliveryLeaves(s, i, i.Msg());
    }
  }

  lemma DeliveryLeaves(s: State, i: Input, m: PublishOut)
    requires m.qos != 2
    ensures var (s', es) := Accept(s, m);
      var a := Acknowledge(s', m, i);
      Leaves(s, a.(es := es + a.es))
  {
    var a := Acknowledge(s, m, i);
    HandedConcat([Session.Call(s, m)], a.es);
    HandedOne(Session.Call(s, m));
    HandedOne(SendEvent(Ack(PUBACK, m.id), i.ackW));
  }

  lemma OnReceivedLeaves(s: State, i: Input)
    ensures Leaves(s, OnRelease(s, PUBREC, i))
  {
  }

  lemma OnPacketLeaves(s: State, i: Input)
    requires Aside(Cycling(i)) && i.Type() != PUBREL && (i.out.Packet? ==> i.out.kind == Kind(Peek(i.buf, 0)))
    requires i.out.NoHeader? ==> i.out.rc <= 0
    ensures Leaves(s, OnPacket(s, i))
  {
    if i.Type() == PUBLISH { OnPublishLeaves(s, i); }
    else if i.Type() == PUBREC { OnReceivedLeaves(s, i); }
  }

  lemma CycleUnrelated(p: Part, i: Input)
    requires Unrelated(p.es)
    ensures Unrelated(Finish(WithKeepAlive(p.(es := ReadEvents(i) + p.es), i), i.Type()).es)
  {
    assert Unrelated(ReadEvents(i) + p.es);
    KeepAliveUnrelated(p.(es := ReadEvents(i) + p.es), i);
  }

  lemma KeepAliveUnrelated(p: Part, i: Input)
    requires Unrelated(p.es)
    ensures Unrelated(WithKeepAlive(p, i).es)
  {
  }

  lemma AsideCycle(s: State, i: Input)
    requires !s.clean && Enabled(s, Cycling(i)) && Aside(Cycling(i))
    ensures var c := Cycle(s, i);
      Handed(c.es) == [] && Unrelated(c.es) && c.s.table == s.table && !c.s.clean
  {
    CycleAdds(s, i);
    OnPacketLeaves(Read(s, i), i);
    CycleUnrelated(OnPacket(Read(s, i), i), i);
  }

  lemma AsideStep(s: State, op: Op)
    requires !s.clean && Enabled(s, op) && Aside(op)
    ensures Handed(Events(s, op)) == [] && Unrelated(Events(s, op))
    ensures Next(s, op).table == s.table && !Next(s, op).clean
  {
    match op
    case Cycling(i) => AsideCycle(s, i);
    case Sending(packet, w, _) => HandedOne(SendEvent(Other(packet), w));
    case Resending(w, _) => HandedOne(SendEvent(Other(Kept(s.inflight)), w));
    case Close => HandedOne(Closed(s.clean));
    case Open => HandedOne(Opened);
    case _ =>
  }
}
