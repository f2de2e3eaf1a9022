/** What a cycle shows to the outside, said outright: the calls made to handlers, and the bytes on the wire. */
module Effects {
  import opened Bytes
  import opened FixedHeader
  import opened RemainingLength
  import opened PublishCodec
  import opened MessageHandlers
  import opened PacketReader
  import opened PacketBoundaries
  import opened Transport
  import opened Session
  import AckOrder
  import opened KeepAliveRuns
  import opened Timing

  lemma {:induction false} WireConcat(a: seq<Event>, b: seq<Event>)
    ensures Wire(a + b) == Wire(a) + Wire(b)
  {
    if b == [] {
      assert a + b == a;
    } else {
      var front, e := b[..|b| - 1], b[|b| - 1];
      WireConcat(a, front);
      assert (a + b)[..|a + b| - 1] == a + front;
      Joined(Wire(a), Wire(front), OnWire(e));
    }
  }

  lemma {:induction false} CallsConcat(a: seq<Event>, b: seq<Event>)
    ensures Calls(a + b) == Calls(a) + Calls(b)
  {
    if b == [] {
      assert a + b == a;
    } else {
      var front, e := b[..|b| - 1], b[|b| - 1];
      CallsConcat(a, front);
      assert (a + b)[..|a + b| - 1] == a + front && (a + b)[|a + b| - 1] == e;
      assert Calls(b) == Calls(front) + CallsBy(e);
      Joined(Calls(a), Calls(front), CallsBy(e));
    }
  }

  lemma LogGrows(w: seq<byte>, c: seq<HandlerCall>, a: seq<Event>, b: seq<Event>)
    ensures (w + Wire(a)) + Wire(b) == w + Wire(a + b)
    ensures (c + Calls(a)) + Calls(b) == c + Calls(a + b)
  {
    WireConcat(a, b);
    CallsConcat(a, b);
    Joined(w, Wire(a), Wire(b));
    Joined(c, Calls(a), Calls(b));
  }

  lemma CallsThenWire(a: seq<Event>, b: seq<Event>)
    requires Wire(a) == [] && Calls(b) == []
    ensures Wire(a + b) == Wire(b) && Calls(a + b) == Calls(a)
  {
    WireConcat(a, b);
    CallsConcat(a, b);
  }

  lemma OneEvent(e: Event)
    ensures Wire([e]) == OnWire(e) && Calls([e]) == CallsBy(e)
  {
  }

  lemma SendOnWire(p: Outgoing, w: nat)
    requires w <= p.Size()
    ensures Wire([SendEvent(p, w)]) == p.Bytes()[..w] && Calls([SendEvent(p, w)]) == []
  {
  }

  lemma ReadIsSilent(i: Input, es: seq<Event>)
    ensures Wire(ReadEvents(i) + es) == Wire(es) && Calls(ReadEvents(i) + es) == Calls(es)
  {
    if i.out.Packet? { OneEvent(Session.Received(i.out.kind, i.buf)); }
    WireConcat(ReadEvents(i), es);
    CallsConcat(ReadEvents(i), es);
  }

  // ---- calls ----

  lemma {:induction false} CallEachIs(hs: seq<Handler>, m: PublishOut)
    ensures |CallEach(hs, m)| == |hs|
    ensures forall k :: 0 <= k < |hs| ==> CallEach(hs, m)[k] == HandlerCall(hs[k], m)
  {
    if hs != [] { CallEachIs(hs[..|hs| - 1], m); }
  }

  predicate NoDelivery(es: seq<Event>) {
    forall k :: 0 <= k < |es| ==> !es[k].Delivered?
  }

  lemma {:induction false} NoCalls(es: seq<Event>)
    requires NoDelivery(es)
    ensures Calls(es) == []
  {
    if es != [] { NoCalls(es[..|es| - 1]); }
  }

  /** A whole PUBLISH was read, and it is not one of QoS 2 whose id is held already or has no place. */
  predicate Accepts(s: State, i: Input) {
    && i.out == Packet(PUBLISH) && DecodePublish(i.buf, Unset(i.garbage)).0 == 1
    && var m := DecodePublish(i.buf, Unset(i.garbage)).1;
       m.qos == 2 ==> m.id !in s.table && 0 in s.table
  }

  /** Each of these handlers is called with the message, in order. */
  predicate CallsAll(calls: seq<HandlerCall>, hs: seq<Handler>, m: PublishOut) {
    |calls| == |hs| && forall k :: 0 <= k < |hs| ==> calls[k].handler == hs[k] && calls[k].msg == m
  }

  lemma AcceptCalls(s: State, m: PublishOut)
    ensures if m.qos == 2 && !(m.id !in s.table && 0 in s.table) then NoDelivery(Accept(s, m).1)
            else CallsAll(Calls(Accept(s, m).1), Deliver(s.slots, s.default, m.topic), m)
  {
    OneEvent(Session.Call(s, m));
    CallEachIs(Deliver(s.slots, s.default, m.topic), m);
  }

  lemma AcknowledgeCalls(s: State, m: PublishOut, i: Input)
    ensures NoDelivery(Acknowledge(s, m, i).es)
  {
  }

  lemma MessageCalls(s: State, i: Input, code: int, m: PublishOut)
    ensures var es := OnMessage(s, code, m, i).es;
      if code == 1 && (m.qos == 2 ==> m.id !in s.table && 0 in s.table)
      then CallsAll(Calls(es), Deliver(s.slots, s.default, m.topic), m) else Calls(es) == []
  {
    if code == 1 {
      var (s', es) := Accept(s, m);
      AcceptCalls(s, m);
      AcknowledgeCalls(s', m, i);
      NoCalls(Acknowledge(s', m, i).es);
      CallsConcat(es, Acknowledge(s', m, i).es);
      if NoDelivery(es) { NoCalls(es); }
    }
  }

  lemma OtherCalls(s: State, i: Input)
    requires i.Type() != PUBLISH
    ensures NoDelivery(OnPacket(s, i).es)
  {
    if i.Type() == PUBREC || i.Type() == PUBREL { ReleaseCalls(s, i.Type(), i); }
  }

  lemma ReleaseCalls(s: State, kind: nat, i: Input)
    ensures NoDelivery(OnRelease(s, kind, i).es)
  {
  }

  lemma FinishSilent(p: Part, kind: int)
    ensures Wire(Finish(p, kind).es) == Wire(p.es) && Calls(Finish(p, kind).es) == Calls(p.es)
  {
    OneEvent(Closed(p.s.clean));
    WireConcat(p.es, [Closed(p.s.clean)]);
    CallsConcat(p.es, [Closed(p.s.clean)]);
  }

  lemma KeepAliveCalls(a: Alive, i: Input)
    ensures NoDelivery(Session.KeepAlive(a, i).1)
  {
  }

  lemma EndCalls(p: Part, i: Input)
    ensures Calls(Finish(WithKeepAlive(p, i), i.Type()).es) == Calls(p.es)
  {
    hide Session.KeepAlive;
    var es := Session.KeepAlive(p.s.alive, i).1;
    KeepAliveCalls(p.s.alive, i);
    NoCalls(es);
    CallsConcat(p.es, es);
    FinishSilent(WithKeepAlive(p, i), i.Type());
  }

  lemma PacketCalls(s: State, i: Input)
    requires i.out.NoHeader? ==> i.out.rc <= 0
    ensures var calls := Calls(OnPacket(s, i).es);
      if Accepts(s, i)
      then CallsAll(calls, Deliver(s.slots, s.default, i.Msg().topic), DecodePublish(i.buf, Unset(i.garbage)).1)
      else calls == []
  {
    hide Session.OnMessage, MessageHandlers.Deliver, CallsAll;
    if i.Type() == PUBLISH {
      MessageCalls(s, i, DecodePublish(i.buf, Unset(i.garbage)).0, i.Msg());
    } else {
      OtherCalls(s, i);
      NoCalls(OnPacket(s, i).es);
    }
  }

  /** A cycle that accepts a message calls the handlers for its topic with it, each once and in order; any other cycle
      calls nobody. */
  lemma CycleCalls(s: State, i: Input)
    requires i.out.NoHeader? ==> i.out.rc <= 0
    ensures var calls := Calls(Cycle(s, i).es);
      if Accepts(s, i)
      then CallsAll(calls, Deliver(s.slots, s.default, i.Msg().topic), DecodePublish(i.buf, Unset(i.garbage)).1)
      else calls == []
  {
    hide Session.OnPacket;
    PacketCalls(Read(s, i), i);
    ReadIsSilent(i, OnPacket(Read(s, i), i).es);
    EndCalls(Handled(s, i), i);
  }

  /** So a message of QoS 0 or 1, and one of QoS 2 with a new id and a place for it, reaches every handler whose filter
      matches, as it was sent. */
  lemma MessageReachesHandlers(s: State, i: Input, p: Publish)
    requires AckOrder.Carries(i, AckOrder.Publishing(p)) && p.Legal() && p.qos <= 2
    requires p.qos == 2 ==> p.id !in s.table && 0 in s.table
    ensures CallsAll(Calls(Cycle(s, i).es), Deliver(s.slots, s.default, p.topic), p.Decoded(Unset(i.garbage)))
  {
    PublishRoundTrip(p, i.buf, Unset(i.garbage));
    CycleCalls(s, i);
  }

  // ---- the wire ----

  predicate Sendless(es: seq<Event>) {
    forall k :: 0 <= k < |es| ==> !es[k].Sent? && !es[k].Cut?
  }

  lemma {:induction false} NothingOnWire(es: seq<Event>)
    requires Sendless(es)
    ensures Wire(es) == []
  {
    if es != [] { NothingOnWire(es[..|es| - 1]); }
  }

  /** The first byte of the acknowledgement that answers a packet. */
  function AnswerHead(i: Input): byte {
    if i.Type() == PUBLISH then (if i.Msg().qos == 1 then 64 else 80) else if i.Type() == PUBREC then 98 else 112
  }

  function AnswerId(i: Input): ushort {
    if i.Type() == PUBLISH then i.Msg().id else i.AckId()
  }

  /** The four bytes that answer a packet. */
  function AnswerBytes(head: byte, id: ushort): seq<byte> {
    [head, 2, id / 256, id % 256]
  }

  lemma AckBytes(kind: nat, id: ushort)
    requires PUBACK <= kind <= PUBCOMP
    ensures EncodeAck(kind, 0, id) == AnswerBytes(16 * kind + (if kind == PUBREL then 2 else 0), id)
  {
    var qos := if kind == PUBREL then 1 else 0;
    HeaderIs(kind, 0, qos, 0);
    AckFrameBytes(Header(kind, 0, qos, 0), EncodeInt(id), id);
    assert EncodeAck(kind, 0, id) == Frame(Header(kind, 0, qos, 0), EncodeInt(id));
  }

  lemma AckFrameBytes(h: byte, body: seq<byte>, id: ushort)
    requires body == EncodeInt(id)
    ensures Frame(h, body) == AnswerBytes(h, id)
  {
    ShortFrame(h, body);
  }

  lemma AnswerWire(s: State, kind: nat, id: ushort, i: Input)
    requires PUBACK <= kind <= PUBCOMP && i.ackW <= 4
    ensures var head := 16 * kind + (if kind == PUBREL then 2 else 0);
      Wire(Answer(s, kind, id, i).es) == AnswerBytes(head, id)[..i.ackW]
  {
    AckBytes(kind, id);
    SendOnWire(Ack(kind, id), i.ackW);
  }

  lemma AcceptWire(s: State, m: PublishOut)
    ensures Wire(Accept(s, m).1) == []
  {
    NothingOnWire(Accept(s, m).1);
  }

  lemma MessageWire(s: State, i: Input, code: int, m: PublishOut)
    requires i.ackW <= 4
    ensures Wire(OnMessage(s, code, m, i).es) ==
      if code == 1 && 1 <= m.qos <= 2 then AnswerBytes(if m.qos == 1 then 64 else 80, m.id)[..i.ackW] else []
  {
    if code == 1 {
      var (s', es) := Accept(s, m);
      AcceptWire(s, m);
      if m.qos == 1 { AnswerWire(s', PUBACK, m.id, i); } else if m.qos == 2 { AnswerWire(s', PUBREC, m.id, i); }
      WireConcat(es, Acknowledge(s', m, i).es);
    }
  }

  lemma ReleaseWire(s: State, i: Input, kind: nat)
    requires i.ackW <= 4 && (kind == PUBREC || kind == PUBREL)
    ensures Wire(OnRelease(s, kind, i).es) ==
      if DecodeAck(i.buf, AckOut(0, 0, i.garbage)).0 == 1
      then AnswerBytes(if kind == PUBREC then 98 else 112, i.AckId())[..i.ackW] else []
  {
    AnswerWire(s, if kind == PUBREC then PUBREL else PUBCOMP, i.AckId(), i);
  }

  lemma PacketWire(s: State, i: Input)
    requires i.ackW <= 4
    ensures Wire(OnPacket(s, i).es) == if Replies(i) then AnswerBytes(AnswerHead(i), AnswerId(i))[..i.ackW] else []
  {
    hide Session.OnMessage, Session.OnId, AnswerBytes;
    if i.Type() == PUBLISH { MessageWire(s, i, DecodePublish(i.buf, Unset(i.garbage)).0, i.Msg()); }
    else if i.Type() == PUBREC || i.Type() == PUBREL { ReleaseWire(s, i, i.Type()); }
  }

  /** The keepalive check sends a PINGREQ. */
  predicate Pings(p: Part, i: Input) {
    var a := p.s.alive;
    !p.stop && a.interval > 0 && !a.ping && (i.sentLook >= a.lastSent || i.receivedLook >= a.lastReceived)
  }

  lemma PingBytes(w: nat)
    requires w <= 2
    ensures Wire([SendEvent(Ping, w)]) == [192, 0][..w]
  {
    HeaderIs(PINGREQ, 0, 0, 0);
    SendOnWire(Ping, w);
  }

  lemma KeepAliveWire(a: Alive, i: Input)
    requires i.pingW <= 2
    ensures Wire(Session.KeepAlive(a, i).1) ==
      if a.interval > 0 && !a.ping && (i.sentLook >= a.lastSent || i.receivedLook >= a.lastReceived)
      then [192, 0][..i.pingW] else []
  {
    PingBytes(i.pingW);
  }

  lemma EndWire(p: Part, i: Input)
    requires i.pingW <= 2
    ensures Wire(Finish(WithKeepAlive(p, i), i.Type()).es)
         == Wire(p.es) + if Pings(p, i) then [192, 0][..i.pingW] else []
  {
    hide Session.KeepAlive;
    KeepAliveWire(p.s.alive, i);
    WireConcat(p.es, Session.KeepAlive(p.s.alive, i).1);
    FinishSilent(WithKeepAlive(p, i), i.Type());
  }

  /** As much of the answer to a packet as went out. */
  function ReplyPart(i: Input): seq<byte> {
    if Replies(i) && i.ackW <= 4 then AnswerBytes(AnswerHead(i), AnswerId(i))[..i.ackW] else []
  }

  /** As much of a PINGREQ as went out. */
  function PingPart(s: State, i: Input): seq<byte> {
    if Pings(OnPacket(Read(s, i), i), i) && i.pingW <= 2 then [192, 0][..i.pingW] else []
  }

  /** The bytes of a cycle: those of the acknowledgement and of the PINGREQ, as many as went out. */
  lemma CycleWire(s: State, i: Input)
    requires i.ackW <= 4 && i.pingW <= 2
    ensures Wire(Cycle(s, i).es) == ReplyPart(i) + PingPart(s, i)
  {
    hide Session.OnPacket, AnswerBytes;
    PacketWire(Read(s, i), i);
    ReadIsSilent(i, OnPacket(Read(s, i), i).es);
    EndWire(Handled(s, i), i);
  }

  // ---- an idle client ----

  lemma IdleCheckPings(a: Alive, e: Env, i: Input, e': Env) returns (t: Time)
    requires CheckMet(a, e, i, e') && a.interval > 0 && !a.ping
    requires e.time.now >= a.lastSent || e.time.now >= a.lastReceived
    ensures Later(e, e.(time := t)) && PingMet(e.(time := t), i, e')
    ensures i.sentLook >= a.lastSent || i.receivedLook >= a.lastReceived
  {
    var t1 := Look(e.time, a.lastSent).1;
    LookIsLater(e, a.lastSent);
    t := t1;
    if t1.now < a.lastSent {
      t := Look(t1, a.lastReceived).1;
      LookIsLater(e.(time := t1), a.lastReceived);
      LaterChain(e, e.(time := t1), e.(time := t));
    }
  }

  lemma IdleCycle(s: State, i: Input)
    requires i.out == NoHeader(0) && s.alive.interval > 0 && !s.alive.ping
    requires i.sentLook >= s.alive.lastSent || i.receivedLook >= s.alive.lastReceived
    ensures Cycle(s, i).es != [] && Cycle(s, i).es[0] == SendEvent(Ping, i.pingW)
    ensures i.pingW >= 2 ==>
      var a := Cycle(s, i).s.alive; a.ping && a.pingSent == i.pingAt + Seconds(s.alive.interval)
  {
  }

  /** When nothing was sent, or nothing received, for a keepalive interval, a cycle that finds nothing to read sends a
      PINGREQ: of its two bytes 192 and 0 as many as network and clock let through in a second. */
  lemma IdleClientPings(s: State, e: Env, until: int, i: Input, e': Env) returns (t: Time)
    requires CycleMet(s, e, until, i, e') && i.out == NoHeader(0)
    requires s.alive.interval > 0 && !s.alive.ping
    requires e.time.now >= s.alive.lastSent || e.time.now >= s.alive.lastReceived
    ensures Later(e, e.(time := t)) && SendMet(e.(time := t), 2, t.now + 1000, i.pingW, i.pingAt, e')
    ensures Cycle(s, i).es != [] && Cycle(s, i).es[0] == SendEvent(Ping, i.pingW)
    ensures Wire(Cycle(s, i).es) == [192, 0][..i.pingW]
    ensures i.pingW >= 2 ==>
      var a := Cycle(s, i).s.alive; a.ping && a.pingSent == i.pingAt + Seconds(s.alive.interval)
  {
    IdleMet(s, e, until, i, e');
    t := IdleCheckPings(s.alive, e, i, e');
    IdleCycle(s, i);
    IdleWire(s, i);
  }

  lemma IdleWire(s: State, i: Input)
    requires i.out == NoHeader(0) && s.alive.interval > 0 && !s.alive.ping && i.pingW <= 2
    requires i.sentLook >= s.alive.lastSent || i.receivedLook >= s.alive.lastReceived
    ensures Wire(Cycle(s, i).es) == [192, 0][..i.pingW]
  {
    assert OnPacket(Read(s, i), i) == Part(Read(s, i), [], SUCCESS, false);
    EndWire(Handled(s, i), i);
  }

  lemma IdleMet(s: State, e: Env, until: int, i: Input, e': Env)
    requires CycleMet(s, e, until, i, e') && i.out == NoHeader(0)
    ensures CheckMet(s.alive, e, i, e')
  {
    assert OnPacket(Read(s, i), i) == Part(Read(s, i), [], SUCCESS, false);
  }

  // ---- return codes ----

  /** A PUBLISH that does not read well: the cycle ends there, without a keepalive check, and returns its type. */
  predicate Unreadable(i: Input) {
    i.Type() == PUBLISH && DecodePublish(i.buf, Unset(i.garbage)).0 != 1
  }

  /** Handling the packet fails: a message of QoS 3, an acknowledgement that does not read well, or an answer that does
      not go out whole. */
  predicate Fails(i: Input) {
    || (i.Type() == PUBLISH && DecodePublish(i.buf, Unset(i.garbage)).0 == 1 && i.Msg().qos > 2)
    || ((i.Type() == PUBREC || i.Type() == PUBREL) && DecodeAck(i.buf, AckOut(0, 0, i.garbage)).0 != 1)
    || (Replies(i) && i.ackW < 4)
  }

  /** The keepalive check would fail. */
  predicate Loses(s: State, i: Input) {
    var a := OnPacket(Read(s, i), i).s.alive;
    a.interval > 0 && Overdue(a, i)
  }

  /** The return code of a cycle. */
  function Returns(i: Input, lost: bool): int {
    if !Expected(i.Type()) || Unreadable(i) then i.Type()
    else if Fails(i) || lost then FAILURE
    else i.Type()
  }

  lemma MessageCode(s: State, code: int, m: PublishOut, i: Input)
    ensures var p := OnMessage(s, code, m, i);
      && p.stop == (code != 1 || m.qos > 2 || (1 <= m.qos && i.ackW < 4))
      && p.rc == if code == 1 && p.stop then FAILURE else SUCCESS
  {
  }

  lemma IdCode(s: State, kind: nat, code: int, id: ushort, i: Input)
    ensures var p := OnId(s, kind, code, id, i);
      p.stop == (code != 1 || i.ackW < 4) && p.rc == if p.stop then FAILURE else SUCCESS
  {
  }

  lemma PacketCode(s: State, i: Input)
    ensures var p := OnPacket(s, i);
      && p.stop == (!Expected(i.Type()) || Unreadable(i) || Fails(i))
      && p.rc == if !Expected(i.Type()) then i.Type() else if Fails(i) && !Unreadable(i) then FAILURE else SUCCESS
  {
    hide Session.OnMessage, Session.OnId;
    if i.Type() == PUBLISH { MessageCode(s, DecodePublish(i.buf, Unset(i.garbage)).0, i.Msg(), i); }
    else if i.Type() == PUBREC || i.Type() == PUBREL {
      IdCode(s, i.Type(), DecodeAck(i.buf, AckOut(0, 0, i.garbage)).0, i.AckId(), i);
    }
  }

  /** What a cycle returns: the type of what was read, unless handling it fails or a ping is overdue; and it gets to its
      keepalive check unless handling the packet ends it before. */
  lemma CycleReturns(s: State, i: Input)
    ensures Checks(s, i) == (Expected(i.Type()) && !Unreadable(i) && !Fails(i))
    ensures Cycle(s, i).rc == Returns(i, Loses(s, i))
  {
    hide Session.OnPacket, Unreadable, Fails;
    PacketCode(Read(s, i), i);
    EndCode(Handled(s, i), i);
  }

  lemma EndCode(p: Part, i: Input)
    ensures Finish(WithKeepAlive(p, i), i.Type()).rc ==
      var rc := if !p.stop && p.s.alive.interval > 0 && Overdue(p.s.alive, i) then FAILURE else p.rc;
      if rc == SUCCESS then i.Type() else rc
  {
  }
}
