/** When the two keepalive timers run out: one keepalive interval, in milliseconds, after the last packet that was read
    and after the last one that went out whole. */
module PingTimers {
  import opened Bytes
  import opened FixedHeader
  import opened PublishCodec
  import opened PacketReader
  import opened Session
  import opened InflightRetention
  import opened KeepAliveRuns
  import opened Timing
  import opened Effects

  /** A time, and the keepalive interval in force at it. */
  datatype Mark = Never | Mark(at: int, interval: nat)
  {
    /** One interval later; without a mark, what it was before. */
    function Due(before: int): int {
      if Never? then before else at + 1000 * interval
    }
  }

  function MarkIf(happened: bool, at: int, interval: nat, before: Mark): Mark {
    if happened && interval > 0 then Mark(at, interval) else before
  }

  /** A packet was read, or `connect` started the timer, with keepalive on. */
  function ReceivedIn(s: State, op: Op, before: Mark): Mark {
    match op
    case Cycling(i) => MarkIf(i.out.Packet?, i.readAt, s.alive.interval, before)
    case StartReceived(at) => MarkIf(true, at, s.alive.interval, before)
    case _ => before
  }

  /** A packet went out whole, with keepalive on. */
  function SentIn(s: State, op: Op, before: Mark): Mark {
    match op
    case Cycling(i) => CycleSent(s, i, before)
    case Sending(packet, w, at) => MarkIf(w >= |packet|, at, s.alive.interval, before)
    case Resending(w, at) => MarkIf(w >= |Kept(s.inflight)|, at, s.alive.interval, before)
    case _ => before
  }

  /** When that last happened. */
  function LastReceived(s: State, ops: seq<Op>): Mark {
    if ops == [] then Never
    else
      var n := |ops| - 1;
      ReceivedIn(StateAt(s, ops, n), ops[n], LastReceived(s, ops[..n]))
  }

  function LastSent(s: State, ops: seq<Op>): Mark {
    if ops == [] then Never
    else
      var n := |ops| - 1;
      SentIn(StateAt(s, ops, n), ops[n], LastSent(s, ops[..n]))
  }

  /** In a cycle the acknowledgement goes out before the PINGREQ. */
  function CycleSent(s: State, i: Input, before: Mark): Mark {
    MarkIf(PingsIn(s, i) && i.pingW >= 2, i.pingAt, s.alive.interval, AckSent(s, i, before))
  }

  function AckSent(s: State, i: Input, before: Mark): Mark {
    MarkIf(Replies(i) && i.ackW >= 4, i.ackAt, s.alive.interval, before)
  }

  /** A PINGREQ is handed to `sendPacket` in this cycle. */
  predicate PingsIn(s: State, i: Input) {
    Tries(Cycle(s, i).es)
  }

  // ---- one cycle ----

  lemma PacketTimers(s: State, i: Input)
    requires i.out.NoHeader? ==> i.out.rc <= 0
    ensures var a := OnPacket(s, i).s.alive;
      && a.interval == s.alive.interval && a.lastReceived == s.alive.lastReceived
      && a.lastSent == AckSent(s, i, Never).Due(s.alive.lastSent)
  {
    hide Session.OnMessage, Session.OnId;
    if i.Type() == PUBLISH { MessageTimers(s, DecodePublish(i.buf, Unset(i.garbage)).0, i.Msg(), i); }
    else if i.Type() == PUBREC || i.Type() == PUBREL {
      IdTimers(s, i.Type(), DecodeAck(i.buf, AckOut(0, 0, i.garbage)).0, i.AckId(), i);
    }
  }

  /** The send timer after an acknowledgement, if there is one. */
  function AfterReply(a: Alive, replies: bool, i: Input): int {
    if replies && i.ackW >= 4 && a.interval > 0 then i.ackAt + 1000 * a.interval else a.lastSent
  }

  lemma MessageTimers(s: State, code: int, m: PublishOut, i: Input)
    ensures var a := OnMessage(s, code, m, i).s.alive;
      && a.interval == s.alive.interval && a.lastReceived == s.alive.lastReceived
      && a.lastSent == AfterReply(s.alive, code == 1 && 1 <= m.qos <= 2, i)
  {
  }

  lemma IdTimers(s: State, kind: nat, code: int, id: ushort, i: Input)
    ensures var a := OnId(s, kind, code, id, i).s.alive;
      && a.interval == s.alive.interval && a.lastReceived == s.alive.lastReceived
      && a.lastSent == AfterReply(s.alive, code == 1, i)
  {
  }

  lemma CheckTimers(p: Part, i: Input)
    ensures var a := Finish(WithKeepAlive(p, i), i.Type()).s.alive;
      && a.interval == p.s.alive.interval && a.lastReceived == p.s.alive.lastReceived
      && a.lastSent == if Pings(p, i) && i.pingW >= 2 then i.pingAt + 1000 * a.interval else p.s.alive.lastSent
  {
  }

  /** After a cycle each of the two timers runs out one interval after the last packet of the cycle, if it had one. */
  lemma CycleTimers(s: State, i: Input)
    requires i.out.NoHeader? ==> i.out.rc <= 0
    ensures var a := Cycle(s, i).s.alive;
      && a.interval == s.alive.interval
      && a.lastReceived == (if i.out.Packet? && a.interval > 0 then i.readAt + 1000 * a.interval
                            else s.alive.lastReceived)
      && a.lastSent == CycleSent(s, i, Never).Due(s.alive.lastSent)
  {
    hide Session.OnPacket;
    PacketTimers(Read(s, i), i);
    CheckTimers(Handled(s, i), i);
    PingsExactly(s, i);
  }

  lemma PingsExactly(s: State, i: Input)
    ensures PingsIn(s, i) <==> Pings(OnPacket(Read(s, i), i), i)
  {
    var p := OnPacket(Read(s, i), i);
    PacketTriesNoPing(Read(s, i), i);
    CheckTries(Handled(s, i), i);
  }

  predicate Tries(es: seq<Event>) {
    exists e :: e in es && (e.Sent? || e.Cut?) && e.p == Ping
  }

  lemma PacketTriesNoPing(s: State, i: Input)
    ensures !Tries(OnPacket(s, i).es)
  {
    hide Session.OnMessage, Session.OnId;
    if i.Type() == PUBLISH { MessageTriesNoPing(s, DecodePublish(i.buf, Unset(i.garbage)).0, i.Msg(), i); }
    else if i.Type() == PUBREC || i.Type() == PUBREL {
      IdTriesNoPing(s, i.Type(), DecodeAck(i.buf, AckOut(0, 0, i.garbage)).0, i.AckId(), i);
    }
  }

  lemma MessageTriesNoPing(s: State, code: int, m: PublishOut, i: Input)
    ensures !Tries(OnMessage(s, code, m, i).es)
  {
  }

  lemma IdTriesNoPing(s: State, kind: nat, code: int, id: ushort, i: Input)
    ensures !Tries(OnId(s, kind, code, id, i).es)
  {
  }

  lemma CheckTries(p: Part, i: Input)
    requires !Tries(p.es)
    ensures Tries(Finish(WithKeepAlive(p, i), i.Type()).es) <==> Pings(p, i)
  {
    var q := WithKeepAlive(p, i);
    if Pings(p, i) {
      var e := SendEvent(Ping, i.pingW);
      assert q.es == p.es + [e];
      assert e in Finish(q, i.Type()).es;
    }
  }

  // ---- every run ----

  lemma StepTimers(s: State, op: Op, sent: Mark, received: Mark, a0: Alive)
    requires Enabled(s, op)
    requires s.alive.lastSent == sent.Due(a0.lastSent) && s.alive.lastReceived == received.Due(a0.lastReceived)
    ensures Next(s, op).alive.lastSent == SentIn(s, op, sent).Due(a0.lastSent)
    ensures Next(s, op).alive.lastReceived == ReceivedIn(s, op, received).Due(a0.lastReceived)
  {
    if op.Cycling? { CycleTimers(s, op.input); }
  }

  /** In every run each timer runs out one interval after what it watches last happened. */
  lemma {:induction false} TimersFollow(s: State, ops: seq<Op>)
    requires Run(s, ops).Some?
    ensures var a := Run(s, ops).value.0.alive;
      && a.lastSent == LastSent(s, ops).Due(s.alive.lastSent)
      && a.lastReceived == LastReceived(s, ops).Due(s.alive.lastReceived)
  {
    if ops != [] {
      var n := |ops| - 1;
      TimersFollow(s, ops[..n]);
      StepTimers(StateAt(s, ops, n), ops[n], LastSent(s, ops[..n]), LastReceived(s, ops[..n]), s.alive);
    }
  }

  /** In every run a cycle sends a PINGREQ exactly when it gets to its keepalive check with keepalive on and none
      outstanding, and one of its looks comes an interval or more after the last whole send, or the last packet that
      was read, those of this cycle included. */
  lemma PingsWhenDue(s: State, ops: seq<Op>, i: Input)
    requires Run(s, ops).Some? && Enabled(Run(s, ops).value.0, Cycling(i))
    ensures var b := Run(s, ops).value.0;
      var sent, received := AckSent(b, i, LastSent(s, ops)), ReceivedIn(b, Cycling(i), LastReceived(s, ops));
      PingsIn(b, i) <==>
        && Checks(b, i) && b.alive.interval > 0 && !OnPacket(Read(b, i), i).s.alive.ping
        && (i.sentLook >= sent.Due(s.alive.lastSent) || i.receivedLook >= received.Due(s.alive.lastReceived))
  {
    var b := Run(s, ops).value.0;
    TimersFollow(s, ops);
    PacketTimers(Read(b, i), i);
    PingsExactly(b, i);
  }

  /** So none goes out too soon. */
  lemma NoPingTooSoon(s: State, ops: seq<Op>, i: Input, sent: Mark, received: Mark)
    requires Run(s, ops).Some? && Enabled(Run(s, ops).value.0, Cycling(i))
    requires sent == AckSent(Run(s, ops).value.0, i, LastSent(s, ops)) && sent.Mark?
    requires received == ReceivedIn(Run(s, ops).value.0, Cycling(i), LastReceived(s, ops)) && received.Mark?
    requires i.sentLook < sent.at + 1000 * sent.interval && i.receivedLook < received.at + 1000 * received.interval
    ensures !PingsIn(Run(s, ops).value.0, i)
  {
    PingsWhenDue(s, ops, i);
  }
}
