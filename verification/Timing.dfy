/** What the steps of a client have to do with the clock and with the answers to its writes: the times and the counts
    that a step records are those that it met, and time goes on from step to step. */
module Timing {
  import opened Bytes
  import opened FixedHeader
  import opened PublishCodec
  import opened MessageHandlers
  import opened PacketReader
  import opened Transport
  import opened Session
  import opened InflightRetention
  import opened KeepAliveRuns

  // ---- one cycle ----

  /** The packet that was read is answered. */
  predicate Replies(i: Input) {
    if i.Type() == PUBLISH then DecodePublish(i.buf, Unset(i.garbage)).0 == 1 && 1 <= i.Msg().qos <= 2
    else (i.Type() == PUBREC || i.Type() == PUBREL) && DecodeAck(i.buf, AckOut(0, 0, i.garbage)).0 == 1
  }

  /** A send of `n` bytes until `deadline` let `w` of them through and ended at `at`. */
  predicate SendMet(e: Env, n: nat, deadline: int, w: nat, at: int, e': Env) {
    Push(e, n, deadline) == (w, e') && at == e'.time.now
  }

  predicate AckMet(replies: bool, e: Env, until: int, i: Input, e': Env) {
    if replies then SendMet(e, 4, until, i.ackW, i.ackAt, e') else e' == e
  }

  function AfterAck(replies: bool, e: Env, until: int): Env {
    if replies then Push(e, 4, until).1 else e
  }

  /** The looks and the PINGREQ of `keepalive`, which has one second for it. */
  predicate CheckMet(a: Alive, e: Env, i: Input, e': Env) {
    if a.interval == 0 then e' == e
    else if a.ping then
      var (_, t) := Look(e.time, a.pingSent);
      i.pingLook == t.now && e' == e.(time := t)
    else
      var (due, t) := Look(e.time, a.lastSent);
      i.sentLook == t.now &&
      if due then PingMet(e.(time := t), i, e') else SecondLookMet(a, e.(time := t), i, e')
  }

  predicate SecondLookMet(a: Alive, e: Env, i: Input, e': Env) {
    var (due, t) := Look(e.time, a.lastReceived);
    i.receivedLook == t.now &&
    if due then PingMet(e.(time := t), i, e') else e' == e.(time := t)
  }

  predicate PingMet(e: Env, i: Input, e': Env) {
    SendMet(e, 2, e.time.now + 1000, i.pingW, i.pingAt, e')
  }

  /** A cycle that has until `until` to answer met this. */
  predicate CycleMet(s: State, e: Env, until: int, i: Input, e': Env) {
    var p := OnPacket(Read(s, i), i);
    var between := AfterAck(Replies(i), e, until);
    && i.readAt == e.time.now && AckMet(Replies(i), e, until, i, between)
    && if p.stop then e' == between else CheckMet(p.s.alive, between, i, e')
  }

  // ---- a history ----

  /** Around one step: before it, how long it had, and after it. */
  datatype Moment = Moment(before: Env, until: int, after: Env)

  predicate StepMet(s: State, m: Moment, op: Op) {
    match op
    case Cycling(i) => CycleMet(s, m.before, m.until, i, m.after)
    case Sending(packet, w, at) => SendMet(m.before, |packet|, m.until, w, at, m.after)
    case Resending(w, at) => SendMet(m.before, |Kept(s.inflight)|, m.until, w, at, m.after)
    case StartReceived(at) => at == m.before.time.now && m.after == m.before
    case _ => m.after == m.before
  }

  /** Each step of the history met what was there, one after the other, from `e0` on, and now there is `e`. */
  predicate Lived(s: State, e0: Env, ops: seq<Op>, ms: seq<Moment>, e: Env)
    requires |ops| == |ms|
  {
    if ops == [] then Later(e0, e)
    else
      var n := |ops| - 1;
      && Lived(s, e0, ops[..n], ms[..n], ms[n].before)
      && Run(s, ops[..n]).Some? && StepMet(Run(s, ops[..n]).value.0, ms[n], ops[n])
      && Later(ms[n].after, e)
  }

  lemma LivedExtends(s: State, e0: Env, ops: seq<Op>, ms: seq<Moment>, op: Op, m: Moment, e: Env)
    requires |ops| == |ms| && Lived(s, e0, ops, ms, m.before) && Run(s, ops).Some?
    requires StepMet(Run(s, ops).value.0, m, op) && m.after == e
    ensures Lived(s, e0, ops + [op], ms + [m], e)
  {
    assert (ops + [op])[..|ops|] == ops && (ms + [m])[..|ms|] == ms;
  }

  lemma LivedOn(s: State, e0: Env, ops: seq<Op>, ms: seq<Moment>, e: Env, e': Env)
    requires |ops| == |ms| && Lived(s, e0, ops, ms, e) && Later(e, e')
    ensures Lived(s, e0, ops, ms, e')
  {
    if ops == [] { LaterChain(e0, e, e'); } else { LaterChain(ms[|ms| - 1].after, e, e'); }
  }

  // ---- a wait ----

  /** The clock after the last of these cycles; before any it is `t0`. */
  function EndOf(t0: Time, ms: seq<Moment>): Time {
    if ms == [] then t0 else ms[|ms| - 1].after.time
  }

  /** One look at the timer before each cycle, which came out early. */
  predicate Paced(t0: Time, ms: seq<Moment>, until: int) {
    ms == [] ||
    var n := |ms| - 1;
    && Paced(t0, ms[..n], until) && ms[n].until == until
    && Look(EndOf(t0, ms[..n]), until) == (false, ms[n].before.time)
  }

  /** And after the last one either the wait was over, or one more look came out late. */
  predicate Waited(t0: Time, ms: seq<Moment>, until: int, over: bool, t: Time) {
    Paced(t0, ms, until) && if over then t == EndOf(t0, ms) else Look(EndOf(t0, ms), until) == (true, t)
  }

  lemma PacedOn(t0: Time, ms: seq<Moment>, until: int, m: Moment)
    requires Paced(t0, ms, until) && m.until == until && Look(EndOf(t0, ms), until) == (false, m.before.time)
    ensures Paced(t0, ms + [m], until) && EndOf(t0, ms + [m]) == m.after.time
  {
    assert (ms + [m])[..|ms|] == ms;
  }

  /** A wait that is not over has lasted to its end, and one that begins in time makes a cycle. */
  lemma WaitedOut(t0: Time, ms: seq<Moment>, until: int, over: bool, t: Time)
    requires Waited(t0, ms, until, over, t)
    ensures !over ==> t.now >= until
    ensures !over && !Look(t0, until).0 ==> ms != []
  {
  }

  // ---- time goes on ----

  lemma LaterSelf(e: Env)
    ensures Later(e, e)
  {
  }

  lemma SendLater(e: Env, n: nat, deadline: int, w: nat, at: int, e': Env)
    requires SendMet(e, n, deadline, w, at, e')
    ensures Later(e, e') && e.time.now <= at == e'.time.now
  {
    PushEnds(e, n, deadline);
  }

  lemma AckLater(i: Input, e: Env, until: int)
    ensures Later(e, AfterAck(Replies(i), e, until))
  {
    if Replies(i) { PushEnds(e, 4, until); } else { LaterSelf(e); }
  }

  lemma PingLater(e: Env, t: Time, i: Input, e': Env)
    requires Later(e, e.(time := t)) && PingMet(e.(time := t), i, e')
    ensures Later(e, e') && t.now <= i.pingAt == e'.time.now
  {
    PushEnds(e.(time := t), 2, t.now + 1000);
    LaterChain(e, e.(time := t), e');
  }

  lemma CheckLater(a: Alive, e: Env, i: Input, e': Env)
    requires CheckMet(a, e, i, e')
    ensures Later(e, e')
    ensures a.interval > 0 && a.ping ==> e.time.now <= i.pingLook <= e'.time.now
    ensures a.interval > 0 && !a.ping ==> e.time.now <= i.sentLook <= e'.time.now
  {
    LaterSelf(e);
    if a.interval > 0 {
      if a.ping {
        LookIsLater(e, a.pingSent);
      } else {
        var (due, t) := Look(e.time, a.lastSent);
        LookIsLater(e, a.lastSent);
        if due { PingLater(e, t, i, e'); } else { SecondLookLater(a, e, t, i, e'); }
      }
    }
  }

  lemma SecondLookLater(a: Alive, e: Env, t: Time, i: Input, e': Env)
    requires Later(e, e.(time := t)) && SecondLookMet(a, e.(time := t), i, e')
    ensures Later(e, e') && t.now <= i.receivedLook <= e'.time.now
  {
    var (due, t') := Look(t, a.lastReceived);
    LookIsLater(e.(time := t), a.lastReceived);
    if due { PingLater(e.(time := t), t', i, e'); }
    LaterChain(e, e.(time := t), e');
  }

  /** The times of a cycle lie in the cycle, one after the other. */
  lemma CycleInOrder(s: State, e: Env, until: int, i: Input, e': Env)
    requires CycleMet(s, e, until, i, e')
    ensures Later(e, e') && i.readAt == e.time.now && (Replies(i) ==> e.time.now <= i.ackAt <= e'.time.now)
    ensures var p := OnPacket(Read(s, i), i);
      !p.stop && p.s.alive.interval > 0 ==>
        e.time.now <= (if p.s.alive.ping then i.pingLook else i.sentLook) <= e'.time.now
  {
    var p, between := OnPacket(Read(s, i), i), AfterAck(Replies(i), e, until);
    AckLater(i, e, until);
    if !p.stop {
      CheckLater(p.s.alive, between, i, e');
      LaterChain(e, between, e');
    }
  }

  lemma StepLater(s: State, m: Moment, op: Op)
    requires StepMet(s, m, op)
    ensures Later(m.before, m.after)
  {
    match op
    case Cycling(i) => CycleInOrder(s, m.before, m.until, i, m.after);
    case Sending(packet, w, at) => SendLater(m.before, |packet|, m.until, w, at, m.after);
    case Resending(w, at) => SendLater(m.before, |Kept(s.inflight)|, m.until, w, at, m.after);
    case _ => LaterSelf(m.before);
  }

  /** Each step of a history met what was there at its time. */
  lemma {:induction false} LivedAt(s: State, e0: Env, ops: seq<Op>, ms: seq<Moment>, e: Env, k: nat)
    requires |ops| == |ms| && Lived(s, e0, ops, ms, e) && k < |ops|
    ensures StepMet(StateAt(s, ops, k), ms[k], ops[k])
    ensures Later(ms[k].before, ms[k].after) && Later(ms[k].after, e)
    decreases |ops|
  {
    var n := |ops| - 1;
    if k == n {
      StepLater(StateAt(s, ops, k), ms[k], ops[k]);
    } else {
      LivedAt(s, e0, ops[..n], ms[..n], ms[n].before, k);
      StateAtFront(s, ops, k);
      StepLater(StateAt(s, ops, n), ms[n], ops[n]);
      LaterChain(ms[k].after, ms[n].before, ms[n].after);
      LaterChain(ms[k].after, ms[n].after, e);
    }
  }

  // ---- what the clock decides ----

  /** When the deadline of an unanswered PINGREQ has passed, a cycle that gets to its keepalive check and reads no
      PINGRESP fails, and ends the session if there was one. */
  lemma OverdueByClock(s: State, e: Env, until: int, i: Input, e': Env)
    requires CycleMet(s, e, until, i, e') && Enabled(s, Cycling(i)) && Checks(s, i)
    requires s.alive.ping && s.alive.interval > 0 && e.time.now >= s.alive.pingSent
    requires i.out != Packet(PINGRESP) && i.Type() != FAILURE
    ensures var c := Cycle(s, i);
      && c.s.last == FAILURE && !c.s.connected
      && (s.connected ==> c.es != [] && c.es[|c.es| - 1].Closed?)
  {
    var between := AfterAck(Replies(i), e, until);
    AckLater(i, e, until);
    OnPacketAlive(Read(s, i), i);
    CheckLater(OnPacket(Read(s, i), i).s.alive, between, i, e');
    OverduePingFails(s, i);
  }

  // ---- when a PINGREQ went out ----

  lemma CheckPingAt(a: Alive, e: Env, i: Input, e': Env)
    requires CheckMet(a, e, i, e') && Sent(Ping) in Session.KeepAlive(a, i).1
    ensures i.pingAt == e'.time.now
  {
    LookIsLater(e, a.lastSent);
    LookIsLater(e.(time := Look(e.time, a.lastSent).1), a.lastReceived);
  }

  lemma OnlyCheckPings(s: State, i: Input)
    requires Sent(Ping) in Cycle(s, i).es
    ensures var p := OnPacket(Read(s, i), i); !p.stop && Sent(Ping) in Session.KeepAlive(p.s.alive, i).1
  {
    NoPingBefore(Read(s, i), i);
    PingInCheck(Handled(s, i), i);
  }

  lemma NoPingBefore(s: State, i: Input)
    ensures Sent(Ping) !in OnPacket(s, i).es
  {
    if i.Type() == PUBLISH { MessageSendsNoPing(s, DecodePublish(i.buf, Unset(i.garbage)).0, i.Msg(), i); }
  }

  lemma MessageSendsNoPing(s: State, code: int, m: PublishOut, i: Input)
    ensures Sent(Ping) !in OnMessage(s, code, m, i).es
  {
  }

  lemma PingInCheck(p: Part, i: Input)
    requires Sent(Ping) !in p.es && Sent(Ping) in Finish(WithKeepAlive(p, i), i.Type()).es
    ensures !p.stop && Sent(Ping) in Session.KeepAlive(p.s.alive, i).1
  {
  }

  /** A PINGREQ goes out last in its cycle. */
  lemma PingEndsCycle(s: State, e: Env, until: int, i: Input, e': Env)
    requires CycleMet(s, e, until, i, e') && Sent(Ping) in Cycle(s, i).es
    ensures i.pingAt == e'.time.now
  {
    OnlyCheckPings(s, i);
    CheckPingAt(OnPacket(Read(s, i), i).s.alive, AfterAck(Replies(i), e, until), i, e');
  }
}
