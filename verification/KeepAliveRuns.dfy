/** Keepalive over whole runs. */
module KeepAliveRuns {
  import opened Bytes
  import opened FixedHeader
  import opened PublishCodec
  import opened MessageHandlers
  import opened PacketReader
  import opened Transport
  import opened Session
  import opened InflightRetention

  /** What makes room for the next PINGREQ. */
  predicate Settles(e: Event) {
    (e.Received? && e.kind == PINGRESP) || e.Closed? || e == Opened
  }

  /** Whether a PINGREQ that went out is still unanswered. */
  function Waiting(b: bool, es: seq<Event>): bool {
    if es == [] then b
    else
      var e := es[|es| - 1];
      if e == Sent(Ping) then true else if Settles(e) then false else Waiting(b, es[..|es| - 1])
  }

  /** No PINGREQ goes out while one is unanswered. */
  predicate Spaced(b: bool, es: seq<Event>) {
    es != [] ==>
      && Spaced(b, es[..|es| - 1])
      && (es[|es| - 1] == Sent(Ping) ==> !Waiting(b, es[..|es| - 1]))
  }

  lemma {:induction false} Concat(b: bool, x: seq<Event>, y: seq<Event>)
    ensures Waiting(b, x + y) == Waiting(Waiting(b, x), y)
    ensures Spaced(b, x + y) <==> Spaced(b, x) && Spaced(Waiting(b, x), y)
  {
    if y == [] {
      assert x + y == x;
    } else {
      var front := y[..|y| - 1];
      Concat(b, x, front);
      assert (x + y)[..|x + y| - 1] == x + front;
      assert (x + y)[|x + y| - 1] == y[|y| - 1];
    }
  }

  ghost predicate Tracks(b: bool, es: seq<Event>, b': bool) {
    Spaced(b, es) && Waiting(b, es) == b'
  }

  lemma Chain(b: bool, x: seq<Event>, b': bool, y: seq<Event>, b'': bool)
    requires Tracks(b, x, b') && Tracks(b', y, b'')
    ensures Tracks(b, x + y, b'')
  {
    Concat(b, x, y);
  }

  lemma One(b: bool, e: Event)
    requires e == Sent(Ping) ==> !b
    ensures Tracks(b, [e], if e == Sent(Ping) then true else if Settles(e) then false else b)
  {
  }

  /** Events that have nothing to do with pings. */
  predicate Quiet(es: seq<Event>) {
    forall k :: 0 <= k < |es| ==> es[k] != Sent(Ping) && !Settles(es[k])
  }

  lemma {:induction false} QuietTracks(b: bool, es: seq<Event>)
    requires Quiet(es)
    ensures Tracks(b, es, b)
  {
    if es != [] { QuietTracks(b, es[..|es| - 1]); }
  }

  // ---- a cycle ----

  lemma OnPublishQuiet(s: State, i: Input)
    ensures Quiet(OnPublish(s, i).es) && OnPublish(s, i).s.alive.ping == s.alive.ping
  {
    AcknowledgeQuiet(Accept(s, i.Msg()).0, i.Msg(), i);
  }

  lemma AcknowledgeQuiet(s: State, m: PublishOut, i: Input)
    ensures Quiet(Acknowledge(s, m, i).es) && Acknowledge(s, m, i).s.alive.ping == s.alive.ping
  {
  }

  lemma OnReleaseQuiet(s: State, kind: nat, i: Input)
    ensures Quiet(OnRelease(s, kind, i).es) && OnRelease(s, kind, i).s.alive.ping == s.alive.ping
  {
  }

  lemma OnPacketQuiet(s: State, i: Input)
    requires i.out.NoHeader? ==> i.out.rc <= 0
    ensures Quiet(OnPacket(s, i).es)
    ensures OnPacket(s, i).s.alive.ping == (s.alive.ping && i.out != Packet(PINGRESP))
  {
    if i.Type() == PUBLISH { OnPublishQuiet(s, i); }
    else if i.Type() == PUBREC || i.Type() == PUBREL { OnReleaseQuiet(s, i.Type(), i); }
  }

  lemma ReadTracks(b: bool, i: Input)
    ensures Tracks(b, ReadEvents(i), b && i.out != Packet(PINGRESP))
  {
  }

  lemma KeepAliveTracks(a: Alive, i: Input)
    ensures Tracks(a.ping, KeepAlive(a, i).1, KeepAlive(a, i).0.ping)
  {
  }

  lemma EndTracks(b: bool, p: Part, i: Input)
    requires Tracks(b, p.es, p.s.alive.ping)
    ensures var q := Finish(WithKeepAlive(p, i), i.Type()); Tracks(b, q.es, q.s.alive.ping)
  {
    KeepAliveTracks(p.s.alive, i);
    Chain(b, p.es, p.s.alive.ping, KeepAlive(p.s.alive, i).1, KeepAlive(p.s.alive, i).0.ping);
    FinishTracks(b, WithKeepAlive(p, i), i.Type());
  }

  lemma FinishTracks(b: bool, p: Part, kind: int)
    requires Tracks(b, p.es, p.s.alive.ping)
    ensures var q := Finish(p, kind); Tracks(b, q.es, q.s.alive.ping)
  {
  }

  lemma CycleTracks(s: State, i: Input)
    requires i.out.NoHeader? ==> i.out.rc <= 0
    ensures Tracks(s.alive.ping, Cycle(s, i).es, Cycle(s, i).s.alive.ping)
  {
    var r := Read(s, i);
    var p := OnPacket(r, i);
    var b := s.alive.ping && i.out != Packet(PINGRESP);
    ReadTracks(s.alive.ping, i);
    OnPacketQuiet(r, i);
    QuietTracks(b, p.es);
    Chain(s.alive.ping, ReadEvents(i), b, p.es, b);
    EndTracks(s.alive.ping, p.(es := ReadEvents(i) + p.es), i);
  }

  lemma StepTracks(s: State, op: Op)
    requires Enabled(s, op)
    ensures Tracks(s.alive.ping, Events(s, op), Next(s, op).alive.ping)
  {
    var b := s.alive.ping;
    QuietTracks(b, []);
    match op
    case Cycling(i) => CycleTracks(s, i);
    case Sending(packet, w, _) => One(b, SendEvent(Other(packet), w));
    case Resending(w, _) => One(b, SendEvent(Other(Kept(s.inflight)), w));
    case Close => One(b, Closed(s.clean));
    case Open => One(b, Opened);
    case _ =>
  }

  // ---- whole runs ----

  lemma {:induction false} RunTracks(s: State, ops: seq<Op>)
    requires Run(s, ops).Some?
    ensures Tracks(s.alive.ping, Run(s, ops).value.1, Run(s, ops).value.0.alive.ping)
  {
    if ops == [] {
      QuietTracks(s.alive.ping, []);
    } else {
      var front, op := ops[..|ops| - 1], ops[|ops| - 1];
      RunTracks(s, front);
      var (before, es) := Run(s, front).value;
      StepTracks(before, op);
      Chain(s.alive.ping, es, before.alive.ping, Events(before, op), Next(before, op).alive.ping);
    }
  }

  lemma {:induction false} WaitingUntilSettled(b: bool, es: seq<Event>, i: nat)
    requires i < |es| && es[i] == Sent(Ping)
    requires forall k :: i < k < |es| ==> !Settles(es[k])
    ensures Waiting(b, es)
  {
    if i + 1 < |es| { WaitingUntilSettled(b, es[..|es| - 1], i); }
  }

  lemma {:induction false} SpacedAt(b: bool, es: seq<Event>, j: nat)
    requires Spaced(b, es) && j < |es| && es[j] == Sent(Ping)
    ensures !Waiting(b, es[..j])
  {
    if j + 1 < |es| {
      var front := es[..|es| - 1];
      SpacedAt(b, front, j);
      assert front[..j] == es[..j];
    }
  }

  /** In every run, between two PINGREQs that went out lies a PINGRESP, the end of the session or a
      fresh connect. */
  lemma PingsAreSpaced(s: State, ops: seq<Op>, i: nat, j: nat)
    requires Run(s, ops).Some? && i < j < |Run(s, ops).value.1|
    requires Run(s, ops).value.1[i] == Sent(Ping) == Run(s, ops).value.1[j]
    ensures exists k :: i < k < j && Settles(Run(s, ops).value.1[k])
  {
    var es := Run(s, ops).value.1;
    RunTracks(s, ops);
    SpacedAt(s.alive.ping, es, j);
    if forall k :: i < k < j ==> !Settles(es[k]) {
      WaitingUntilSettled(s.alive.ping, es[..j], i);
      assert false;
    }
  }

  // ---- the deadline ----

  /** The cycle gets to its keepalive check. */
  predicate Checks(s: State, i: Input) {
    !OnPacket(Read(s, i), i).stop
  }

  /** An unanswered PINGREQ is past its deadline, or a new one is due and does not get out. */
  predicate Overdue(a: Alive, i: Input) {
    if a.ping then i.pingLook >= a.pingSent
    else (i.sentLook >= a.lastSent || i.receivedLook >= a.lastReceived) && i.pingW < 2
  }

  /** A cycle that gets to its keepalive check fails exactly when a PINGREQ is unanswered past its
      deadline or a new one cannot be sent, and a failing cycle leaves no connected session. */
  lemma DeadlineClosesSession(s: State, i: Input)
    requires Checks(s, i) && i.Type() != FAILURE && (i.out.NoHeader? ==> i.out.rc <= 0)
    ensures var a := OnPacket(Read(s, i), i).s.alive;
      Cycle(s, i).rc == FAILURE <==> a.interval > 0 && Overdue(a, i)
    ensures Cycle(s, i).rc == FAILURE ==> !Cycle(s, i).s.connected
  {
  }

  /** In every run: while a PINGREQ that went out is unanswered, a cycle that reads no PINGRESP, gets to its
      keepalive check and looks at the clock past the deadline fails, and ends the session if there was one. */
  lemma OverduePingEndsSession(s: State, ops: seq<Op>, i: Input)
    requires !s.alive.ping && Run(s, ops).Some? && Waiting(false, Run(s, ops).value.1)
    requires var b := Run(s, ops).value.0;
      && Enabled(b, Cycling(i)) && i.out != Packet(PINGRESP) && Checks(b, i) && i.Type() != FAILURE
      && b.alive.interval > 0 && i.pingLook >= b.alive.pingSent
    ensures Run(s, ops + [Cycling(i)]).Some?
    ensures var (s', es) := Run(s, ops + [Cycling(i)]).value;
      && s'.last == FAILURE && !s'.connected
      && (Run(s, ops).value.0.connected ==> es != [] && es[|es| - 1].Closed?)
  {
    RunTracks(s, ops);
    RunExtends(s, ops, Cycling(i));
    OverduePingFails(Run(s, ops).value.0, i);
  }

  lemma OverduePingFails(b: State, i: Input)
    requires b.alive.ping && (i.out.NoHeader? ==> i.out.rc <= 0) && i.out != Packet(PINGRESP) && Checks(b, i)
    requires i.Type() != FAILURE && b.alive.interval > 0 && i.pingLook >= b.alive.pingSent
    ensures var c := Cycle(b, i);
      && c.s.last == FAILURE && !c.s.connected
      && (b.connected ==> c.es != [] && c.es[|c.es| - 1].Closed?)
  {
    OnPacketAlive(Read(b, i), i);
    OnPacketSame(Read(b, i), i);
    CheckPasses(Read(b, i), i);
    FailureCloses(Handled(b, i), i);
  }

  lemma CheckPasses(s: State, i: Input)
    requires !OnPacket(s, i).stop
    ensures OnPacket(s, i).rc == SUCCESS
  {
  }

  lemma FailureCloses(p: Part, i: Input)
    requires !p.stop && p.rc == SUCCESS && !KeepAlive(p.s.alive, i).2
    ensures var q := Finish(WithKeepAlive(p, i), i.Type());
      q.s.last == FAILURE && !q.s.connected && (p.s.connected ==> q.es != [] && q.es[|q.es| - 1] == Closed(p.s.clean))
  {
  }

  // ---- when it expires ----

  /** This step sent a PINGREQ that is overdue from `deadline` on: one keepalive interval after it went out. */
  predicate SentBy(s: State, op: Op, deadline: int) {
    op.Cycling? && Sent(Ping) in Cycle(s, op.input).es
    && deadline == op.input.pingAt + Seconds(s.alive.interval)
  }

  lemma CycleDeadline(s: State, i: Input)
    requires (i.out.NoHeader? ==> i.out.rc <= 0) && Cycle(s, i).s.alive.ping
    ensures var d := Cycle(s, i).s.alive.pingSent;
      SentBy(s, Cycling(i), d) || (s.alive.ping && d == s.alive.pingSent)
  {
    HandledAlive(s, i);
    EndDeadline(Handled(s, i), i);
  }

  lemma HandledAlive(s: State, i: Input)
    requires i.out.NoHeader? ==> i.out.rc <= 0
    ensures var a := Handled(s, i).s.alive;
      a.interval == s.alive.interval && a.pingSent == s.alive.pingSent && (a.ping ==> s.alive.ping)
  {
    if i.out != Packet(PINGRESP) { OnPacketAlive(Read(s, i), i); }
  }

  lemma EndDeadline(p: Part, i: Input)
    ensures var q := Finish(WithKeepAlive(p, i), i.Type());
      q.s.alive.ping ==>
        || (Sent(Ping) in q.es && q.s.alive.pingSent == i.pingAt + Seconds(p.s.alive.interval))
        || (p.s.alive.ping && q.s.alive.pingSent == p.s.alive.pingSent)
  {
  }

  lemma StepDeadline(s: State, op: Op)
    requires Enabled(s, op) && Next(s, op).alive.ping
    ensures var d := Next(s, op).alive.pingSent;
      SentBy(s, op, d) || (s.alive.ping && d == s.alive.pingSent)
  {
    if op.Cycling? { CycleDeadline(s, op.input); }
  }

  /** In every run the deadline of an outstanding ping is that of the cycle that sent it. */
  lemma {:induction false} DeadlineIsOfSender(s: State, ops: seq<Op>) returns (k: nat)
    requires !s.alive.ping && Run(s, ops).Some? && Run(s, ops).value.0.alive.ping
    ensures k < |ops| && SentBy(StateAt(s, ops, k), ops[k], Run(s, ops).value.0.alive.pingSent)
  {
    var n := |ops| - 1;
    var before := Run(s, ops[..n]).value.0;
    StepDeadline(before, ops[n]);
    if SentBy(before, ops[n], Run(s, ops).value.0.alive.pingSent) {
      k := n;
    } else {
      k := DeadlineIsOfSender(s, ops[..n]);
      StateAtFront(s, ops, k);
    }
  }

  // ---- a ping that outlives its connect ----

  /** A cycle that reads CONNACK returns it unless keepalive is on and a ping is overdue, or due and not to
      be sent; with a ping outstanding, unless its deadline has passed. */
  lemma ConnackReturnsExactly(s: State, i: Input)
    requires i.out == Packet(CONNACK)
    ensures var a := Read(s, i).alive;
      Cycle(s, i).rc == if a.interval > 0 && Overdue(a, i) then FAILURE else CONNACK
    ensures s.alive.ping ==>
      (Cycle(s, i).rc == FAILURE <==> s.alive.interval > 0 && i.pingLook >= s.alive.pingSent)
  {
  }

  /** A fresh client connects, the server says nothing, and the cycle of `connect` sends a PINGREQ before
      its timer runs out: the ping is left outstanding without a session. */
  lemma FailedConnectLeavesPing(s: State, packet: seq<byte>) returns (ops: seq<Op>)
    requires Initial(s)
    ensures Run(s, ops).Some? && Stuck(Run(s, ops).value.0, Seconds(2))
    ensures |ops| == 4 && ops[..3] == [SetOptions(1, false), Sending(packet, |packet|, 0), StartReceived(0)]
    ensures ops[3].Cycling? && ops[3].input.out == NoHeader(0) && Cycle(StateAt(s, ops, 3), ops[3].input).rc == 0
  {
    var begin: seq<Op> := [SetOptions(1, false), Sending(packet, |packet|, 0), StartReceived(0)];
    var i := Input(NoHeader(0), s.readbuf, 0, 0, 0, 0, 0, Seconds(1), 0, 2, Seconds(1));
    ops := begin + [Cycling(i)];
    ConnectBegins(s, packet, begin);
    RunExtends(s, begin, Cycling(i));
    IdleCyclePings(Run(s, begin).value.0, i);
    assert ops[..3] == begin;
  }

  lemma ConnectBegins(s: State, packet: seq<byte>, begin: seq<Op>)
    requires begin == [SetOptions(1, false), Sending(packet, |packet|, 0), StartReceived(0)] && !s.connected
    ensures Run(s, begin).Some?
    ensures Run(s, begin).value.0 == s.(clean := false,
      alive := s.alive.(interval := 1, lastSent := Seconds(1), lastReceived := Seconds(1)))
  {
    assert begin[..0] == [];
    RunExtends(s, [], begin[0]);
    RunExtends(s, [begin[0]], begin[1]);
    RunExtends(s, [begin[0], begin[1]], begin[2]);
    assert [begin[0], begin[1]] + [begin[2]] == begin;
  }

  lemma IdleCyclePings(s: State, i: Input)
    requires i.out == NoHeader(0) && i.buf == s.readbuf && s.alive.interval == 1 && !s.alive.ping && !s.connected
    requires i.sentLook >= s.alive.lastSent && i.pingW == 2 && i.pingAt == Seconds(1)
    ensures Stuck(Cycle(s, i).s, Seconds(2)) && Cycle(s, i).rc == 0
  {
  }

  /** The steps of a `connect` with keepalive on, no publish kept, no PINGRESP coming in and the clock past
      `deadline`. */
  predicate Reconnecting(op: Op, deadline: int) {
    match op
    case SetOptions(interval, _) => interval > 0
    case Cycling(i) => i.out != Packet(PINGRESP) && i.pingLook >= deadline
    case Sending(_, _, _) => true
    case StartReceived(_) => true
    case _ => false
  }

  predicate Stuck(s: State, deadline: int) {
    !s.connected && s.alive.ping && s.alive.interval > 0 && s.alive.pingSent == deadline
  }

  lemma OnPacketAlive(s: State, i: Input)
    requires i.out != Packet(PINGRESP) && (i.out.NoHeader? ==> i.out.rc <= 0)
    ensures var a := OnPacket(s, i).s.alive;
      a.ping == s.alive.ping && a.interval == s.alive.interval && a.pingSent == s.alive.pingSent
  {
    OnPacketQuiet(s, i);
    if i.Type() == PUBLISH { OnPublishAlive(s, i); }
    else if i.Type() == PUBREC || i.Type() == PUBREL { OnReleaseAlive(s, i.Type(), i); }
  }

  lemma OnPublishAlive(s: State, i: Input)
    ensures var a := OnPublish(s, i).s.alive; a.interval == s.alive.interval && a.pingSent == s.alive.pingSent
  {
    AcknowledgeAlive(Accept(s, i.Msg()).0, i.Msg(), i);
  }

  lemma AcknowledgeAlive(s: State, m: PublishOut, i: Input)
    ensures var a := Acknowledge(s, m, i).s.alive; a.interval == s.alive.interval && a.pingSent == s.alive.pingSent
  {
  }

  lemma OnReleaseAlive(s: State, kind: nat, i: Input)
    ensures var a := OnRelease(s, kind, i).s.alive; a.interval == s.alive.interval && a.pingSent == s.alive.pingSent
  {
  }

  lemma StuckEnd(p: Part, i: Input, deadline: int)
    requires Stuck(p.s, deadline) && i.pingLook >= deadline
    requires p.stop ==> p.rc != SUCCESS || i.Type() != CONNACK
    requires i.Type() == CONNACK ==> !p.stop
    requires p.rc != CONNACK
    ensures var q := Finish(WithKeepAlive(p, i), i.Type()); Stuck(q.s, deadline) && q.rc != CONNACK
  {
  }

  lemma StuckStep(s: State, op: Op, deadline: int)
    requires Stuck(s, deadline) && Enabled(s, op) && Reconnecting(op, deadline)
    ensures Stuck(Next(s, op), deadline)
    ensures op.Cycling? ==> Cycle(s, op.input).rc != CONNACK
  {
    if op.Cycling? {
      var i := op.input;
      var p := OnPacket(Read(s, i), i);
      OnPacketSame(Read(s, i), i);
      OnPacketAlive(Read(s, i), i);
      ConnackChecks(Read(s, i), i);
      StuckEnd(p.(es := ReadEvents(i) + p.es), i, deadline);
    }
  }

  lemma ConnackChecks(s: State, i: Input)
    ensures i.Type() == CONNACK ==> !OnPacket(s, i).stop
    ensures OnPacket(s, i).rc != CONNACK
  {
  }

  lemma {:induction false} StuckRun(s: State, ops: seq<Op>, deadline: int)
    requires Stuck(s, deadline) && Run(s, ops).Some?
    requires forall k :: 0 <= k < |ops| ==> Reconnecting(ops[k], deadline)
    ensures Stuck(Run(s, ops).value.0, deadline)
  {
    if ops != [] {
      var n := |ops| - 1;
      StuckRun(s, ops[..n], deadline);
      StuckStep(Run(s, ops[..n]).value.0, ops[n], deadline);
    }
  }

  lemma {:induction false} PrefixRuns(s: State, ops: seq<Op>, k: nat)
    requires Run(s, ops).Some? && k <= |ops|
    ensures Run(s, ops[..k]).Some?
  {
    if k == |ops| {
      assert ops[..k] == ops;
    } else {
      PrefixRuns(s, ops[..|ops| - 1], k);
      assert ops[..|ops| - 1][..k] == ops[..k];
    }
  }

  lemma StepEnabled(s: State, ops: seq<Op>, k: nat)
    requires Run(s, ops).Some? && k < |ops|
    ensures Run(s, ops[..k]).Some? && Enabled(StateAt(s, ops, k), ops[k])
  {
    PrefixRuns(s, ops, k + 1);
    LastEnabled(s, ops[..k + 1]);
    assert ops[..k + 1][..k] == ops[..k];
  }

  lemma LastEnabled(s: State, ops: seq<Op>)
    requires Run(s, ops).Some? && ops != []
    ensures var n := |ops| - 1;
      Run(s, ops[..n]).Some? && Enabled(Run(s, ops[..n]).value.0, ops[n])
  {
  }

  /** A ping outstanding when a connect fails outlives it, and once its deadline has passed no later `connect`
      with keepalive on and no publish kept can succeed: no cycle returns CONNACK. */
  lemma StalePingBlocksConnect(s: State, ops: seq<Op>, deadline: int, k: nat)
    requires Stuck(s, deadline) && Run(s, ops).Some?
    requires forall k :: 0 <= k < |ops| ==> Reconnecting(ops[k], deadline)
    requires k < |ops| && ops[k].Cycling?
    ensures Cycle(StateAt(s, ops, k), ops[k].input).rc != CONNACK
  {
    StepEnabled(s, ops, k);
    StuckRun(s, ops[..k], deadline);
    StuckStep(StateAt(s, ops, k), ops[k], deadline);
  }
}
