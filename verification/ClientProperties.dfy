/** What holds of the client of MQTTClient.h itself after any calls of its modelled methods: the theorems about
    runs, read off its fields, its arrays and its wire. */
module ClientProperties {
  import opened Bytes
  import opened FixedHeader
  import opened PublishCodec
  import opened MessageHandlers
  import opened Session
  import opened InflightRetention
  import opened Transport
  import opened PacketReader
  import QoS2Ids
  import QoS2Safety
  import KeepAliveRuns
  import PingTimers
  import Timing
  import C = Client

  /** The events of the client's life. */
  ghost function Trace(c: C.Client): seq<Event>
    requires c.Valid()
    reads c, c.net, c.clock, c.readbuf, c.pubbuf, c.table, c.slots
  {
    Run(c.origin, c.ops).value.1
  }

  /** The array of QoS 2 ids has no id twice, and holds exactly the ids delivered and not yet released. */
  lemma TableHoldsUnreleased(c: C.Client)
    requires c.Valid()
    ensures QoS2Ids.Distinct(c.table[..])
    ensures QoS2Ids.Ids(c.table[..]) == QoS2Safety.HeldAfter({}, Trace(c))
  {
    QoS2Safety.RunSafe(c.origin, c.ops);
    assert QoS2Ids.Ids(c.origin.table) == {};
  }

  /** A slot in use holds a PUBLISH with its id and QoS. */
  lemma PubbufDecodes(c: C.Client, prev: PublishOut)
    requires c.Valid() && c.inflightMsgid > 0
    ensures c.inflightLen <= c.pubbuf.Length
    ensures var (rc, out) := DecodePublish(c.pubbuf[..c.inflightLen], prev);
      rc == 1 && out.qos == c.inflightQoS && (c.inflightQoS > 0 ==> out.id == c.inflightMsgid)
  {
    RunSound(c.origin, c.ops);
    SlotDecodes(c.origin, c.ops, prev);
    c.SlotFits();
    assert Kept(c.InFlight()) == c.pubbuf[..c.inflightLen];
  }

  /** `ping_outstanding` says that a PINGREQ went out and nothing has settled it. */
  lemma PingFlagIsHonest(c: C.Client)
    requires c.Valid()
    ensures c.pingOutstanding == KeepAliveRuns.Waiting(false, Trace(c))
  {
    KeepAliveRuns.RunTracks(c.origin, c.ops);
  }

  // ---- the clock ----

  /** A cycle that the client began when its clock was past the deadline of an unanswered PINGREQ, that read no PINGRESP
      and got to its keepalive check, failed and left no session. */
  lemma OverdueCyclesFail(c: C.Client, k: nat)
    requires c.Valid() && k < |c.ops| && c.ops[k].Cycling?
    requires var s, i := StateAt(c.origin, c.ops, k), c.ops[k].input;
      && s.alive.ping && s.alive.interval > 0 && c.moments[k].before.time.now >= s.alive.pingSent
      && KeepAliveRuns.Checks(s, i) && i.out != Packet(PINGRESP) && i.Type() != FAILURE
    ensures var s' := Cycle(StateAt(c.origin, c.ops, k), c.ops[k].input).s; s'.last == FAILURE && !s'.connected
  {
    Timing.LivedAt(c.origin, c.began, c.ops, c.moments, c.Outside(), k);
    KeepAliveRuns.StepEnabled(c.origin, c.ops, k);
    var m := c.moments[k];
    Timing.OverdueByClock(StateAt(c.origin, c.ops, k), m.before, m.until, c.ops[k].input, m.after);
  }

  /** The PINGREQ that is outstanding went out in the past, so that it is overdue one keepalive interval from now at
      the latest. */
  lemma PingDeadlineIsNear(c: C.Client) returns (k: nat)
    requires c.Valid() && c.pingOutstanding
    ensures k < |c.ops| && c.ops[k].Cycling?
    ensures var s := StateAt(c.origin, c.ops, k);
      && Sent(Ping) in Cycle(s, c.ops[k].input).es
      && c.pingSent == c.moments[k].after.time.now + Seconds(s.alive.interval)
      && c.moments[k].after.time.now <= c.clock.now
  {
    k := KeepAliveRuns.DeadlineIsOfSender(c.origin, c.ops);
    Timing.LivedAt(c.origin, c.began, c.ops, c.moments, c.Outside(), k);
    var m := c.moments[k];
    Timing.PingEndsCycle(StateAt(c.origin, c.ops, k), m.before, m.until, c.ops[k].input, m.after);
  }

  /** The client's timers run out one interval, in milliseconds, after what they watch last happened. */
  lemma TimersFollowTraffic(c: C.Client)
    requires c.Valid()
    ensures c.lastSent == PingTimers.LastSent(c.origin, c.ops).Due(c.origin.alive.lastSent)
    ensures c.lastReceived == PingTimers.LastReceived(c.origin, c.ops).Due(c.origin.alive.lastReceived)
  {
    PingTimers.TimersFollow(c.origin, c.ops);
  }

  // ---- a publish is kept until its acknowledgement ----

  lemma {:induction false} RunSplits(s: State, a: seq<Op>, b: seq<Op>)
    requires Run(s, a + b).Some?
    ensures Run(s, a).Some? && Run(Run(s, a).value.0, b).Some?
    ensures Run(Run(s, a).value.0, b).value.0 == Run(s, a + b).value.0
  {
    if b == [] {
      assert a + b == a;
    } else {
      assert (a + b)[..|a + b| - 1] == a + b[..|b| - 1];
      RunSplits(s, a, b[..|b| - 1]);
    }
  }

  lemma {:induction false} RunLastRead(s: State, ops: seq<Op>)
    requires LastRead(s) && Run(s, ops).Some?
    ensures LastRead(Run(s, ops).value.0)
  {
    if ops != [] {
      RunLastRead(s, ops[..|ops| - 1]);
      StepLastRead(Run(s, ops[..|ops| - 1]).value.0, ops[|ops| - 1]);
    }
  }

  /** After a publish was kept as step `k`, with no later publish and the session staying persistent, the
      client's slot still holds its bytes unless the acknowledgement that ends it was taken. */
  lemma PublishIsRetained(c: C.Client, k: nat, p: Publish)
    requires c.Valid() && k < |c.ops| && c.ops[k] == Keep(p) && p.id > 0 && Stays(c.ops[k + 1..])
    ensures var kept := StateAt(c.origin, c.ops, k + 1);
      if Ended(kept, c.ops[k + 1..], p) then c.inflightMsgid == 0 else Holds(c.InFlight(), p)
  {
    var before, after := c.ops[..k + 1], c.ops[k + 1..];
    assert before + after == c.ops;
    RunSplits(c.origin, before, after);
    KeptState(c.origin, before, p);
    RunLastRead(c.origin, before);
    KeptUntilEnded(Run(c.origin, before).value.0, after, p);
  }

  lemma KeptState(s: State, ops: seq<Op>, p: Publish)
    requires ops != [] && ops[|ops| - 1] == Keep(p) && Run(s, ops).Some?
    ensures var s' := Run(s, ops).value.0; Holds(s'.inflight, p) && !s'.clean
  {
    var before := Run(s, ops[..|ops| - 1]).value.0;
    KeepHolds(before.inflight, p);
  }

  // ---- the handler table ----

  /** What a step does to the handler table. */
  function EditsBy(s: State, op: Op): seq<Edit> {
    if op.Handle? then [Set(op.filter, op.h)] else if Closed(true) in Events(s, op) then [Reset] else []
  }

  function EditsOf(s: State, ops: seq<Op>): seq<Edit> {
    if ops == [] then [] else EditsOf(s, ops[..|ops| - 1]) + EditsBy(StateAt(s, ops, |ops| - 1), ops[|ops| - 1])
  }

  lemma PublishSlots(s: State, i: Input)
    ensures OnPublish(s, i).s.slots == s.slots && OnPublish(s, i).s.clean == s.clean
  {
  }

  lemma ReleaseSlots(s: State, kind: nat, i: Input)
    ensures OnRelease(s, kind, i).s.slots == s.slots && OnRelease(s, kind, i).s.clean == s.clean
  {
  }

  lemma HandledSlots(s: State, i: Input)
    requires i.out.NoHeader? ==> i.out.rc <= 0
    ensures Handled(s, i).s.slots == s.slots && Handled(s, i).s.clean == s.clean
    ensures Closed(true) !in Handled(s, i).es
  {
    var r := Read(s, i);
    KeepAliveRuns.OnPacketQuiet(r, i);
    if i.Type() == PUBLISH { PublishSlots(r, i); }
    else if i.Type() == PUBREC || i.Type() == PUBREL { ReleaseSlots(r, i.Type(), i); }
  }

  lemma EndSlots(p: Part, i: Input)
    requires Closed(true) !in p.es
    ensures var q := Finish(WithKeepAlive(p, i), i.Type());
      q.s.slots == if Closed(true) in q.es then Clean(p.s.slots) else p.s.slots
  {
  }

  lemma StepSlots(s: State, op: Op)
    requires Enabled(s, op)
    ensures Next(s, op).slots == Apply(EditsBy(s, op), s.slots)
  {
    ApplyOne(s.slots, EditsBy(s, op));
    if op.Cycling? {
      HandledSlots(s, op.input);
      EndSlots(Handled(s, op.input), op.input);
    }
  }

  /** The end of a clean session leaves no kept publish, no QoS 2 id and no handler bound. */
  lemma CleanEndEmpties(s: State, op: Op)
    requires Enabled(s, op) && Closed(true) in Events(s, op)
    ensures var s' := Next(s, op);
      && s'.inflight.id == 0 && s'.inflight.qos == 0
      && (forall k :: 0 <= k < |s'.table| ==> s'.table[k] == 0)
      && (forall k :: 0 <= k < |s'.slots| ==> s'.slots[k].filter.None?)
  {
    if op.Cycling? {
      HandledSlots(s, op.input);
      CleanFinish(Handled(s, op.input), op.input);
    } else {
      CleanEmpties(s);
    }
  }

  lemma CleanEmpties(s: State)
    ensures var s' := CleanSession(s);
      && s'.inflight.id == 0 && s'.inflight.qos == 0
      && (forall k :: 0 <= k < |s'.table| ==> s'.table[k] == 0)
      && (forall k :: 0 <= k < |s'.slots| ==> s'.slots[k].filter.None?)
  {
  }

  lemma CleanFinish(p: Part, i: Input)
    requires Closed(true) !in p.es && Closed(true) in Finish(WithKeepAlive(p, i), i.Type()).es
    ensures var s' := Finish(WithKeepAlive(p, i), i.Type()).s;
      && s'.inflight.id == 0 && s'.inflight.qos == 0
      && (forall k :: 0 <= k < |s'.table| ==> s'.table[k] == 0)
      && (forall k :: 0 <= k < |s'.slots| ==> s'.slots[k].filter.None?)
  {
  }

  lemma ApplyOne(slots: seq<Slot>, edits: seq<Edit>)
    requires |edits| <= 1
    ensures Apply(edits, slots) == if edits == [] then slots else
      match edits[0] case Set(f, h) => SetHandler(slots, f, h).1 case Reset => Clean(slots)
  {
  }

  lemma {:induction false} ApplyConcat(a: seq<Edit>, b: seq<Edit>, slots: seq<Slot>)
    ensures Apply(a + b, slots) == Apply(b, Apply(a, slots))
  {
    if b == [] {
      assert a + b == a;
    } else {
      ApplyConcat(a, b[..|b| - 1], slots);
      assert (a + b)[..|a + b| - 1] == a + b[..|b| - 1];
    }
  }

  lemma {:induction false} RunSlots(s: State, ops: seq<Op>)
    requires Run(s, ops).Some?
    ensures Run(s, ops).value.0.slots == Apply(EditsOf(s, ops), s.slots)
  {
    if ops != [] {
      var n := |ops| - 1;
      RunSlots(s, ops[..n]);
      StepSlots(Run(s, ops[..n]).value.0, ops[n]);
      assert EditsOf(s, ops) == EditsOf(s, ops[..n]) + EditsBy(Run(s, ops[..n]).value.0, ops[n]);
      ApplyConcat(EditsOf(s, ops[..n]), EditsBy(Run(s, ops[..n]).value.0, ops[n]), s.slots);
    }
  }

  /** After any calls of the modelled methods the client's array of handlers is the bounded map that the calls of
      `setMessageHandler` and the clean sessions make, with no filter in two slots. */
  lemma HandlersAreMap(c: C.Client)
    requires c.Valid()
    ensures Sane(c.slots[..])
    ensures Bound(c.slots[..]) == ApplyMap(EditsOf(c.origin, c.ops), c.slots.Length)
  {
    RunSlots(c.origin, c.ops);
    HistoryRefinesMap(EditsOf(c.origin, c.ops), c.origin.slots);
  }
}
