/** The publish kept for sending on reconnect, over whole runs: what the slot holds, and what empties it. */
module InflightRetention {
  import opened Bytes
  import opened FixedHeader
  import opened PublishCodec
  import opened MessageHandlers
  import opened PacketReader
  import opened Session

  /** The slot holds this publish, byte for byte. */
  predicate Holds(f: Inflight, p: Publish) {
    && p.Legal() && p.qos <= 2 && f.id == p.id && f.qos == p.qos
    && f.len == |p.Encoding()| <= |f.pubbuf| && f.pubbuf[..f.len] == p.Encoding()
  }

  ghost predicate Sound(f: Inflight) {
    f.id > 0 ==> exists p :: Holds(f, p)
  }

  /** A packet type a cycle returned is the type of the packet in the read buffer. */
  predicate LastRead(s: State) {
    s.last == PUBACK || s.last == PUBCOMP ==> Kind(Peek(s.readbuf, 0)) == s.last
  }

  // ---- what a cycle leaves alone ----

  /** Everything but the table and the timers. */
  predicate Same(s: State, s': State) {
    s'.inflight == s.inflight && s'.clean == s.clean && s'.readbuf == s.readbuf && s'.connected == s.connected
  }

  lemma AnswerSame(s: State, m: PublishOut, i: Input)
    ensures Same(s, Accept(s, m).0)
    ensures Same(s, Acknowledge(s, m, i).s)
  {
  }

  lemma OnPublishSame(s: State, i: Input)
    ensures Same(s, OnPublish(s, i).s)
  {
    AnswerSame(s, i.Msg(), i);
    AnswerSame(Accept(s, i.Msg()).0, i.Msg(), i);
  }

  lemma OnReleaseSame(s: State, kind: nat, i: Input)
    ensures Same(s, OnRelease(s, kind, i).s)
  {
  }

  lemma OnPacketSame(s: State, i: Input)
    ensures Same(s, OnPacket(s, i).s)
  {
    if i.Type() == PUBLISH { OnPublishSame(s, i); }
    else if i.Type() == PUBREC || i.Type() == PUBREL { OnReleaseSame(s, i.Type(), i); }
  }

  lemma FinishSame(p: Part, kind: int)
    ensures var q := Finish(p, kind);
      && q.s.clean == p.s.clean && q.s.readbuf == p.s.readbuf && q.s.last == q.rc
      && (q.s.connected ==> p.s.connected)
      && (p.rc == SUCCESS ==> q.rc == kind) && (p.rc != SUCCESS ==> q.rc == p.rc)
      && ((p.s.clean && p.s.connected) || q.s.inflight == p.s.inflight)
      && (q.s.inflight == p.s.inflight || q.s.inflight == p.s.inflight.(id := 0, qos := 0))
  {
  }

  lemma OnPacketCode(s: State, i: Input)
    ensures OnPacket(s, i).rc == SUCCESS || OnPacket(s, i).rc == FAILURE || OnPacket(s, i).rc == i.Type()
  {
  }

  lemma CycleSame(s: State, i: Input)
    ensures var s' := Cycle(s, i).s;
      && s'.clean == s.clean && s'.readbuf == i.buf && (s'.connected ==> s.connected)
      && (s'.last == FAILURE || s'.last == i.Type())
      && ((s.clean && s.connected) || s'.inflight == s.inflight)
      && (s'.inflight == s.inflight || s'.inflight == s.inflight.(id := 0, qos := 0))
  {
    var r := Read(s, i);
    var p := OnPacket(r, i);
    OnPacketSame(r, i);
    OnPacketCode(r, i);
    var q := WithKeepAlive(p.(es := ReadEvents(i) + p.es), i);
    WithKeepAliveSame(p.(es := ReadEvents(i) + p.es), i);
    FinishSame(q, i.Type());
  }

  lemma WithKeepAliveSame(p: Part, i: Input)
    ensures var q := WithKeepAlive(p, i);
      Same(p.s, q.s) && (q.rc == p.rc || q.rc == FAILURE)
  {
  }

  // ---- the slot in every reachable state ----

  lemma KeepHolds(f: Inflight, p: Publish)
    requires p.Legal() && p.qos <= 2 && |p.Encoding()| <= |f.pubbuf|
    ensures Holds(Stored(f, p), p)
  {
  }

  lemma StepSound(s: State, op: Op)
    requires Sound(s.inflight) && Enabled(s, op)
    ensures Sound(Next(s, op).inflight)
  {
    match op
    case Cycling(i) => CycleSame(s, i);
    case Keep(p) => KeepHolds(s.inflight, p);
    case TakeAck(_) =>
    case Close =>
    case _ =>
  }

  lemma {:induction false} RunSound(s: State, ops: seq<Op>)
    requires Sound(s.inflight) && Run(s, ops).Some?
    ensures Sound(Run(s, ops).value.0.inflight)
  {
    if ops != [] {
      RunSound(s, ops[..|ops| - 1]);
      StepSound(Run(s, ops[..|ops| - 1]).value.0, ops[|ops| - 1]);
    }
  }

  /** Whenever the slot is in use, its bytes deserialize as a PUBLISH with its id and its QoS. */
  lemma SlotDecodes(s: State, ops: seq<Op>, prev: PublishOut)
    requires Sound(s.inflight) && Run(s, ops).Some? && Run(s, ops).value.0.inflight.id > 0
    ensures var f := Run(s, ops).value.0.inflight;
      var (rc, out) := DecodePublish(Kept(f), prev);
      rc == 1 && out.qos == f.qos && (f.qos > 0 ==> out.id == f.id)
  {
    RunSound(s, ops);
    KeptDecodes(Run(s, ops).value.0.inflight, prev);
  }

  lemma KeptIs(f: Inflight, p: Publish)
    requires Holds(f, p)
    ensures Kept(f) == p.Encoding()
  {
  }

  lemma KeptDecodes(f: Inflight, prev: PublishOut)
    requires f.id > 0 && Sound(f)
    ensures var (rc, out) := DecodePublish(Kept(f), prev);
      rc == 1 && out.qos == f.qos && (f.qos > 0 ==> out.id == f.id)
  {
    var p :| Holds(f, p);
    KeptIs(f, p);
    PublishRoundTrip(p, Kept(f), prev);
  }

  // ---- retention ----

  /** The acknowledgement that ends the delivery of QoS `qos` is in the read buffer, and it carries this id, or no id
      at all while the uninitialised variable for it happens to hold this one. */
  predicate Ends(s: State, op: Op, id: ushort, qos: nat) {
    && op.TakeAck?
    && Kind(Peek(s.readbuf, 0)) == (if qos == 1 then PUBACK else PUBCOMP)
    && (CarriesId(s.readbuf, id) || (CarriesNone(s.readbuf) && op.garbage == id))
  }

  /** Taking an acknowledgement empties a slot exactly when it carries the slot's id, or none while the uninitialised
      variable happens to hold it. */
  lemma AckedExactly(s: State, garbage: ushort)
    requires s.inflight.id > 0
    ensures Acked(s, garbage).inflight.id == 0
      <==> CarriesId(s.readbuf, s.inflight.id) || (CarriesNone(s.readbuf) && garbage == s.inflight.id)
    ensures Acked(s, garbage) == s.(inflight := s.inflight.(id := Acked(s, garbage).inflight.id))
  {
    AckReadsAs(s.readbuf, AckOut(0, 0, garbage), s.inflight.id);
  }

  /** So "cleared only by the acknowledgement with its id" holds of what is in the read buffer exactly when that
      carries an id, or its length field has more than one byte, or the variable holds another id. */
  lemma ClearedByItsIdExactly(s: State, garbage: ushort)
    requires s.inflight.id > 0
    ensures (Acked(s, garbage).inflight.id == 0 ==> CarriesId(s.readbuf, s.inflight.id))
      <==> !CarriesNone(s.readbuf) || garbage != s.inflight.id
  {
    AckReadsAs(s.readbuf, AckOut(0, 0, garbage), s.inflight.id);
  }

  /** An empty PUBACK ends the delivery of any publish of QoS 1. */
  lemma EmptyPubackEmptiesSlot(s: State)
    requires |s.readbuf| >= 2 && s.readbuf[..2] == [64, 0] && s.inflight.id > 0 && s.inflight.qos == 1
    ensures !CarriesId(s.readbuf, s.inflight.id) && Ends(s, TakeAck(s.inflight.id), s.inflight.id, 1)
    ensures Next(s, TakeAck(s.inflight.id)).inflight.id == 0
  {
    assert s.readbuf[0] == s.readbuf[..2][0] && s.readbuf[1] == s.readbuf[..2][1];
    AckedExactly(s, s.inflight.id);
  }

  function StateAt(s: State, ops: seq<Op>, k: nat): State
    requires k <= |ops|
  {
    match Run(s, ops[..k])
    case Some((s', _)) => s'
    case None => s
  }

  /** No new publish, and the session stays persistent. */
  predicate Stays(ops: seq<Op>) {
    forall k :: 0 <= k < |ops| ==> !ops[k].Keep? && !(ops[k].SetOptions? && ops[k].clean)
  }

  lemma StepLastRead(s: State, op: Op)
    requires LastRead(s) && Enabled(s, op)
    ensures LastRead(Next(s, op))
  {
    if op.Cycling? { CycleSame(s, op.input); }
  }

  lemma StepHolds(s: State, op: Op, p: Publish)
    requires Holds(s.inflight, p) && p.id > 0 && !s.clean && LastRead(s) && Enabled(s, op)
    requires !op.Keep? && !(op.SetOptions? && op.clean)
    ensures !Next(s, op).clean
    ensures if Ends(s, op, p.id, p.qos) then Next(s, op).inflight.id == 0 else Next(s, op).inflight == s.inflight
  {
    match op
    case Cycling(i) => CycleSame(s, i);
    case TakeAck(_) =>
    case _ =>
  }

  lemma StepEmpty(s: State, op: Op)
    requires s.inflight.id == 0 && !s.clean && Enabled(s, op)
    requires !op.Keep? && !(op.SetOptions? && op.clean)
    ensures !Next(s, op).clean && Next(s, op).inflight.id == 0
  {
    match op
    case Cycling(i) => CycleSame(s, i);
    case _ =>
  }

  ghost predicate Ended(s: State, ops: seq<Op>, p: Publish) {
    exists k :: 0 <= k < |ops| && Ends(StateAt(s, ops, k), ops[k], p.id, p.qos)
  }

  lemma StateAtFront(s: State, ops: seq<Op>, k: nat)
    requires k < |ops|
    ensures StateAt(s, ops, k) == StateAt(s, ops[..|ops| - 1], k)
  {
    assert ops[..|ops| - 1][..k] == ops[..k];
  }

  lemma EndedStays(s: State, ops: seq<Op>, p: Publish)
    requires ops != [] && Ended(s, ops[..|ops| - 1], p)
    ensures Ended(s, ops, p)
  {
    var front := ops[..|ops| - 1];
    var k :| 0 <= k < |front| && Ends(StateAt(s, front, k), front[k], p.id, p.qos);
    StateAtFront(s, ops, k);
    assert ops[k] == front[k];
  }

  lemma EndedAgo(s: State, ops: seq<Op>, p: Publish)
    requires ops != [] && Ended(s, ops, p)
    ensures var n := |ops| - 1;
      Ended(s, ops[..n], p) || Ends(StateAt(s, ops, n), ops[n], p.id, p.qos)
  {
    var k :| 0 <= k < |ops| && Ends(StateAt(s, ops, k), ops[k], p.id, p.qos);
    if k < |ops| - 1 {
      StateAtFront(s, ops, k);
      assert ops[..|ops| - 1][k] == ops[k];
    }
  }

  lemma EndedGrows(s: State, ops: seq<Op>, p: Publish)
    requires ops != []
    ensures var n := |ops| - 1;
      Ended(s, ops, p) <==> Ended(s, ops[..n], p) || Ends(StateAt(s, ops, n), ops[n], p.id, p.qos)
  {
    if Ended(s, ops[..|ops| - 1], p) { EndedStays(s, ops, p); }
    if Ended(s, ops, p) { EndedAgo(s, ops, p); }
  }

  /** In a persistent session, until the next publish, the slot keeps the packet and its bytes exactly as
      long as the acknowledgement that ends its delivery has not been taken, whatever else goes on. */
  lemma {:induction false} KeptUntilEnded(s: State, ops: seq<Op>, p: Publish)
    requires Holds(s.inflight, p) && p.id > 0 && !s.clean && LastRead(s)
    requires Run(s, ops).Some? && Stays(ops)
    ensures var s' := Run(s, ops).value.0;
      && !s'.clean && LastRead(s')
      && (if Ended(s, ops, p) then s'.inflight.id == 0 else s'.inflight == s.inflight)
  {
    if ops != [] {
      var front, op := ops[..|ops| - 1], ops[|ops| - 1];
      KeptUntilEnded(s, front, p);
      EndedGrows(s, ops, p);
      var before := Run(s, front).value.0;
      StepLastRead(before, op);
      if Ended(s, front, p) { StepEmpty(before, op); } else { StepHolds(before, op, p); }
    }
  }

  /** What `connect` hands to `sendPacket` after such a run are the bytes of the original publish. */
  lemma ResendsOriginal(s: State, ops: seq<Op>, p: Publish, w: nat, at: int)
    requires Holds(s.inflight, p) && p.id > 0 && !s.clean && LastRead(s)
    requires Run(s, ops).Some? && Stays(ops) && !Ended(s, ops, p) && w <= |p.Encoding()|
    ensures var s' := Run(s, ops).value.0;
      Enabled(s', Resending(w, at)) && Events(s', Resending(w, at)) == [SendEvent(Other(p.Encoding()), w)]
  {
    KeptUntilEnded(s, ops, p);
    KeptIs(s.inflight, p);
  }
}
