/** Incoming QoS 2 over whole runs, with nothing assumed about the peer: between two deliveries with the
    same packet id lies a PUBCOMP for that id that went out whole, or a clean session. */
module QoS2Safety {
  import opened Bytes
  import opened FixedHeader
  import opened PublishCodec
  import opened PacketReader
  import opened Session
  import opened QoS2Ids

  predicate Delivers(e: Event, id: ushort) {
    e.Delivered? && e.msg.qos == 2 && e.msg.id == id
  }

  predicate Releases(e: Event, id: ushort) {
    e == Sent(Ack(PUBCOMP, id)) || e == Closed(true)
  }

  /** The ids delivered and not released yet. */
  function Held(ids: set<ushort>, e: Event): set<ushort> {
    if e.Delivered? && e.msg.qos == 2 then ids + {e.msg.id}
    else if e.Sent? && e.p.Ack? && e.p.kind == PUBCOMP then ids - {e.p.id}
    else if e == Closed(true) then {}
    else ids
  }

  function HeldAfter(ids: set<ushort>, es: seq<Event>): set<ushort> {
    if es == [] then ids else Held(HeldAfter(ids, es[..|es| - 1]), es[|es| - 1])
  }

  /** No id is delivered while it is held. */
  predicate Once(ids: set<ushort>, es: seq<Event>) {
    es != [] ==>
      && Once(ids, es[..|es| - 1])
      && (es[|es| - 1].Delivered? && es[|es| - 1].msg.qos == 2 ==>
        es[|es| - 1].msg.id !in HeldAfter(ids, es[..|es| - 1]))
  }

  lemma {:induction false} Concat(ids: set<ushort>, a: seq<Event>, b: seq<Event>)
    ensures HeldAfter(ids, a + b) == HeldAfter(HeldAfter(ids, a), b)
    ensures Once(ids, a + b) <==> Once(ids, a) && Once(HeldAfter(ids, a), b)
  {
    if b == [] {
      assert a + b == a;
    } else {
      var front := b[..|b| - 1];
      Concat(ids, a, front);
      assert (a + b)[..|a + b| - 1] == a + front;
      assert (a + b)[|a + b| - 1] == b[|b| - 1];
    }
  }

  /** What a stretch of a run keeps: the ids in the table are the ids held. */
  ghost predicate Safe(t: seq<ushort>, es: seq<Event>, t': seq<ushort>) {
    Distinct(t') && |t'| == |t| && Once(Ids(t), es) && HeldAfter(Ids(t), es) == Ids(t')
  }

  lemma SafeChain(t: seq<ushort>, a: seq<Event>, t': seq<ushort>, b: seq<Event>, t'': seq<ushort>)
    requires Safe(t, a, t') && Safe(t', b, t'')
    ensures Safe(t, a + b, t'')
  {
    Concat(Ids(t), a, b);
  }

  lemma SafeOne(t: seq<ushort>, e: Event, t': seq<ushort>)
    requires Distinct(t') && |t'| == |t| && Held(Ids(t), e) == Ids(t')
    requires e.Delivered? && e.msg.qos == 2 ==> e.msg.id !in Ids(t)
    ensures Safe(t, [e], t')
  {
  }

  lemma SafeNone(t: seq<ushort>)
    requires Distinct(t)
    ensures Safe(t, [], t)
  {
  }

  // ---- each part of a cycle ----

  lemma AcceptSafe(s: State, m: PublishOut)
    requires Distinct(s.table)
    ensures var (s', es) := Accept(s, m); Safe(s.table, es, s'.table)
  {
    SafeNone(s.table);
    if m.qos != 2 {
      SafeOne(s.table, Session.Call(s, m), s.table);
    } else if m.id !in s.table && Use(s.table, m.id).0 {
      UseAdds(s.table, m.id);
      UseIds(s.table, m.id);
      IdsIn(s.table, m.id);
      SafeOne(s.table, Session.Call(s, m), Use(s.table, m.id).1);
    }
  }

  lemma SendSafe(t: seq<ushort>, p: Outgoing, w: nat)
    requires Distinct(t) && (p.Ack? ==> p.kind != PUBCOMP)
    ensures Safe(t, [SendEvent(p, w)], t)
  {
  }

  lemma AcknowledgeSafe(s: State, m: PublishOut, i: Input)
    requires Distinct(s.table)
    ensures var p := Acknowledge(s, m, i); Safe(s.table, p.es, p.s.table)
  {
  }

  lemma OnPublishSafe(s: State, i: Input)
    requires Distinct(s.table)
    ensures var p := OnPublish(s, i); Safe(s.table, p.es, p.s.table)
  {
    SafeNone(s.table);
    var (s', es) := Accept(s, i.Msg());
    AcceptSafe(s, i.Msg());
    AcknowledgeSafe(s', i.Msg(), i);
    SafeChain(s.table, es, s'.table, Acknowledge(s', i.Msg(), i).es, Acknowledge(s', i.Msg(), i).s.table);
  }

  /** Freeing the first match removes the id, because the table never holds an id twice. */
  lemma OnReleaseSafe(s: State, kind: nat, i: Input)
    requires Distinct(s.table) && (kind == PUBREC || kind == PUBREL)
    ensures var p := OnRelease(s, kind, i); Safe(s.table, p.es, p.s.table)
  {
    SafeNone(s.table);
    var id := i.AckId();
    if kind == PUBREC {
      SendSafe(s.table, Ack(PUBREL, id), i.ackW);
    } else if i.ackW < 4 {
      SafeOne(s.table, Cut(Ack(PUBCOMP, id), i.ackW), s.table);
    } else {
      FreeRemoves(s.table, id);
      FreeIds(s.table, id);
      SafeOne(s.table, Sent(Ack(PUBCOMP, id)), Free(s.table, id));
    }
  }

  lemma OnPacketSafe(s: State, i: Input)
    requires Distinct(s.table)
    ensures var p := OnPacket(s, i); Safe(s.table, p.es, p.s.table)
  {
    if i.Type() == PUBLISH { OnPublishSafe(s, i); }
    else if i.Type() == PUBREC || i.Type() == PUBREL { OnReleaseSafe(s, i.Type(), i); }
    else { SafeNone(s.table); }
  }

  lemma ReadSafe(s: State, i: Input)
    requires Distinct(s.table)
    ensures Safe(s.table, ReadEvents(i), Read(s, i).table)
  {
  }

  lemma KeepAliveSafe(t: seq<ushort>, a: Alive, i: Input)
    requires Distinct(t)
    ensures Safe(t, KeepAlive(a, i).1, t)
  {
  }

  lemma WithKeepAliveSafe(t: seq<ushort>, p: Part, i: Input)
    requires Safe(t, p.es, p.s.table)
    ensures var q := WithKeepAlive(p, i); Safe(t, q.es, q.s.table)
  {
    if !p.stop {
      KeepAliveSafe(p.s.table, p.s.alive, i);
      SafeChain(t, p.es, p.s.table, KeepAlive(p.s.alive, i).1, p.s.table);
    }
  }

  lemma CloseSafe(s: State)
    requires Distinct(s.table)
    ensures Safe(s.table, [Closed(s.clean)], CloseSession(s).table)
  {
  }

  lemma FinishSafe(t: seq<ushort>, p: Part, kind: int)
    requires Safe(t, p.es, p.s.table)
    ensures var q := Finish(p, kind); Safe(t, q.es, q.s.table)
  {
  }

  lemma CycleSafe(s: State, i: Input)
    requires Distinct(s.table)
    ensures Safe(s.table, Cycle(s, i).es, Cycle(s, i).s.table)
  {
    var r := Read(s, i);
    var p := OnPacket(r, i);
    ReadSafe(s, i);
    OnPacketSafe(r, i);
    SafeChain(s.table, ReadEvents(i), r.table, p.es, p.s.table);
    CycleEnds(s.table, p.(es := ReadEvents(i) + p.es), i);
  }

  lemma CycleEnds(t: seq<ushort>, p: Part, i: Input)
    requires Safe(t, p.es, p.s.table)
    ensures var q := Finish(WithKeepAlive(p, i), i.Type()); Safe(t, q.es, q.s.table)
  {
    WithKeepAliveSafe(t, p, i);
    FinishSafe(t, WithKeepAlive(p, i), i.Type());
  }

  lemma StepSafe(s: State, op: Op)
    requires Distinct(s.table)
    ensures Safe(s.table, Events(s, op), Next(s, op).table)
  {
    SafeNone(s.table);
    match op
    case Cycling(i) => CycleSafe(s, i);
    case Sending(packet, w, _) => SendSafe(s.table, Other(packet), w);
    case Resending(w, _) => SendSafe(s.table, Other(Kept(s.inflight)), w);
    case Close => CloseSafe(s);
    case Open => SafeOne(s.table, Opened, s.table);
    case _ =>
  }

  // ---- whole runs ----

  /** In every run the table holds no id twice and exactly the ids delivered and not released. */
  lemma {:induction false} RunSafe(s: State, ops: seq<Op>)
    requires Distinct(s.table) && Run(s, ops).Some?
    ensures var (s', es) := Run(s, ops).value; Safe(s.table, es, s'.table)
  {
    if ops == [] {
      SafeNone(s.table);
    } else {
      var front, op := ops[..|ops| - 1], ops[|ops| - 1];
      RunSafe(s, front);
      var (before, es) := Run(s, front).value;
      StepSafe(before, op);
      SafeChain(s.table, es, before.table, Events(before, op), Next(before, op).table);
    }
  }

  lemma {:induction false} HeldUntilReleased(ids: set<ushort>, es: seq<Event>, i: nat, id: ushort)
    requires i < |es| && Delivers(es[i], id)
    requires forall k :: i < k < |es| ==> !Releases(es[k], id)
    ensures id in HeldAfter(ids, es)
  {
    if i + 1 < |es| { HeldUntilReleased(ids, es[..|es| - 1], i, id); }
  }

  lemma {:induction false} OnceAt(ids: set<ushort>, es: seq<Event>, j: nat, id: ushort)
    requires Once(ids, es) && j < |es| && Delivers(es[j], id)
    ensures id !in HeldAfter(ids, es[..j])
  {
    if j + 1 < |es| {
      var front := es[..|es| - 1];
      OnceAt(ids, front, j, id);
      assert front[..j] == es[..j];
    }
  }

  // ---- a PUBCOMP answers a PUBREL ----

  /** What was read is a PUBREL with this id, or with none: then the id is what an uninitialised variable held. */
  predicate Asks(e: Event, id: ushort) {
    e.Received? && e.kind == PUBREL && (CarriesId(e.buf, id) || CarriesNone(e.buf))
  }

  predicate IsComp(e: Event) {
    e.Sent? && e.p.Ack? && e.p.kind == PUBCOMP
  }

  /** Every PUBCOMP that goes out whole comes right after a PUBREL for its id came in. */
  predicate Asked(es: seq<Event>) {
    forall k :: 0 <= k < |es| && IsComp(es[k]) ==> k > 0 && Asks(es[k - 1], es[k].p.id)
  }

  lemma AskedConcat(a: seq<Event>, b: seq<Event>)
    requires Asked(a) && Asked(b)
    ensures Asked(a + b)
  {
    var es := a + b;
    forall k | 0 <= k < |es| && IsComp(es[k]) ensures k > 0 && Asks(es[k - 1], es[k].p.id) {
      if k >= |a| {
        assert IsComp(b[k - |a|]);
        assert es[k - 1] == b[k - |a| - 1];
      }
    }
  }

  predicate NoComp(es: seq<Event>) {
    forall k :: 0 <= k < |es| ==> !IsComp(es[k])
  }

  lemma OnPublishNoComp(s: State, i: Input)
    ensures NoComp(OnPublish(s, i).es)
  {
    MessageNoComp(s, DecodePublish(i.buf, Unset(i.garbage)).0, i.Msg(), i);
  }

  lemma MessageNoComp(s: State, code: int, m: PublishOut, i: Input)
    ensures NoComp(OnMessage(s, code, m, i).es)
  {
  }

  lemma HandledAsked(s: State, i: Input)
    requires i.out.Packet? ==> i.out.kind == Kind(Peek(i.buf, 0))
    requires i.out.NoHeader? ==> i.out.rc <= 0
    ensures Asked(Handled(s, i).es)
  {
    if i.Type() == PUBLISH { OnPublishNoComp(Read(s, i), i); }
    else if i.Type() == PUBREL { ReleaseAsked(Read(s, i), i); }
  }

  lemma ReleaseAsked(s: State, i: Input)
    requires i.out == Packet(PUBREL)
    ensures Asked(ReadEvents(i) + OnRelease(s, PUBREL, i).es)
  {
    var e := Received(PUBREL, i.buf);
    AckReadsAs(i.buf, AckOut(0, 0, i.garbage), i.AckId());
    OneAnswerAsked(e, OnRelease(s, PUBREL, i).es, i.AckId());
  }

  lemma OneAnswerAsked(e: Event, es: seq<Event>, id: ushort)
    requires !IsComp(e) && |es| <= 1 && (es != [] ==> Asks(e, id) && (IsComp(es[0]) ==> es[0].p.id == id))
    ensures Asked([e] + es)
  {
  }

  lemma CycleAsked(s: State, i: Input)
    requires Enabled(s, Cycling(i))
    ensures Asked(Cycle(s, i).es)
  {
    var p := Handled(s, i);
    HandledAsked(s, i);
    AskedConcat(p.es, KeepAlive(p.s.alive, i).1);
    var q := WithKeepAlive(p, i);
    AskedConcat(q.es, [Closed(q.s.clean)]);
  }

  lemma {:induction false} RunAsked(s: State, ops: seq<Op>)
    requires Run(s, ops).Some?
    ensures Asked(Run(s, ops).value.1)
  {
    if ops != [] {
      var front, op := ops[..|ops| - 1], ops[|ops| - 1];
      RunAsked(s, front);
      var (before, es) := Run(s, front).value;
      if op.Cycling? { CycleAsked(before, op.input); }
      AskedConcat(es, Events(before, op));
    }
  }

  // ---- the theorem ----

  /** A PUBREL for the id came in and its PUBCOMP went out whole, or the session was cleaned. */
  predicate ReleasedAt(es: seq<Event>, k: int, id: ushort) {
    0 < k < |es| && (es[k] == Closed(true) || (es[k] == Sent(Ack(PUBCOMP, id)) && Asks(es[k - 1], id)))
  }

  /** Method B of section 4.3.3 of MQTT Version 3.1.1, on the receiving side: between two deliveries with one
      packet id, that id was released: by a PUBREL that carries it, unless one came that carries none. */
  lemma DeliveriesAreReleased(s: State, ops: seq<Op>, i: nat, j: nat, id: ushort)
    requires Distinct(s.table) && Run(s, ops).Some?
    requires i < j < |Run(s, ops).value.1|
    requires Delivers(Run(s, ops).value.1[i], id) && Delivers(Run(s, ops).value.1[j], id)
    ensures exists k :: i < k < j && ReleasedAt(Run(s, ops).value.1, k, id)
  {
    var es := Run(s, ops).value.1;
    RunAsked(s, ops);
    var k := ReleaseBetween(s, ops, es, i, j, id);
    assert ReleasedAt(es, k, id);
  }

  lemma ReleaseBetween(s: State, ops: seq<Op>, es: seq<Event>, i: nat, j: nat, id: ushort) returns (k: nat)
    requires Distinct(s.table) && Run(s, ops).Some? && es == Run(s, ops).value.1
    requires i < j < |es| && Delivers(es[i], id) && Delivers(es[j], id)
    ensures i < k < j && Releases(es[k], id)
  {
    RunSafe(s, ops);
    OnceAt(Ids(s.table), es, j, id);
    if forall k :: i < k < j ==> !Releases(es[k], id) {
      HeldUntilReleased(Ids(s.table), es[..j], i, id);
      assert false;
    }
    k :| i < k < j && Releases(es[k], id);
  }
}
