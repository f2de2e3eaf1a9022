/** The handler table of MQTTClient.h: `setMessageHandler`, the handler part of `cleanSession` and
    `deliverMessage`, against a bounded map from filters to handlers. */
module MessageHandlers {
  import opened Bytes
  import opened TopicMatcher

  const SUCCESS := 0
  const FAILURE := -1

  /** A callback is known by a number. */
  type Handler = nat

  /** A slot is free when its filter pointer is null; its callback may still be attached then. */
  datatype Slot = Slot(filter: Option<seq<byte>>, fp: Option<Handler>)

  /** The first slot with this filter pointer content, or the number of slots. */
  function FindSlot(slots: seq<Slot>, filter: Option<seq<byte>>): (i: nat)
    ensures i <= |slots|
    ensures i < |slots| ==> slots[i].filter == filter
    ensures forall j :: 0 <= j < i ==> slots[j].filter != filter
  {
    if slots == [] || slots[0].filter == filter then 0
    else
      assert forall j :: 1 <= j < |slots| ==> slots[j] == slots[1..][j - 1];
      1 + FindSlot(slots[1..], filter)
  }

  /** `setMessageHandler`: no handler means remove. */
  function SetHandler(slots: seq<Slot>, filter: seq<byte>, h: Option<Handler>): (int, seq<Slot>) {
    var i := FindSlot(slots, Some(filter));
    var free := FindSlot(slots, None);
    if h.None? then
      if i < |slots| then (SUCCESS, slots[i := Slot(None, None)]) else (FAILURE, slots)
    else if i < |slots| then (SUCCESS, slots[i := Slot(Some(filter), h)])
    else if free < |slots| then (SUCCESS, slots[free := Slot(Some(filter), h)])
    else (FAILURE, slots)
  }

  /** The loop over the handlers in `cleanSession`. */
  function Clean(slots: seq<Slot>): (r: seq<Slot>)
    ensures |r| == |slots|
    ensures forall i :: 0 <= i < |r| ==> r[i] == Slot(None, slots[i].fp)
  {
    seq(|slots|, i requires 0 <= i < |slots| => Slot(None, slots[i].fp))
  }

  method ClearFilters(slots: array<Slot>)
    modifies slots
    ensures slots[..] == Clean(old(slots[..]))
  {
    for i := 0 to slots.Length
      invariant forall j :: 0 <= j < i ==> slots[j] == Slot(None, old(slots[j].fp))
      invariant forall j :: i <= j < slots.Length ==> slots[j] == old(slots[j])
    {
      slots[i] := slots[i].(filter := None);
    }
    assert slots[..] == Clean(old(slots[..]));
  }

  method SetMessageHandler(slots: array<Slot>, filter: seq<byte>, h: Option<Handler>) returns (rc: int)
    modifies slots
    ensures (rc, slots[..]) == SetHandler(old(slots[..]), filter, h)
  {
    rc := FAILURE;
    var i := 0;
    // the slot that already has this filter
    while i < slots.Length
      invariant 0 <= i <= slots.Length && rc == FAILURE && slots[..] == old(slots[..])
      invariant forall j :: 0 <= j < i ==> slots[j].filter != Some(filter)
    {
      if slots[i].filter == Some(filter) {
        if h.None? { slots[i] := Slot(None, None); }
        rc := SUCCESS;
        break;
      }
      i := i + 1;
    }
    FindSlotIs(old(slots[..]), Some(filter), i);
    if h.Some? {
      // or else the first free one
      if rc == FAILURE {
        i := 0;
        while i < slots.Length
          invariant 0 <= i <= slots.Length && rc == FAILURE && slots[..] == old(slots[..])
          invariant forall j :: 0 <= j < i ==> slots[j].filter != None
        {
          if slots[i].filter == None {
            rc := SUCCESS;
            break;
          }
          i := i + 1;
        }
        FindSlotIs(old(slots[..]), None, i);
      }
      if i < slots.Length { slots[i] := Slot(Some(filter), h); }
    }
  }

  lemma FindSlotIs(slots: seq<Slot>, filter: Option<seq<byte>>, i: nat)
    requires i <= |slots| && forall j :: 0 <= j < i ==> slots[j].filter != filter
    ensures FindSlot(slots, filter) >= i && (i < |slots| && slots[i].filter == filter ==> FindSlot(slots, filter) == i)
  {
  }

  // ---- the table is a bounded map ----

  /** No filter occupies two slots, and a slot in use has its callback attached. */
  predicate Sane(slots: seq<Slot>) {
    && (forall i, j :: 0 <= i < j < |slots| && slots[i].filter.Some? ==> slots[i].filter != slots[j].filter)
    && (forall i :: 0 <= i < |slots| && slots[i].filter.Some? ==> slots[i].fp.Some?)
  }

  function Filters(slots: seq<Slot>): set<seq<byte>> {
    set i | 0 <= i < |slots| && slots[i].filter.Some? :: slots[i].filter.value
  }

  /** The bindings the table stands for. */
  function Bound(slots: seq<Slot>): map<seq<byte>, Option<Handler>> {
    map f | f in Filters(slots) :: slots[FindSlot(slots, Some(f))].fp
  }

  function InUse(slots: seq<Slot>): nat {
    if slots == [] then 0 else (if slots[0].filter.Some? then 1 else 0) + InUse(slots[1..])
  }

  /** As many filters are bound as slots are in use, so the map is full exactly when no slot is free. */
  lemma {:induction false} BoundSize(slots: seq<Slot>)
    requires Sane(slots)
    ensures |Bound(slots)| == InUse(slots) <= |slots|
    ensures InUse(slots) == |slots| <==> FindSlot(slots, None) == |slots|
  {
    FiltersSize(slots);
    assert Bound(slots).Keys == Filters(slots);
  }

  lemma {:induction false} FiltersSize(slots: seq<Slot>)
    requires Sane(slots)
    ensures |Filters(slots)| == InUse(slots) <= |slots|
    ensures InUse(slots) == |slots| <==> FindSlot(slots, None) == |slots|
  {
    if slots != [] {
      var rest := slots[1..];
      assert forall j :: 1 <= j < |slots| ==> slots[j] == rest[j - 1];
      FiltersSize(rest);
      FiltersCons(slots);
      if slots[0].filter.Some? { assert slots[0].filter.value !in Filters(rest); }
    }
  }

  lemma FiltersCons(slots: seq<Slot>)
    requires slots != []
    ensures Filters(slots) == Filters(slots[1..]) + if slots[0].filter.Some? then {slots[0].filter.value} else {}
  {
  }

  lemma BoundAt(slots: seq<Slot>, i: nat)
    requires Sane(slots) && i < |slots| && slots[i].filter.Some?
    ensures slots[i].filter.value in Bound(slots) && Bound(slots)[slots[i].filter.value] == slots[i].fp
  {
  }

  /** Writing one slot changes the map in one place. */
  lemma BoundUpdate(slots: seq<Slot>, i: nat, slot: Slot)
    requires Sane(slots) && i < |slots| && Sane(slots[i := slot])
    ensures forall f :: slots[i].filter != Some(f) && slot.filter != Some(f) ==>
      (f in Bound(slots[i := slot]) <==> f in Bound(slots))
      && (f in Bound(slots) ==> Bound(slots[i := slot])[f] == Bound(slots)[f])
    ensures slots[i].filter.Some? && slot.filter != slots[i].filter ==>
      slots[i].filter.value !in Bound(slots[i := slot])
    ensures slot.filter.Some? ==>
      slot.filter.value in Bound(slots[i := slot]) && Bound(slots[i := slot])[slot.filter.value] == slot.fp
  {
    var slots' := slots[i := slot];
    if slot.filter.Some? { BoundAt(slots', i); }
    forall f | slots[i].filter != Some(f) && slot.filter != Some(f)
      ensures f in Bound(slots') <==> f in Bound(slots)
      ensures f in Bound(slots) ==> Bound(slots')[f] == Bound(slots)[f]
    {
      if f in Bound(slots) {
        var j := FindSlot(slots, Some(f));
        assert slots'[j] == slots[j];
        BoundAt(slots', j);
      }
    }
  }

  lemma SetKeepsSane(slots: seq<Slot>, filter: seq<byte>, h: Option<Handler>)
    requires Sane(slots)
    ensures Sane(SetHandler(slots, filter, h).1)
  {
  }

  /** `setMessageHandler` is update, insertion below the capacity, or removal; a failure changes nothing. */
  lemma SetRefines(slots: seq<Slot>, filter: seq<byte>, h: Option<Handler>)
    requires Sane(slots)
    ensures var (rc, slots') := SetHandler(slots, filter, h);
      var m := Bound(slots);
      && Sane(slots') && |slots'| == |slots|
      && (h.Some? ==>
        && (rc == FAILURE <==> filter !in m && |m| == |slots|)
        && (rc == SUCCESS ==> Bound(slots') == m[filter := h]))
      && (h.None? ==> (rc == SUCCESS <==> filter in m) && Bound(slots') == m - {filter})
      && (rc != SUCCESS ==> rc == FAILURE && slots' == slots)
  {
    SetKeepsSane(slots, filter, h);
    BoundSize(slots);
    if h.None? { RemoveRefines(slots, filter); } else { AddRefines(slots, filter, h); }
  }

  lemma BoundHas(slots: seq<Slot>, filter: seq<byte>)
    ensures filter in Bound(slots) <==> FindSlot(slots, Some(filter)) < |slots|
  {
  }

  lemma RemovedMap<K, V>(m: map<K, V>, m': map<K, V>, k: K)
    requires k !in m' && forall l :: l != k ==> (l in m' <==> l in m) && (l in m ==> m'[l] == m[l])
    ensures m' == m - {k}
  {
  }

  lemma UpdatedMap<K, V>(m: map<K, V>, m': map<K, V>, k: K, v: V)
    requires k in m' && m'[k] == v && forall l :: l != k ==> (l in m' <==> l in m) && (l in m ==> m'[l] == m[l])
    ensures m' == m[k := v]
  {
  }

  lemma FreeSlotUnbinds(slots: seq<Slot>, i: nat, filter: seq<byte>)
    requires Sane(slots) && i < |slots| && slots[i].filter == Some(filter) && Sane(slots[i := Slot(None, None)])
    ensures Bound(slots[i := Slot(None, None)]) == Bound(slots) - {filter}
  {
    BoundUpdate(slots, i, Slot(None, None));
    RemovedMap(Bound(slots), Bound(slots[i := Slot(None, None)]), filter);
  }

  lemma WriteSlotBinds(slots: seq<Slot>, i: nat, filter: seq<byte>, h: Option<Handler>)
    requires Sane(slots) && i < |slots| && Sane(slots[i := Slot(Some(filter), h)])
    requires slots[i].filter == Some(filter) || slots[i].filter == None
    ensures Bound(slots[i := Slot(Some(filter), h)]) == Bound(slots)[filter := h]
  {
    BoundUpdate(slots, i, Slot(Some(filter), h));
    UpdatedMap(Bound(slots), Bound(slots[i := Slot(Some(filter), h)]), filter, h);
  }

  lemma RemoveRefines(slots: seq<Slot>, filter: seq<byte>)
    requires Sane(slots) && Sane(SetHandler(slots, filter, None).1)
    ensures var (rc, slots') := SetHandler(slots, filter, None);
      (rc == SUCCESS <==> filter in Bound(slots)) && Bound(slots') == Bound(slots) - {filter}
  {
    BoundHas(slots, filter);
    var i := FindSlot(slots, Some(filter));
    if i < |slots| { FreeSlotUnbinds(slots, i, filter); } else { RemovedMap(Bound(slots), Bound(slots), filter); }
  }

  lemma AddRefines(slots: seq<Slot>, filter: seq<byte>, h: Option<Handler>)
    requires Sane(slots) && h.Some? && Sane(SetHandler(slots, filter, h).1)
    ensures var (rc, slots') := SetHandler(slots, filter, h);
      && (rc == FAILURE <==> filter !in Bound(slots) && FindSlot(slots, None) == |slots|)
      && (rc == SUCCESS ==> Bound(slots') == Bound(slots)[filter := h])
  {
    BoundHas(slots, filter);
    var i, free := FindSlot(slots, Some(filter)), FindSlot(slots, None);
    if i < |slots| { WriteSlotBinds(slots, i, filter, h); }
    else if free < |slots| { WriteSlotBinds(slots, free, filter, h); }
  }

  // ---- whole histories ----

  datatype Edit = Set(filter: seq<byte>, h: Option<Handler>) | Reset

  function Apply(edits: seq<Edit>, slots: seq<Slot>): seq<Slot> {
    if edits == [] then slots
    else
      var before := Apply(edits[..|edits| - 1], slots);
      match edits[|edits| - 1]
      case Set(f, h) => SetHandler(before, f, h).1
      case Reset => Clean(before)
  }

  /** The same history on a map that takes at most `capacity` filters. */
  function ApplyMap(edits: seq<Edit>, capacity: nat): map<seq<byte>, Option<Handler>> {
    if edits == [] then map[]
    else
      var m := ApplyMap(edits[..|edits| - 1], capacity);
      match edits[|edits| - 1]
      case Set(f, h) =>
        if h.None? then m - {f} else if f in m || |m| < capacity then m[f := h] else m
      case Reset => map[]
  }

  lemma CleanRefines(slots: seq<Slot>)
    ensures Sane(Clean(slots)) && Bound(Clean(slots)) == map[]
  {
  }

  /** From a clean table, every history of set, replace, remove and clean leaves the bounded map. */
  lemma {:induction false} HistoryRefinesMap(edits: seq<Edit>, slots: seq<Slot>)
    requires forall i :: 0 <= i < |slots| ==> slots[i].filter.None?
    ensures var r := Apply(edits, slots);
      |r| == |slots| && Sane(r) && Bound(r) == ApplyMap(edits, |slots|)
  {
    if edits == [] {
      assert Bound(slots) == map[];
    } else {
      var front, last := edits[..|edits| - 1], edits[|edits| - 1];
      HistoryRefinesMap(front, slots);
      var before := Apply(front, slots);
      match last
      case Set(f, h) =>
        SetRefines(before, f, h);
        BoundSize(before);
      case Reset =>
        CleanRefines(before);
    }
  }

  // ---- delivery ----

  /** The test made for each slot. */
  predicate Hit(slot: Slot, topic: seq<byte>) {
    slot.filter.Some? && (topic == slot.filter.value || Matches(slot.filter.value, topic)) && slot.fp.Some?
  }

  /** The callbacks of the slots that are hit, in slot order. */
  function Hits(slots: seq<Slot>, topic: seq<byte>): seq<Handler> {
    if slots == [] then []
    else
      var last := slots[|slots| - 1];
      Hits(slots[..|slots| - 1], topic) + (if Hit(last, topic) then [last.fp.value] else [])
  }

  /** `deliverMessage`: the callbacks called, in order. */
  function Deliver(slots: seq<Slot>, default: Option<Handler>, topic: seq<byte>): seq<Handler> {
    var hits := Hits(slots, topic);
    if hits == [] && default.Some? then [default.value] else hits
  }

  method DeliverMessage(slots: array<Slot>, default: Option<Handler>, topic: seq<byte>)
    returns (rc: int, calls: seq<Handler>)
    ensures calls == Deliver(slots[..], default, topic)
    ensures rc == if calls == [] then FAILURE else SUCCESS
  {
    rc, calls := FAILURE, [];
    for i := 0 to slots.Length
      invariant calls == Hits(slots[..i], topic)
      invariant rc == if calls == [] then FAILURE else SUCCESS
    {
      assert slots[..i + 1][..i] == slots[..i];
      if slots[i].filter.Some? {
        var matched := IsTopicMatched(slots[i].filter.value, topic);
        if (topic == slots[i].filter.value || matched) && slots[i].fp.Some? {
          calls := calls + [slots[i].fp.value];
          rc := SUCCESS;
        }
      }
    }
    assert slots[..slots.Length] == slots[..];
    if rc == FAILURE && default.Some? {
      calls := calls + [default.value];
      rc := SUCCESS;
    }
  }

  /** Call `k` belongs to slot `at[k]`. */
  predicate Placed(slots: seq<Slot>, topic: seq<byte>, calls: seq<Handler>, at: seq<nat>) {
    |at| == |calls| && forall k :: 0 <= k < |at| ==>
      at[k] < |slots| && Hit(slots[at[k]], topic) && slots[at[k]].fp == Some(calls[k])
  }

  predicate Ascending(at: seq<nat>, bound: nat) {
    (forall j, k :: 0 <= j < k < |at| ==> at[j] < at[k]) && forall k :: 0 <= k < |at| ==> at[k] < bound
  }

  predicate Complete(slots: seq<Slot>, topic: seq<byte>, at: seq<nat>) {
    forall i :: 0 <= i < |slots| && Hit(slots[i], topic) ==> i in at
  }

  lemma PlacedGrows(front: seq<Slot>, last: Slot, topic: seq<byte>, calls: seq<Handler>, at: seq<nat>)
    requires Placed(front, topic, calls, at)
    ensures Placed(front + [last], topic, calls, at)
    ensures Hit(last, topic) ==> Placed(front + [last], topic, calls + [last.fp.value], at + [|front|])
  {
  }

  lemma CompleteGrows(front: seq<Slot>, last: Slot, topic: seq<byte>, at: seq<nat>)
    requires Complete(front, topic, at)
    ensures Complete(front + [last], topic, if Hit(last, topic) then at + [|front|] else at)
  {
  }

  /** Each slot that is hit is called exactly once, in slot order. */
  lemma {:induction false} HitsInOrder(slots: seq<Slot>, topic: seq<byte>) returns (at: seq<nat>)
    ensures Placed(slots, topic, Hits(slots, topic), at)
    ensures Ascending(at, |slots|)
    ensures Complete(slots, topic, at)
  {
    at := [];
    if slots != [] {
      var front, last := slots[..|slots| - 1], slots[|slots| - 1];
      at := HitsInOrder(front, topic);
      assert slots == front + [last];
      PlacedGrows(front, last, topic, Hits(front, topic), at);
      CompleteGrows(front, last, topic, at);
      if Hit(last, topic) { at := at + [|front|]; }
    }
  }

  /** The bound filters that match a topic level by level. */
  function Matching(slots: seq<Slot>, topic: seq<byte>): set<seq<byte>> {
    set f | f in Bound(slots) && LevelMatch(Levels(f), Levels(topic))
  }

  predicate FiltersWellFormed(slots: seq<Slot>) {
    forall f :: f in Bound(slots) ==> WellFormed(Levels(f))
  }

  /** On a sane table with well-formed filters a handler is called for a message exactly when its filter
      is bound and matches level by level; the default handler exactly when there is none. */
  lemma DeliveryByFilter(slots: seq<Slot>, default: Option<Handler>, topic: seq<byte>, h: Handler)
    requires Sane(slots) && FiltersWellFormed(slots)
    ensures h in Deliver(slots, default, topic) <==>
      (exists f :: f in Matching(slots, topic) && Bound(slots)[f] == Some(h))
      || (Matching(slots, topic) == {} && default == Some(h))
  {
    HitsByFilter(slots, topic, h);
    NoHitsNoMatch(slots, topic);
  }

  lemma HitsByFilter(slots: seq<Slot>, topic: seq<byte>, h: Handler)
    requires Sane(slots) && FiltersWellFormed(slots)
    ensures h in Hits(slots, topic) <==> exists f :: f in Matching(slots, topic) && Bound(slots)[f] == Some(h)
  {
    if h in Hits(slots, topic) {
      var k :| 0 <= k < |Hits(slots, topic)| && Hits(slots, topic)[k] == h;
      var g := CallHasFilter(slots, topic, k);
      assert g in Matching(slots, topic);
    } else if f :| f in Matching(slots, topic) && Bound(slots)[f] == Some(h) {
      FilterIsCalled(slots, topic, f);
    }
  }

  lemma NoHitsNoMatch(slots: seq<Slot>, topic: seq<byte>)
    requires Sane(slots) && FiltersWellFormed(slots)
    ensures Hits(slots, topic) == [] <==> Matching(slots, topic) == {}
  {
    if Hits(slots, topic) != [] {
      var g := CallHasFilter(slots, topic, 0);
      assert g in Matching(slots, topic);
    } else if f :| f in Matching(slots, topic) {
      FilterIsCalled(slots, topic, f);
    }
  }

  lemma FilterIsCalled(slots: seq<Slot>, topic: seq<byte>, f: seq<byte>)
    requires Sane(slots) && f in Bound(slots) && WellFormed(Levels(f)) && LevelMatch(Levels(f), Levels(topic))
    ensures Bound(slots)[f].Some? && Bound(slots)[f].value in Hits(slots, topic)
  {
    var at := HitsInOrder(slots, topic);
    var i := FindSlot(slots, Some(f));
    CursorsMatchLevels(f, topic);
    assert Hit(slots[i], topic);
    var k :| 0 <= k < |at| && at[k] == i;
    assert Hits(slots, topic)[k] == slots[i].fp.value;
  }

  lemma CallHasFilter(slots: seq<Slot>, topic: seq<byte>, k: nat) returns (f: seq<byte>)
    requires Sane(slots) && FiltersWellFormed(slots) && k < |Hits(slots, topic)|
    ensures f in Bound(slots) && LevelMatch(Levels(f), Levels(topic)) && Bound(slots)[f] == Some(Hits(slots, topic)[k])
  {
    var at := HitsInOrder(slots, topic);
    f := slots[at[k]].filter.value;
    BoundAt(slots, at[k]);
    HitIsLevelMatch(f, topic);
  }

  lemma HitIsLevelMatch(f: seq<byte>, topic: seq<byte>)
    requires WellFormed(Levels(f)) && (topic == f || Matches(f, topic))
    ensures LevelMatch(Levels(f), Levels(topic))
  {
    CursorsMatchLevels(f, topic);
    FilterMatchesItself(Levels(f));
  }
}
