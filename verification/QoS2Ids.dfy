/** The table of incoming QoS 2 packet ids in MQTTClient.h: a set of non-zero ids kept in an array whose
    free places hold 0. */
module QoS2Ids {
  import opened Bytes

  function Find(t: seq<ushort>, id: ushort): (i: nat)
    ensures i <= |t|
    ensures i < |t| ==> t[i] == id
    ensures forall j :: 0 <= j < i ==> t[j] != id
  {
    if t == [] || t[0] == id then 0
    else
      assert forall j :: 1 <= j < |t| ==> t[j] == t[1..][j - 1];
      1 + Find(t[1..], id)
  }

  function Use(t: seq<ushort>, id: ushort): (bool, seq<ushort>) {
    var i := Find(t, 0);
    if i < |t| then (true, t[i := id]) else (false, t)
  }

  function Free(t: seq<ushort>, id: ushort): seq<ushort> {
    var i := Find(t, id);
    if i < |t| then t[i := 0] else t
  }

  /** No id is in the table twice. */
  predicate Distinct(t: seq<ushort>) {
    forall i, j :: 0 <= i < j < |t| && t[i] != 0 ==> t[i] != t[j]
  }

  lemma UseAdds(t: seq<ushort>, id: ushort)
    requires Distinct(t) && id !in t
    ensures Distinct(Use(t, id).1) && |Use(t, id).1| == |t|
    ensures Use(t, id).0 <==> 0 in t
    ensures 0 in t ==> forall k: ushort :: k != 0 ==> (k in Use(t, id).1 <==> k in t || k == id)
    ensures 0 !in t ==> Use(t, id).1 == t
  {
    var i, t' := Find(t, 0), Use(t, id).1;
    forall k: ushort | k != 0 && i < |t| ensures k in t' <==> k in t || k == id {
      if k in t {
        var j :| 0 <= j < |t| && t[j] == k;
        assert t'[j] == k;
      }
      assert t'[i] == id;
    }
  }

  /** Clearing the first match is enough to remove an id, because there is no second. */
  lemma FreeRemoves(t: seq<ushort>, id: ushort)
    requires Distinct(t)
    ensures Distinct(Free(t, id)) && |Free(t, id)| == |t|
    ensures id != 0 ==> forall k: ushort :: k != 0 ==> (k in Free(t, id) <==> k in t && k != id)
    ensures id == 0 ==> Free(t, id) == t
  {
  }

  function Ids(t: seq<ushort>): set<ushort> {
    set i | 0 <= i < |t| && t[i] != 0 :: t[i]
  }

  lemma IdsIn(t: seq<ushort>, id: ushort)
    ensures id in Ids(t) <==> id != 0 && id in t
  {
  }

  /** `useQoS2msgid` on a new id adds that id to the set, when there is room. */
  lemma UseIds(t: seq<ushort>, id: ushort)
    requires Distinct(t) && id !in t && Use(t, id).0
    ensures id != 0 && Ids(Use(t, id).1) == Ids(t) + {id}
  {
    var t' := Use(t, id).1;
    UseAdds(t, id);
    forall k: ushort ensures k in Ids(t') <==> k in Ids(t) + {id} {
      IdsIn(t, k);
      IdsIn(t', k);
    }
  }

  /** `freeQoS2msgid` takes its id out of the set. */
  lemma FreeIds(t: seq<ushort>, id: ushort)
    requires Distinct(t)
    ensures Ids(Free(t, id)) == Ids(t) - {id}
  {
    var t' := Free(t, id);
    FreeRemoves(t, id);
    forall k: ushort ensures k in Ids(t') <==> k in Ids(t) - {id} {
      IdsIn(t, k);
      IdsIn(t', k);
    }
  }

  /** A table without a free place holds as many ids as it has places. */
  lemma {:induction false} FullTable(t: seq<ushort>)
    requires Distinct(t) && 0 !in t
    ensures |Ids(t)| == |t|
  {
    if t == [] {
      assert Ids(t) == {};
    } else {
      var rest := t[1..];
      assert forall j :: 1 <= j < |t| ==> t[j] == rest[j - 1];
      FullTable(rest);
      assert Ids(t) == Ids(rest) + {t[0]} by {
        forall k | k in Ids(t) ensures k in Ids(rest) + {t[0]} {
          var i :| 0 <= i < |t| && t[i] == k && k != 0;
          if i > 0 { assert rest[i - 1] == k; }
        }
      }
      assert t[0] !in Ids(rest);
    }
  }

  // ---- the loops ----

  method IsQoS2MsgIdFree(table: array<ushort>, id: ushort) returns (r: bool)
    ensures r <==> id !in table[..]
  {
    for i := 0 to table.Length
      invariant forall j :: 0 <= j < i ==> table[j] != id
    {
      if table[i] == id { return false; }
    }
    r := true;
  }

  method UseQoS2MsgId(table: array<ushort>, id: ushort) returns (r: bool)
    modifies table
    ensures (r, table[..]) == Use(old(table[..]), id)
  {
    for i := 0 to table.Length
      invariant table[..] == old(table[..])
      invariant forall j :: 0 <= j < i ==> table[j] != 0
    {
      if table[i] == 0 {
        FindIs(table[..], 0, i);
        table[i] := id;
        return true;
      }
    }
    r := false;
  }

  method FreeQoS2MsgId(table: array<ushort>, id: ushort)
    modifies table
    ensures table[..] == Free(old(table[..]), id)
  {
    for i := 0 to table.Length
      invariant table[..] == old(table[..])
      invariant forall j :: 0 <= j < i ==> table[j] != id
    {
      if table[i] == id {
        FindIs(table[..], id, i);
        table[i] := 0;
        return;
      }
    }
  }

  lemma FindIs(t: seq<ushort>, id: ushort, i: nat)
    requires i < |t| && t[i] == id && forall j :: 0 <= j < i ==> t[j] != id
    ensures Find(t, id) == i
  {
  }

  // ---- packet ids ----

  /** `PacketId::getNext`. */
  function NextId(n: ushort): (r: ushort)
    ensures r > 0
  {
    if n == 65535 then 1 else n + 1
  }

  /** The `k`-th id handed out after `n`. */
  function IdAfter(n: ushort, k: nat): ushort {
    if k == 0 then n else NextId(IdAfter(n, k - 1))
  }

  lemma {:induction false} IdAfterIs(n: ushort, k: nat)
    requires k > 0
    ensures IdAfter(n, k) == (n + k - 1) % 65535 + 1
  {
    if k == 1 {
      assert IdAfter(n, 0) == n;
    } else {
      IdAfterIs(n, k - 1);
      assert (n + k - 1) % 65535 == ((n + k - 2) % 65535 + 1) % 65535;
    }
  }

  /** Which of the next 65535 ids is `id`. */
  function Turn(n: ushort, id: ushort): (k: nat)
    requires id > 0
    ensures 1 <= k <= 65535
  {
    if id > n then id - n else id - n + 65535
  }

  lemma TurnHits(n: ushort, id: ushort)
    requires id > 0
    ensures IdAfter(n, Turn(n, id)) == id
  {
    var k: int := Turn(n, id);
    IdAfterIs(n, k);
  }

  /** Any 65535 ids in a row are the ids 1 to 65535, each once. */
  lemma PacketIdsPermute(n: ushort)
    ensures forall j, k :: 1 <= j < k <= 65535 ==> IdAfter(n, j) != IdAfter(n, k)
    ensures forall id: ushort :: id > 0 ==> IdAfter(n, Turn(n, id)) == id
  {
    forall j, k | 1 <= j < k <= 65535 ensures IdAfter(n, j) != IdAfter(n, k) {
      IdAfterIs(n, j);
      IdAfterIs(n, k);
    }
    forall id: ushort | id > 0 ensures IdAfter(n, Turn(n, id)) == id {
      TurnHits(n, id);
    }
  }
}
