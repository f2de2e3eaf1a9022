/** `isTopicMatched` of MQTTClient.h: one pass over filter and name with two cursors, against matching
    level by level and against section 4.7.1 of MQTT Version 3.1.1. */
module TopicMatcher {
  import opened Bytes

  const SLASH: byte := 47
  const PLUS: byte := 43
  const HASH: byte := 35

  // ---- the two cursors ----

  /** What the cursors make of the rest of the filter and the rest of the name. */
  predicate Matches(f: seq<byte>, n: seq<byte>) {
    if f == [] || n == [] then f == [] && n == []
    else if n[0] == SLASH && f[0] != SLASH then false
    else if f[0] != PLUS && f[0] != HASH && f[0] != n[0] then false
    else if f[0] == PLUS then Matches(f[1..], n[LevelLength(n)..])
    else if f[0] == HASH then Matches(f[1..], [])
    else Matches(f[1..], n[1..])
  }

  /** The number of bytes before the first separator. */
  function LevelLength(s: seq<byte>): (k: nat)
    ensures k <= |s|
  {
    if s == [] || s[0] == SLASH then 0 else 1 + LevelLength(s[1..])
  }

  method IsTopicMatched(filter: seq<byte>, name: seq<byte>) returns (r: bool)
    ensures r == Matches(filter, name)
  {
    var f: nat, n: nat := 0, 0;
    assert filter[0..] == filter && name[0..] == name;
    while f < |filter| && n < |name|
      invariant f <= |filter| && n <= |name|
      invariant Matches(filter[f..], name[n..]) == Matches(filter, name)
    {
      if name[n] == SLASH && filter[f] != SLASH { break; }
      if filter[f] != PLUS && filter[f] != HASH && filter[f] != name[n] { break; }
      CursorStep(filter, name, f, n);
      if filter[f] == PLUS {
        n := LastOfLevel(name, n);
      } else if filter[f] == HASH {
        n := |name| - 1;
      }
      f := f + 1;
      n := n + 1;
    }
    r := n == |name| && f == |filter|;
  }

  lemma CursorStep(filter: seq<byte>, name: seq<byte>, f: nat, n: nat)
    requires f < |filter| && n < |name|
    requires !(name[n] == SLASH && filter[f] != SLASH)
    requires filter[f] == PLUS || filter[f] == HASH || filter[f] == name[n]
    ensures Matches(filter[f..], name[n..]) == Matches(filter[f + 1..],
      if filter[f] == PLUS then name[n + LevelLength(name[n..])..]
      else if filter[f] == HASH then name[|name|..] else name[n + 1..])
  {
  }

  /** The inner loop: skip to the last byte of the level that starts at or before `start`. */
  method LastOfLevel(name: seq<byte>, start: nat) returns (n: nat)
    requires start < |name| && name[start] != SLASH
    ensures n < |name| && n + 1 == start + LevelLength(name[start..])
  {
    n := start;
    var next := n + 1;
    assert name[start..][1..] == name[start + 1..];
    while next < |name| && name[next] != SLASH
      invariant next == n + 1 <= |name|
      invariant next + LevelLength(name[next..]) == start + LevelLength(name[start..])
    {
      assert name[next..][1..] == name[next + 1..];
      n := n + 1;
      next := n + 1;
    }
  }

  // ---- level by level ----

  function Levels(s: seq<byte>): (ls: seq<seq<byte>>)
    ensures ls != []
    decreases |s|
  {
    var k := LevelLength(s);
    if k == |s| then [s] else [s[..k]] + Levels(s[k + 1..])
  }

  predicate Literal(level: seq<byte>) {
    level == [] || (level[0] != PLUS && level[0] != HASH && Literal(level[1..]))
  }

  /** Section 4.7.1: `+` stands alone in its level, `#` stands alone in the last one. */
  predicate WellFormed(fs: seq<seq<byte>>) {
    fs == [] || ((Literal(fs[0]) || fs[0] == [PLUS] || (fs[0] == [HASH] && |fs| == 1)) && WellFormed(fs[1..]))
  }

  /** A literal level equals its partner, `+` takes one non-empty level, a final `#` takes all the
      levels left, at least one, the first of them non-empty. */
  predicate LevelMatch(fs: seq<seq<byte>>, ns: seq<seq<byte>>) {
    if fs == [] then ns == []
    else if ns == [] then false
    else if fs[0] == [HASH] then ns[0] != []
    else (if fs[0] == [PLUS] then ns[0] != [] else fs[0] == ns[0]) && LevelMatch(fs[1..], ns[1..])
  }

  lemma {:induction false} LiteralLevel(f: seq<byte>, n: seq<byte>)
    requires Literal(f[..LevelLength(f)])
    ensures Matches(f, n) <==>
      f[..LevelLength(f)] == n[..LevelLength(n)] && Matches(f[LevelLength(f)..], n[LevelLength(n)..])
  {
    var k, m := LevelLength(f), LevelLength(n);
    if k > 0 && m > 0 && f[0] == n[0] {
      var f', n' := f[1..], n[1..];
      assert f[..k][1..] == f'[..k - 1] && f'[k - 1..] == f[k..];
      assert f[..k] == [f[0]] + f'[..k - 1] && n[..m] == [n[0]] + n'[..m - 1] && n'[m - 1..] == n[m..];
      LiteralLevel(f', n');
    } else if k > 0 || m > 0 {
      assert k > 0 ==> f[..k][0] == f[0];
      assert m > 0 ==> n[..m][0] == n[0];
    }
  }

  lemma {:induction false} LevelLengthStops(s: seq<byte>)
    ensures LevelLength(s) < |s| ==> s[LevelLength(s)] == SLASH
  {
    if s != [] && s[0] != SLASH { LevelLengthStops(s[1..]); }
  }

  /** After a level both cursors are at an end or at a separator. */
  lemma SeparatorStep(f: seq<byte>, n: seq<byte>)
    requires (f == [] || f[0] == SLASH) && (n == [] || n[0] == SLASH)
    ensures Matches(f, n) <==> (f == [] <==> n == []) && (f != [] && n != [] ==> Matches(f[1..], n[1..]))
  {
  }

  lemma FirstLevel(f: seq<byte>, n: seq<byte>)
    requires WellFormed(Levels(f)) && Levels(f)[0] != [HASH]
    ensures var k, m := LevelLength(f), LevelLength(n);
      Matches(f, n) <==>
        (if f[..k] == [PLUS] then m > 0 else f[..k] == n[..m]) && Matches(f[k..], n[m..])
  {
    var k := LevelLength(f);
    assert Levels(f)[0] == f[..k];
    if f[..k] == [PLUS] {
      assert f[0] == f[..k][0];
    } else {
      LiteralLevel(f, n);
    }
  }

  /** For every well-formed filter and every name, the cursors decide what matching by levels says. */
  lemma {:induction false} CursorsMatchLevels(f: seq<byte>, n: seq<byte>)
    requires WellFormed(Levels(f))
    ensures Matches(f, n) == LevelMatch(Levels(f), Levels(n))
    decreases |f|
  {
    var k, m := LevelLength(f), LevelLength(n);
    LevelLengthStops(f);
    LevelLengthStops(n);
    LevelsHead(n);
    if Levels(f)[0] == [HASH] {
      assert f == [HASH];
    } else {
      FirstLevel(f, n);
      SeparatorStep(f[k..], n[m..]);
      assert k < |f| ==> f[k..][1..] == f[k + 1..];
      assert m < |n| ==> n[m..][1..] == n[m + 1..];
      if k < |f| && m < |n| { CursorsMatchLevels(f[k + 1..], n[m + 1..]); }
    }
  }

  lemma LevelsHead(s: seq<byte>)
    ensures var k := LevelLength(s);
      Levels(s)[0] == s[..k] && Levels(s)[1..] == if k == |s| then [] else Levels(s[k + 1..])
  {
  }

  // ---- against the standard ----

  /** Section 4.7.1 itself: `#` also matches the parent level and empty levels, `+` an empty level. */
  predicate Standard(fs: seq<seq<byte>>, ns: seq<seq<byte>>) {
    if fs == [] then ns == []
    else if fs[0] == [HASH] then true
    else ns != [] && (fs[0] == [PLUS] || fs[0] == ns[0]) && Standard(fs[1..], ns[1..])
  }

  /** No wildcard of the filter faces an empty or missing level of the name. */
  predicate WildcardsFaceText(fs: seq<seq<byte>>, ns: seq<seq<byte>>) {
    fs == [] ||
    if fs[0] == [HASH] then ns != [] && ns[0] != []
    else ns == [] || ((fs[0] == [PLUS] ==> ns[0] != []) && WildcardsFaceText(fs[1..], ns[1..]))
  }

  lemma {:induction false} LevelMatchIsStandard(fs: seq<seq<byte>>, ns: seq<seq<byte>>)
    ensures LevelMatch(fs, ns) <==> Standard(fs, ns) && WildcardsFaceText(fs, ns)
  {
    if fs != [] && ns != [] && fs[0] != [HASH] { LevelMatchIsStandard(fs[1..], ns[1..]); }
  }

  /** The code is sound for section 4.7.1, and misses exactly the matches in which a wildcard faces an
      empty or missing level. */
  lemma MatcherAgainstStandard(f: seq<byte>, n: seq<byte>)
    requires WellFormed(Levels(f))
    ensures Matches(f, n) <==> Standard(Levels(f), Levels(n)) && WildcardsFaceText(Levels(f), Levels(n))
  {
    CursorsMatchLevels(f, n);
    LevelMatchIsStandard(Levels(f), Levels(n));
  }

  predicate NoEmptyLevel(ns: seq<seq<byte>>) {
    ns == [] || (ns[0] != [] && NoEmptyLevel(ns[1..]))
  }

  lemma {:induction false} NonEmptyLevelsFaceText(fs: seq<seq<byte>>, ns: seq<seq<byte>>)
    requires NoEmptyLevel(ns) && |fs| <= |ns|
    ensures WildcardsFaceText(fs, ns)
  {
    if fs != [] { NonEmptyLevelsFaceText(fs[1..], ns[1..]); }
  }

  lemma MatcherComplete(f: seq<byte>, n: seq<byte>)
    requires WellFormed(Levels(f)) && NoEmptyLevel(Levels(n)) && |Levels(f)| <= |Levels(n)|
    ensures Matches(f, n) == Standard(Levels(f), Levels(n))
  {
    MatcherAgainstStandard(f, n);
    NonEmptyLevelsFaceText(Levels(f), Levels(n));
  }

  /** "a/#" should match "a", and "+" the empty level before "/": the code matches neither. */
  lemma StandardMatchesMissed()
    ensures Standard(Levels([97, SLASH, HASH]), Levels([97])) && !Matches([97, SLASH, HASH], [97])
    ensures Standard(Levels([PLUS, SLASH]), Levels([SLASH])) && !Matches([PLUS, SLASH], [SLASH])
  {
    SingleLevel(97);
    SingleLevel(HASH);
    TwoLevels(97, HASH);
    var g: seq<byte> := [PLUS, SLASH];
    assert g[1..] == [SLASH] && g[..1] == [PLUS] && g[2..] == [];
    var h: seq<byte> := [SLASH];
    assert h[1..] == [] && h[..0] == [];
    assert LevelLength(g) == 1 && LevelLength(h) == 0;
    assert Levels(g) == [[PLUS]] + Levels([]) && Levels(h) == [[]] + Levels([]);
    assert Levels(g)[1..] == Levels([]) && Levels(h)[1..] == Levels([]);
  }

  lemma SingleLevel(c: byte)
    requires c != SLASH
    ensures Levels([c]) == [[c]]
  {
  }

  lemma TwoLevels(c: byte, d: byte)
    requires c != SLASH && d != SLASH
    ensures Levels([c, SLASH, d]) == [[c], [d]] && Levels([c, SLASH, d])[1..] == [[d]]
  {
    var s: seq<byte> := [c, SLASH, d];
    assert s[1..] == [SLASH, d] && s[..1] == [c] && s[2..] == [d];
    assert LevelLength(s) == 1;
    SingleLevel(d);
  }

  /** The extra equality test of `deliverMessage` adds nothing for a well-formed filter. */
  lemma {:induction false} FilterMatchesItself(fs: seq<seq<byte>>)
    requires WellFormed(fs)
    ensures LevelMatch(fs, fs)
  {
    if fs != [] { FilterMatchesItself(fs[1..]); }
  }
}
