/** What a client is given: a byte stream each way, cut up as the network pleases, and a clock.

    `grants` scripts the answers to the reads to come: a negative entry is an error, 0 is "nothing yet",
    and k > 0 hands over at most k bytes; when it runs out every read answers 0.  `writeGrants` does the
    same for writes.  Nothing is known about either, so what is proved holds for every behaviour. */
module Transport {
  import opened Bytes

  datatype Source = Source(data: seq<byte>, grants: seq<int>)

  /** A request for up to `n` bytes: the return code, the bytes, and the source afterwards. */
  function Get(s: Source, n: nat): (int, seq<byte>, Source) {
    if s.grants == [] then (0, [], s)
    else if s.grants[0] < 0 then (-1, [], s.(grants := s.grants[1..]))
    else
      var k := Min(s.grants[0], Min(n, |s.data|));
      (k, s.data[..k], Source(s.data[k..], s.grants[1..]))
  }

  /** Overwrite `b` with `x` from index `i` on. */
  function Put(b: seq<byte>, i: nat, x: seq<byte>): (r: seq<byte>)
    requires i + |x| <= |b|
    ensures |r| == |b|
  {
    b[..i] + x + b[i + |x|..]
  }

  /** What one answer to a write of `n` bytes lets through; no answer left means 0. */
  function WriteAnswer(grants: seq<int>, n: nat): int {
    if grants == [] then 0 else if grants[0] < 0 then -1 else Min(grants[0], n)
  }

  /** A clock as a value: what it shows, and how far it will move at each look. */
  datatype Time = Time(now: int, ticks: seq<nat>)

  /** One look at a timer that runs out at `deadline`: whether it has, and the clock afterwards. */
  function Look(t: Time, deadline: int): (bool, Time) {
    if t.ticks == [] then (true, t.(now := if t.now < deadline then deadline else t.now))
    else
      var now := t.now + t.ticks[0];
      (now >= deadline, Time(now, t.ticks[1..]))
  }

  /** What sending meets: the answers to the writes to come, and the clock. */
  datatype Env = Env(grants: seq<int>, time: Time)

  /** How much of `n` bytes goes out until `deadline`: every write asks for all that is left, and sending ends with
      an error, or when the clock, looked at after every write, is past the deadline. */
  function Push(e: Env, n: nat, deadline: int): (r: (nat, Env))
    ensures r.0 <= n
    decreases |e.time.ticks|
  {
    if n == 0 then (0, e)
    else
      var rc := WriteAnswer(e.grants, n);
      var e' := e.(grants := NextAnswers(e.grants));
      if rc < 0 then (0, e')
      else
        var (late, t) := Look(e.time, deadline);
        if late then (rc, e'.(time := t))
        else
          var (m, e'') := Push(e'.(time := t), n - rc, deadline);
          (rc + m, e'')
  }

  function NextAnswers(grants: seq<int>): seq<int> {
    if grants == [] then [] else grants[1..]
  }

  lemma PushStep(e: Env, n: nat, deadline: int)
    requires n > 0 && WriteAnswer(e.grants, n) >= 0
    ensures var (late, t) := Look(e.time, deadline);
      var next, rc := Env(NextAnswers(e.grants), t), WriteAnswer(e.grants, n);
      Push(e, n, deadline) == if late then (rc, next)
                              else (rc + Push(next, n - rc, deadline).0, Push(next, n - rc, deadline).1)
  {
  }

  lemma PushFails(e: Env, n: nat, deadline: int)
    requires n > 0 && WriteAnswer(e.grants, n) < 0
    ensures Push(e, n, deadline) == (0, e.(grants := NextAnswers(e.grants)))
  {
  }

  /** The last answer that was used up was an error. */
  predicate Refused(grants: seq<int>, left: seq<int>) {
    |left| < |grants| && grants[|grants| - |left| - 1] < 0
  }

  /** `left` is what is left of `s` when some of it was used up. */
  predicate LeftOf<T(==)>(s: seq<T>, left: seq<T>) {
    |left| <= |s| && left == s[|s| - |left|..]
  }

  /** Time has passed, and some answers were used. */
  predicate Later(e: Env, e': Env) {
    e.time.now <= e'.time.now && LeftOf(e.time.ticks, e'.time.ticks) && LeftOf(e.grants, e'.grants)
  }

  lemma LeftOfChain<T>(a: seq<T>, b: seq<T>, c: seq<T>)
    requires LeftOf(a, b) && LeftOf(b, c)
    ensures LeftOf(a, c)
  {
  }

  lemma LaterChain(a: Env, b: Env, c: Env)
    requires Later(a, b) && Later(b, c)
    ensures Later(a, c)
  {
    LeftOfChain(a.time.ticks, b.time.ticks, c.time.ticks);
    LeftOfChain(a.grants, b.grants, c.grants);
  }

  lemma LookIsLater(e: Env, deadline: int)
    ensures var (late, t) := Look(e.time, deadline);
      Later(e, e.(time := t)) && (late <==> t.now >= deadline) && (!late ==> |t.ticks| < |e.time.ticks|)
  {
  }

  /** Sending stops short only for an error or because the deadline has passed. */
  lemma {:induction false} PushEnds(e: Env, n: nat, deadline: int)
    ensures var (m, e') := Push(e, n, deadline);
      Later(e, e') && (m < n ==> e'.time.now >= deadline || Refused(e.grants, e'.grants))
    decreases |e.time.ticks|
  {
    var left := e.(grants := NextAnswers(e.grants));
    var (late, t) := Look(e.time, deadline);
    LookIsLater(e, deadline);
    if n > 0 && WriteAnswer(e.grants, n) >= 0 && !late {
      var next := left.(time := t);
      PushEnds(next, n - WriteAnswer(e.grants, n), deadline);
      LaterChain(e, next, Push(next, n - WriteAnswer(e.grants, n), deadline).1);
    }
  }

  /** The next `n` looks come before the deadline. */
  predicate Early(t: Time, n: nat, deadline: int)
    decreases n
  {
    n == 0 || (!Look(t, deadline).0 && Early(Look(t, deadline).1, n - 1, deadline))
  }

  /** A network that lets something through at every write, in time, lets everything through. */
  lemma {:induction false} WillingNetwork(e: Env, n: nat, deadline: int)
    requires n <= |e.grants| && (forall k :: 0 <= k < n ==> e.grants[k] > 0) && Early(e.time, n, deadline)
    ensures Push(e, n, deadline).0 == n
    decreases |e.time.ticks|
  {
    if n > 0 {
      var t := Look(e.time, deadline).1;
      var m := n - WriteAnswer(e.grants, n);
      EarlyLess(t, m, n - 1, deadline);
      WillingNetwork(Env(e.grants[1..], t), m, deadline);
    }
  }

  lemma {:induction false} EarlyLess(t: Time, m: nat, n: nat, deadline: int)
    requires m <= n && Early(t, n, deadline)
    ensures Early(t, m, deadline)
    decreases n
  {
    if m > 0 { EarlyLess(Look(t, deadline).1, m - 1, n - 1, deadline); }
  }

  /** Timers count milliseconds, `countdown` takes seconds. */
  function Seconds(n: nat): nat {
    1000 * n
  }

  class Network {
    var data: seq<byte>
    var grants: seq<int>
    var writeGrants: seq<int>
    var wire: seq<byte>

    constructor (data: seq<byte>, grants: seq<int>, writeGrants: seq<int>)
      ensures Incoming() == Source(data, grants) && this.writeGrants == writeGrants && wire == []
    {
      this.data, this.grants, this.writeGrants, wire := data, grants, writeGrants, [];
    }

    function Incoming(): Source
      reads this`data, this`grants
    {
      Source(data, grants)
    }

    method Read(buf: array<byte>, off: nat, n: nat) returns (rc: int)
      requires off + n <= buf.Length
      modifies this`data, this`grants, buf
      ensures var (k, bytes, s) := Get(old(Incoming()), n);
        rc == k && Incoming() == s && buf[..] == Put(old(buf[..]), off, bytes)
    {
      if grants == [] {
        assert buf[..] == Put(buf[..], off, []);
        return 0;
      }
      if grants[0] < 0 {
        grants := grants[1..];
        assert buf[..] == Put(buf[..], off, []);
        return -1;
      }
      rc := Min(grants[0], Min(n, |data|));
      forall i | 0 <= i < rc { buf[off + i] := data[i]; }
      assert buf[..] == Put(old(buf[..]), off, old(data[..rc]));
      data, grants := data[rc..], grants[1..];
    }

    /** Whatever the answer, exactly the bytes it counts are on the wire. */
    method Write(buf: array<byte>, off: nat, n: nat) returns (rc: int)
      requires off + n <= buf.Length
      modifies this`wire, this`writeGrants
      ensures rc == WriteAnswer(old(writeGrants), n) <= n && writeGrants == NextAnswers(old(writeGrants))
      ensures wire == old(wire) + if rc > 0 then buf[off..off + rc] else []
    {
      rc := WriteAnswer(writeGrants, n);
      if writeGrants != [] { writeGrants := writeGrants[1..]; }
      if rc > 0 { wire := wire + buf[off..off + rc]; }
    }
  }

  /** A clock that never goes back.  `ticks` scripts how far it moves between two looks; after the script
      it has moved past every deadline. */
  class Clock {
    var now: int
    var ticks: seq<nat>

    constructor (now: int, ticks: seq<nat>)
      ensures this.now == now && this.ticks == ticks
    {
      this.now, this.ticks := now, ticks;
    }

    function Value(): Time
      reads this
    {
      Time(now, ticks)
    }

    /** `Timer::expired` for a timer that runs out at `deadline`. */
    method Expired(deadline: int) returns (r: bool)
      modifies this
      ensures (r, Value()) == Look(old(Value()), deadline)
      ensures now >= old(now) && (r <==> now >= deadline)
      ensures |ticks| <= |old(ticks)| && (!r ==> |ticks| < |old(ticks)|)
    {
      if ticks == [] {
        if now < deadline { now := deadline; }
      } else {
        now, ticks := now + ticks[0], ticks[1..];
      }
      r := now >= deadline;
    }
  }
}
