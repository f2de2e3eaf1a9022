/** However a stream is cut up, the non-blocking reader ends with what the blocking reader gives on the
    uncut stream: the same packet type, the same buffer prefix, the same bytes consumed. */
module ReaderAgreement {
  import opened Bytes
  import opened FixedHeader
  import opened RemainingLength
  import opened Transport
  import opened PacketReader
  import opened NonBlockingReader

  /** The stream `d` starts with a length field that ends within four bytes and, when the packet fits
      into `size` bytes, with the whole packet. */
  predicate Complete(d: seq<byte>, size: nat) {
    var (n, v) := Decode(d, 1);
    n <= MAX_LENGTH_BYTES && 1 + n <= |d| && v <= MAX_REMAINING_LENGTH && (FrameSize(v) <= size ==> 1 + n + v <= |d|)
  }

  /** What reading it comes to: the return code, the start of the buffer and the bytes consumed. */
  function Uncut(d: seq<byte>, size: nat): (int, seq<byte>, nat)
    requires Complete(d, size)
  {
    var (n, v) := Decode(d, 1);
    if FrameSize(v) > size then (-1, [d[0]] + Encode(v), 1 + n)
    else (Kind(d[0]), [d[0]] + Encode(v) + d[1 + n..1 + n + v], 1 + n + v)
  }

  predicate Finished(rc: int, b: seq<byte>, s: Source, d: seq<byte>)
    requires Complete(d, |b|)
  {
    var (kind, prefix, used) := Uncut(d, |b|);
    rc == kind && prefix <= b && s.data == d[used..]
  }

  // ---- one answer of the network ----

  predicate NoErrors(grants: seq<int>) {
    forall i :: 0 <= i < |grants| ==> grants[i] >= 0
  }

  /** How many of the answers bring data when there is some. */
  function Positive(grants: seq<int>): nat {
    if grants == [] then 0 else (if grants[0] > 0 then 1 else 0) + Positive(grants[1..])
  }

  /** From `s` to `s'` at least one byte was taken for each positive answer. */
  predicate Spent(s: Source, s': Source) {
    && |s'.data| <= |s.data| && |s'.grants| <= |s.grants|
    && Positive(s.grants) + |s'.data| <= Positive(s'.grants) + |s.data|
  }

  lemma GetSpends(s: Source, n: nat)
    requires NoErrors(s.grants) && n > 0 && s.data != []
    ensures var (rc, bytes, s') := Get(s, n);
      && 0 <= rc <= n && bytes == s.data[..rc] && s'.data == s.data[rc..]
      && NoErrors(s'.grants) && Spent(s, s') && (s.grants != [] ==> |s'.grants| < |s.grants|)
  {
  }

  // ---- the invariant ----

  /** The place of the reader after `c` bytes of the stream `d`. */
  predicate Along(t: Place, b: seq<byte>, d: seq<byte>, c: nat)
    requires Complete(d, |b|)
  {
    var (n, v) := Decode(d, 1);
    if t.state == 1 then Peek(b, 0) == d[0] && c == 1 + t.len && t.len < n && (t.len > 0 ==> Halfway(t, d))
    else if t.state == 2 then
      && FrameSize(v) <= |b| && c == 1 + n + t.len - (FrameSize(v) - v) && FrameSize(v) - v <= t.len
      && t.len + t.remLen == FrameSize(v)
      && b[..t.len] == [d[0]] + Encode(v) + d[1 + n..c]
    else c == 0
  }

  /** In the middle of the length: the value so far and the digits to come make up the length. */
  predicate Halfway(t: Place, d: seq<byte>) {
    t.len <= MAX_LENGTH_BYTES && t.multiplier == Pow128(t.len) &&
    var (n, v) := DecodeFrom(d, 1 + t.len, t.len);
    Decode(d, 1) == (n, t.remLen + t.multiplier * v)
  }

  predicate Under(t: Place, b: seq<byte>, s: Source, d: seq<byte>)
    requires Complete(d, |b|)
  {
    && Ready(t, |b|) && NoErrors(s.grants)
    && |s.data| <= |d| && s.data == d[|d| - |s.data|..] && Along(t, b, d, |d| - |s.data|)
  }

  // ---- the length ----

  lemma HalfwayStep(t: Place, d: seq<byte>, c: byte)
    requires t.len < MAX_LENGTH_BYTES && Halfway(t, d) && c == Peek(d, 1 + t.len)
    ensures var t' := Digit(t, c);
      && t'.len == t.len + 1
      && (c < 128 ==> Decode(d, 1) == (t'.len, t'.remLen))
      && (c >= 128 ==> Halfway(t', d) && Decode(d, 1).0 > t'.len)
  {
    DecodeStep(d, 1, t.len, t.remLen, c);
    if c >= 128 { DecodeFromCounts(d, 2 + t.len, t.len + 1); }
  }

  /** What the decoding loop must come to. */
  predicate LengthRead(r: (int, Place, Source), s: Source, d: seq<byte>) {
    var (n, v) := Decode(d, 1);
    var (rc, t', s') := r;
    && NoErrors(s'.grants) && Spent(s, s') && t'.len <= n && 1 + n <= |d| && s'.data == d[1 + t'.len..]
    && (rc == 0 ==> t'.len < n && Halfway(t', d) && (s.grants != [] ==> |s'.grants| < |s.grants|))
    && (rc != 0 ==> rc == n && t'.len == n && t'.remLen == v)
  }

  lemma LengthReadFrom(r: (int, Place, Source), s: Source, s': Source, d: seq<byte>)
    requires LengthRead(r, s', d) && Spent(s, s') && |s'.grants| < |s.grants|
    ensures LengthRead(r, s, d)
  {
  }

  lemma {:induction false} DecodeLoopAlong(t: Place, s: Source, d: seq<byte>)
    requires NoErrors(s.grants)
    requires Decode(d, 1).0 <= MAX_LENGTH_BYTES && 1 + Decode(d, 1).0 <= |d|
    requires t.len < Decode(d, 1).0 && Halfway(t, d) && s.data == d[1 + t.len..]
    ensures LengthRead(DecodeLoop(t, s), s, d)
    decreases |s.grants|
  {
    var more, t', s' := OneDigit(t, s, d);
    if more {
      DecodeLoopAlong(t', s', d);
      LengthReadFrom(DecodeLoop(t', s'), s, s', d);
    }
  }

  /** One turn of the decoding loop: it ends, or goes on from the next digit. */
  lemma OneDigit(t: Place, s: Source, d: seq<byte>) returns (more: bool, t': Place, s': Source)
    requires NoErrors(s.grants)
    requires Decode(d, 1).0 <= MAX_LENGTH_BYTES && 1 + Decode(d, 1).0 <= |d|
    requires t.len < Decode(d, 1).0 && Halfway(t, d) && s.data == d[1 + t.len..]
    ensures !more ==> LengthRead(DecodeLoop(t, s), s, d)
    ensures more ==> DecodeLoop(t, s) == DecodeLoop(t', s') && NoErrors(s'.grants) && Spent(s, s')
    ensures more ==> t'.len < Decode(d, 1).0 && Halfway(t', d) && s'.data == d[1 + t'.len..]
    ensures more ==> |s'.grants| < |s.grants|
  {
    var rc, c;
    rc, c, t', s' := LoopTurn(t, s);
    more := rc == 1 && c >= 128;
    if rc == 1 {
      assert s'.data == d[2 + t.len..] && c == d[1 + t.len];
      HalfwayStep(t, d, c);
      if !more { LengthEnds(t', s, s', d); }
    } else {
      LengthStalls(t, s, s', d);
    }
  }

  lemma LengthEnds(t: Place, s: Source, s': Source, d: seq<byte>)
    requires Decode(d, 1) == (t.len, t.remLen) && t.len > 0 && 1 + t.len <= |d| && s'.data == d[1 + t.len..]
    requires NoErrors(s'.grants) && Spent(s, s')
    ensures LengthRead((t.len, t, s'), s, d)
  {
  }

  lemma LengthStalls(t: Place, s: Source, s': Source, d: seq<byte>)
    requires t.len < Decode(d, 1).0 && 1 + Decode(d, 1).0 <= |d| && Halfway(t, d) && s'.data == d[1 + t.len..]
    requires NoErrors(s'.grants) && Spent(s, s') && (s.grants != [] ==> |s'.grants| < |s.grants|)
    ensures LengthRead((0, t, s'), s, d)
  {
  }

  /** The same as far as the loop itself goes. */
  lemma LoopTurn(t: Place, s: Source) returns (rc: int, c: byte, t': Place, s': Source)
    requires NoErrors(s.grants) && s.data != [] && t.len < MAX_LENGTH_BYTES
    ensures NoErrors(s'.grants) && Spent(s, s') && (s.grants != [] ==> |s'.grants| < |s.grants|)
    ensures rc == 0 || rc == 1
    ensures rc == 0 ==> s'.data == s.data && DecodeLoop(t, s) == (0, t, s')
    ensures rc == 1 ==> s'.data == s.data[1..] && c == s.data[0] && t' == Digit(t, c) && s.grants != []
    ensures rc == 1 && c < 128 ==> DecodeLoop(t, s) == (t'.len, t', s')
    ensures rc == 1 && c >= 128 ==> DecodeLoop(t, s) == DecodeLoop(t', s')
  {
    GetSpends(s, 1);
    rc, s' := Get(s, 1).0, Get(s, 1).2;
    c := s.data[0];
    t' := Digit(t, c);
  }

  // ---- one call ----

  /** What a call must come to. */
  predicate Steps(r: Call, s: Source, d: seq<byte>)
    requires Complete(d, |r.b|)
  {
    && Spent(s, r.s) && NoErrors(r.s.grants)
    && (r.rc == 0 ==> Under(r.t, r.b, r.s, d) && (s.grants != [] ==> |r.s.grants| < |s.grants|))
    && (r.rc != 0 ==> r.t.state == 0 && Finished(r.rc, r.b, r.s, d))
  }

  lemma BodyPrefix(t: Place, b: seq<byte>, s: Source, d: seq<byte>, k: nat)
    requires Complete(d, |b|) && t.state == 2 && Under(t, b, s, d)
    requires k <= t.remLen && k <= |s.data|
    ensures var c := |d| - |s.data|;
      var (n, v) := Decode(d, 1);
      Put(b, t.len, s.data[..k])[..t.len + k] == [d[0]] + Encode(v) + d[1 + n..c + k]
  {
  }

  lemma BodyStep(t: Place, b: seq<byte>, s: Source, d: seq<byte>)
    requires Complete(d, |b|) && t.state == 2 && Under(t, b, s, d) && Kind(d[0]) != 0
    ensures Steps(ReadBody(t, b, s), s, d)
  {
    var r := ReadBody(t, b, s);
    var k := BodyTaken(t, b, s);
    BodyStepFrom(t, b, s, d, k, r);
  }

  /** What one read of `k` bytes of the body comes to. */
  predicate Took(t: Place, b: seq<byte>, s: Source, k: nat, r: Call) {
    && k <= t.remLen && k <= |s.data| && t.len + k <= |b|
    && r.s.data == s.data[k..] && r.b == Put(b, t.len, s.data[..k])
    && (k == t.remLen ==> r.rc == Kind(Peek(r.b, 0)) && r.t.state == 0)
    && (k < t.remLen ==> r.rc == 0 && r.t == t.(remLen := t.remLen - k, len := t.len + k))
  }

  lemma BodyTaken(t: Place, b: seq<byte>, s: Source) returns (k: nat)
    requires t.state == 2 && Ready(t, |b|) && NoErrors(s.grants) && s.data != []
    ensures var r := ReadBody(t, b, s);
      && Took(t, b, s, k, r) && NoErrors(r.s.grants) && Spent(s, r.s)
      && (s.grants != [] ==> |r.s.grants| < |s.grants|)
  {
    GetSpends(s, t.remLen);
    k := Get(s, t.remLen).0;
  }

  lemma BodyStepFrom(t: Place, b: seq<byte>, s: Source, d: seq<byte>, k: nat, r: Call)
    requires Complete(d, |b|) && t.state == 2 && Under(t, b, s, d) && Kind(d[0]) != 0
    requires Took(t, b, s, k, r) && NoErrors(r.s.grants) && Spent(s, r.s)
    requires s.grants != [] ==> |r.s.grants| < |s.grants|
    ensures Steps(r, s, d)
  {
    BodyPrefix(t, b, s, d, k);
    if k == t.remLen { BodyDone(r.b, r.s, d); } else { BodyGoesOn(t, b, s, r.s, d, k); }
  }

  lemma BodyGoesOn(t: Place, b: seq<byte>, s: Source, s': Source, d: seq<byte>, k: nat)
    requires Complete(d, |b|) && t.state == 2 && Under(t, b, s, d)
    requires k < t.remLen && k <= |s.data| && s'.data == s.data[k..] && NoErrors(s'.grants)
    requires var c := |d| - |s.data|;
      var (n, v) := Decode(d, 1);
      Put(b, t.len, s.data[..k])[..t.len + k] == [d[0]] + Encode(v) + d[1 + n..c + k]
    ensures Under(t.(remLen := t.remLen - k, len := t.len + k), Put(b, t.len, s.data[..k]), s', d)
  {
  }

  lemma BodyDone(b: seq<byte>, s: Source, d: seq<byte>)
    requires Complete(d, |b|)
    requires var (n, v) := Decode(d, 1);
      && FrameSize(v) <= |b| && s.data == d[1 + n + v..]
      && b[..FrameSize(v)] == [d[0]] + Encode(v) + d[1 + n..1 + n + v]
    ensures Finished(Kind(Peek(b, 0)), b, s, d)
  {
  }

  lemma LengthGoesOn(t: Place, b: seq<byte>, s: Source, d: seq<byte>) returns (rc: int, t': Place, s': Source)
    requires Complete(d, |b|) && t.state == 1 && Under(t, b, s, d)
    ensures (rc, t', s') == DecodeNb(t, s) && LengthRead((rc, t', s'), s, d)
    ensures t'.state == 1 && Ready(t', |b|)
  {
    var t0 := if t.len == 0 then t.(multiplier := 1, remLen := 0) else t;
    assert Halfway(t0, d);
    DecodeNbBound(t, s, |b|);
    DecodeLoopAlong(t0, s, d);
    rc, t', s' := DecodeNb(t, s).0, DecodeNb(t, s).1, DecodeNb(t, s).2;
  }

  lemma LengthStep(t: Place, b: seq<byte>, s: Source, d: seq<byte>)
    requires Complete(d, |b|) && t.state == 1 && Under(t, b, s, d) && Kind(d[0]) != 0
    ensures Steps(ReadLength(t, b, s), s, d)
  {
    var rc, t', s' := LengthGoesOn(t, b, s, d);
    if rc == 0 { LengthWaits(t', b, s, s', d); }
    else { LengthDone(t'.(len := FrameSize(t'.remLen) - t'.remLen), b, s, s', d); }
  }

  lemma LengthWaits(t: Place, b: seq<byte>, s: Source, s': Source, d: seq<byte>)
    requires Complete(d, |b|) && Peek(b, 0) == d[0] && t.state == 1 && Ready(t, |b|)
    requires LengthRead((0, t, s'), s, d)
    ensures Steps(Call(0, t, b, s'), s, d)
  {
  }

  /** The length is complete: too long, empty, or on to the body. */
  lemma LengthDone(t: Place, b: seq<byte>, s: Source, s': Source, d: seq<byte>)
    requires Complete(d, |b|) && |b| >= 5 && Kind(d[0]) != 0 && b[0] == d[0]
    requires NoErrors(s'.grants) && Spent(s, s')
    requires var (n, v) := Decode(d, 1); t.remLen == v && t.len == FrameSize(v) - v && s'.data == d[1 + n..]
    ensures var b' := Put(b, 1, EncodeShort(t.remLen));
      && (FrameSize(t.remLen) > |b| ==> Finished(-1, b', s', d))
      && (FrameSize(t.remLen) <= |b| && t.remLen == 0 ==> Finished(Kind(Peek(b', 0)), b', s', d))
      && (FrameSize(t.remLen) <= |b| && t.remLen > 0 ==> Steps(ReadBody(t.(state := 2), b', s'), s, d))
  {
    var b' := Put(b, 1, EncodeShort(t.remLen));
    LengthWritten(b, b', d, t.remLen);
    if FrameSize(t.remLen) <= |b| {
      if t.remLen == 0 { BodyDone(b', s', d); }
      else { BodyStep(t.(state := 2), b', s', d); }
    }
  }

  lemma LengthWritten(b: seq<byte>, b': seq<byte>, d: seq<byte>, v: nat)
    requires v <= MAX_REMAINING_LENGTH && |b| >= 5 && d != [] && b[0] == d[0]
    requires b' == Put(b, 1, EncodeShort(v))
    ensures [d[0]] + Encode(v) <= b' && b'[..FrameSize(v) - v] == [d[0]] + Encode(v)
  {
  }

  lemma CallStep(t: Place, b: seq<byte>, s: Source, d: seq<byte>)
    requires Complete(d, |b|) && Under(t, b, s, d) && Kind(d[0]) != 0
    ensures Steps(ReadNb(t, b, s), s, d)
  {
    if t.state == 1 {
      LengthStep(t, b, s, d);
    } else if t.state == 2 {
      BodyStep(t, b, s, d);
    } else {
      HeaderStep(t, b, s, d);
    }
  }

  lemma HeaderStep(t: Place, b: seq<byte>, s: Source, d: seq<byte>)
    requires Complete(d, |b|) && t.state != 1 && t.state != 2 && Under(t, b, s, d) && Kind(d[0]) != 0
    ensures Steps(ReadNb(t, b, s), s, d)
  {
    GetSpends(s, 1);
    var (rc, h, s') := Get(s, 1);
    if rc == 1 {
      var t', b' := t.(state := 1, len := 0), Put(b, 0, h);
      HeaderTaken(t', b', s, s', d);
      LengthStep(t', b', s', d);
      StepsFrom(ReadLength(t', b', s'), s, s', d);
    }
  }

  lemma HeaderTaken(t: Place, b: seq<byte>, s: Source, s': Source, d: seq<byte>)
    requires Complete(d, |b|) && |b| >= 5 && t.state == 1 && t.len == 0 && b[0] == d[0]
    requires NoErrors(s'.grants) && s.data == d && s'.data == d[1..]
    ensures Under(t, b, s', d)
  {
  }

  // ---- all the calls ----

  /** Calling again until something comes back or the network has said its last word. */
  function Poll(t: Place, b: seq<byte>, s: Source): (r: Call)
    requires Ready(t, |b|)
    decreases |s.grants|
  {
    var r := ReadNb(t, b, s);
    ReadNbReady(t, b, s);
    if r.rc != 0 || |r.s.grants| >= |s.grants| then r else Poll(r.t, r.b, r.s)
  }

  lemma PollOnce(t: Place, b: seq<byte>, s: Source, d: seq<byte>) returns (r: Call)
    requires Complete(d, |b|) && Under(t, b, s, d) && Kind(d[0]) != 0
    ensures |r.b| == |b| && Ready(r.t, |r.b|) && Steps(r, s, d)
    ensures r.rc == 0 ==> Under(r.t, r.b, r.s, d)
    ensures Spent(s, r.s)
    ensures r.rc != 0 || |r.s.grants| >= |s.grants| ==> Poll(t, b, s) == r
    ensures !(r.rc != 0 || |r.s.grants| >= |s.grants|) ==> Poll(t, b, s) == Poll(r.t, r.b, r.s)
  {
    r := ReadNb(t, b, s);
    ReadNbReady(t, b, s);
    CallStep(t, b, s, d);
  }

  lemma {:induction false} PollSteps(t: Place, b: seq<byte>, s: Source, d: seq<byte>) returns (r: Call)
    requires Complete(d, |b|) && Under(t, b, s, d) && Kind(d[0]) != 0
    ensures r == Poll(t, b, s) && |r.b| == |b| && Steps(r, s, d)
    decreases |s.grants|
  {
    var first := PollOnce(t, b, s, d);
    if first.rc == 0 && |first.s.grants| < |s.grants| {
      r := PollSteps(first.t, first.b, first.s, d);
      StepsFrom(r, s, first.s, d);
    } else {
      r := first;
    }
  }

  lemma {:induction false} PollExhausts(t: Place, b: seq<byte>, s: Source, d: seq<byte>)
    requires Complete(d, |b|) && Under(t, b, s, d) && Kind(d[0]) != 0
    ensures Poll(t, b, s).rc != 0 || |Poll(t, b, s).s.grants| == 0
    decreases |s.grants|
  {
    var first := PollOnce(t, b, s, d);
    if first.rc == 0 && |first.s.grants| < |s.grants| { PollExhausts(first.t, first.b, first.s, d); }
  }

  lemma StepsFrom(r: Call, s: Source, s': Source, d: seq<byte>)
    requires Complete(d, |r.b|) && Steps(r, s', d) && Spent(s, s') && |s'.grants| < |s.grants|
    ensures Steps(r, s, d)
  {
  }

  lemma UnderLeavesData(t: Place, b: seq<byte>, s: Source, d: seq<byte>)
    requires Complete(d, |b|) && Under(t, b, s, d)
    ensures |d| - |s.data| < Uncut(d, |b|).2
  {
  }

  /** Whatever the cuts and the "call again" answers in between: if the calls end, they end as the uncut
      stream reads; and they do end once there are as many answers with data as there are bytes. */
  lemma NonBlockingAgrees(t: Place, b: seq<byte>, s: Source)
    requires t.state == 0 && |b| >= 5 && Complete(s.data, |b|) && Kind(s.data[0]) != 0 && NoErrors(s.grants)
    ensures var r := Poll(t, b, s);
      && (r.rc != 0 ==> r.t.state == 0 && |r.b| == |b| && Finished(r.rc, r.b, r.s, s.data))
      && (Positive(s.grants) >= Uncut(s.data, |b|).2 ==> r.rc != 0)
  {
    var r := PollSteps(t, b, s, s.data);
    PollExhausts(t, b, s, s.data);
    if r.rc == 0 { UnderLeavesData(r.t, r.b, r.s, s.data); }
  }

  // ---- the blocking reader on the uncut stream ----

  /** Every read is answered in full, `k` times at least. */
  predicate Uncutting(s: Source, k: nat) {
    |s.grants| >= k && forall i :: 0 <= i < |s.grants| ==> s.grants[i] >= |s.data|
  }

  lemma GetInFull(s: Source, n: nat, k: nat)
    requires Uncutting(s, k + 1) && n <= |s.data|
    ensures var (rc, bytes, s') := Get(s, n);
      rc == n && bytes == s.data[..n] && s'.data == s.data[n..] && Uncutting(s', k)
  {
  }

  lemma {:induction false} DecodeSourceUncut(s: Source, d: seq<byte>, k: nat)
    requires k < MAX_LENGTH_BYTES && Uncutting(s, MAX_LENGTH_BYTES - k + 1)
    requires var (n, v) := DecodeFrom(d, 1 + k, k);
      n <= MAX_LENGTH_BYTES && 1 + n <= |d| && 1 + k < |d| && s.data == d[1 + k..]
    ensures var (n, v) := DecodeFrom(d, 1 + k, k);
      var (v', s') := DecodeSource(s, k);
      v' == v && s'.data == d[1 + n..] && Uncutting(s', 1)
    decreases MAX_LENGTH_BYTES - k
  {
    GetInFull(s, 1, MAX_LENGTH_BYTES - k);
    var (rc, bytes, s') := Get(s, 1);
    if bytes[0] >= 128 {
      DecodeFromCounts(d, 2 + k, k + 1);
      DecodeSourceUncut(s', d, k + 1);
    }
  }

  lemma BlockingReadsUncut(s: Source, b: seq<byte>)
    requires |b| >= 5 && Complete(s.data, |b|) && Uncutting(s, 6)
    ensures var (out, b', s') := ReadOutcome(s, b);
      |b'| == |b| && (out.Packet? || out.TooLong?) && Finished(if out.Packet? then out.kind else -1, b', s', s.data)
  {
    hide ReadRest, Finished;
    var d := s.data;
    GetInFull(s, 1, 5);
    var (rc, h, s1) := Get(s, 1);
    DecodeFromCounts(d, 1, 0);
    DecodeSourceUncut(s1, d, 0);
    DecodeSourceBound(s1, 0);
    var (v, s2) := DecodeSource(s1, 0);
    RestReadsUncut(s2, Put(b, 0, h), d);
  }

  lemma RestReadsUncut(s: Source, b: seq<byte>, d: seq<byte>)
    requires |b| >= 5 && Complete(d, |b|) && Uncutting(s, 1) && b[0] == d[0]
    requires s.data == d[1 + Decode(d, 1).0..]
    ensures var v := Decode(d, 1).1;
      var (out, b', s') := ReadRest(v, Put(b, 1, EncodeShort(v)), s);
      |b'| == |b| && (out.Packet? || out.TooLong?) && Finished(if out.Packet? then out.kind else -1, b', s', d)
  {
    var (n, v) := Decode(d, 1);
    var b' := Put(b, 1, EncodeShort(v));
    LengthWritten(b, b', d, v);
    if FrameSize(v) <= |b| {
      if v == 0 { BodyDone(b', s, d); }
      else {
        GetInFull(s, v, 0);
        BodyWritten(b', d, s.data[..v]);
        BodyDone(Put(b', FrameSize(v) - v, s.data[..v]), Get(s, v).2, d);
      }
    }
  }

  lemma BodyWritten(b: seq<byte>, d: seq<byte>, body: seq<byte>)
    requires var (n, v) := Decode(d, 1);
      && |d| > 0 && 1 + n + v <= |d| && FrameSize(v) <= |b| && body == d[1 + n..1 + n + v]
      && b[..FrameSize(v) - v] == [d[0]] + Encode(v)
    ensures var (n, v) := Decode(d, 1);
      Put(b, FrameSize(v) - v, body)[..FrameSize(v)] == [d[0]] + Encode(v) + d[1 + n..1 + n + v]
  {
  }

  /** The two readers on the same stream, one of them cut up at will. */
  lemma ReadersAgree(t: Place, b: seq<byte>, cut: Source, whole: Source, b': seq<byte>)
    requires t.state == 0 && |b| == |b'| >= 5 && cut.data == whole.data && Complete(cut.data, |b|)
    requires Kind(cut.data[0]) != 0 && NoErrors(cut.grants) && Uncutting(whole, 6)
    requires Positive(cut.grants) >= Uncut(cut.data, |b|).2
    ensures var r := Poll(t, b, cut);
      var (out, blocking, rest) := ReadOutcome(whole, b');
      var used := Uncut(cut.data, |b|).1;
      && r.rc == (if out.Packet? then out.kind else -1) && r.s.data == rest.data && r.t.state == 0
      && |r.b| == |b| && used <= r.b && used <= blocking
  {
    NonBlockingAgrees(t, b, cut);
    BlockingReadsUncut(whole, b');
  }
}
