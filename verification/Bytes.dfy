/** Bytes, buffers and the field readers and writers of MQTTPacket.c.

    A buffer is an `array<byte>`; a C pointer into it is an index.  Reading past the end of a
    buffer is undefined in C; here `Peek` gives 0, so that every reader is total. */
module Bytes {

  type byte = b: int | 0 <= b < 256
  type ushort = n: int | 0 <= n < 65536

  datatype Option<+T> = None | Some(value: T)

  function Peek(b: seq<byte>, i: int): byte {
    if 0 <= i < |b| then b[i] else 0
  }

  function Zeros(n: nat): (s: seq<byte>)
    ensures |s| == n
  {
    if n == 0 then [] else [0] + Zeros(n - 1)
  }

  /** The `n` bytes that start at index `i`. */
  function Slice(b: seq<byte>, i: nat, n: nat): (s: seq<byte>)
    ensures |s| == n
  {
    if i + n <= |b| then b[i..i + n]
    else if i <= |b| then b[i..] + Zeros(i + n - |b|)
    else Zeros(n)
  }

  /** `readInt`: two bytes, most significant first. */
  function Int16At(b: seq<byte>, i: int): ushort {
    256 * Peek(b, i) + Peek(b, i + 1)
  }

  /** `writeInt`: the two casts to `unsigned char` drop everything above 16 bits. */
  function EncodeInt(n: nat): seq<byte> {
    [n / 256 % 256, n % 256]
  }

  function EncodeString(s: seq<byte>): seq<byte> {
    EncodeInt(|s|) + s
  }

  /** `readMQTTLenString` with the read position and the end of the data: the string and the new
      position, or nothing when the data is too short. */
  function StringAt(b: seq<byte>, i: nat, end: int): Option<(seq<byte>, nat)> {
    if end - i > 1 then
      var n := Int16At(b, i);
      if i + 2 + n <= end then Some((Slice(b, i + 2, n), i + 2 + n)) else None
    else None
  }

  /** The same on the remaining bytes themselves: the string at their front and what follows it. */
  function TakeString(s: seq<byte>): Option<(seq<byte>, seq<byte>)> {
    if |s| > 1 && 2 + Int16At(s, 0) <= |s| then
      Some((s[2..2 + Int16At(s, 0)], s[2 + Int16At(s, 0)..]))
    else None
  }

  /** `readChar` gives a plain `char`, taken as signed. */
  function CharAt(b: seq<byte>, i: int): int {
    var c := Peek(b, i);
    if c < 128 then c else c - 256
  }

  /** The bytes from a cursor to the end of the data. */
  function Rest(b: seq<byte>, cur: nat, end: int): seq<byte> {
    if cur >= end then [] else Slice(b, cur, end - cur)
  }

  /** `MQTTString`: a C string, a counted string or the all-null initializer. */
  datatype MqttString = Null | CString(text: seq<byte>) | Counted(data: seq<byte>)
  {
    function Content(): seq<byte> {
      match this
      case Null => []
      case CString(text) => text
      case Counted(data) => data
    }
  }

  lemma Joined<T>(x: seq<T>, y: seq<T>, z: seq<T>)
    ensures (x + y) + z == x + (y + z)
  {
  }

  /** The data of a string whose bytes did not fit: `readMQTTLenString` has stored the length `n`, when there
      was room for it, but the data is still what it was before; past that data it reads as zeros. */
  function HalfRead(prev: seq<byte>, room: int, n: nat): seq<byte> {
    if room > 1 then Slice(prev, 0, n) else prev
  }

  /** The same for an `MQTTString`, which also loses its C string. */
  function HalfString(prev: MqttString, s: seq<byte>): MqttString {
    if |s| > 1 then Counted(HalfRead(if prev.Counted? then prev.data else [], |s|, Int16At(s, 0)))
    else if prev.Counted? then prev else Null
  }

  function Min(a: int, b: int): int {
    if a < b then a else b
  }

  predicate At(b: seq<byte>, i: nat, field: seq<byte>) {
    i + |field| <= |b| && b[i..i + |field|] == field
  }

  lemma AtParts(b: seq<byte>, i: nat, x: seq<byte>, y: seq<byte>)
    ensures At(b, i, x + y) <==> At(b, i, x) && At(b, i + |x|, y)
  {
    if i + |x| + |y| <= |b| {
      var whole := b[i..i + |x + y|];
      assert whole[..|x|] == b[i..i + |x|] && whole[|x|..] == b[i + |x|..i + |x| + |y|];
      assert whole == whole[..|x|] + whole[|x|..];
      assert (x + y)[..|x|] == x && (x + y)[|x|..] == y;
    }
  }

  lemma ByteAt(b: seq<byte>, i: nat, c: byte)
    requires At(b, i, [c])
    ensures Peek(b, i) == c
  {
  }

  lemma Int16RoundTrip(b: seq<byte>, i: nat, n: ushort)
    requires At(b, i, EncodeInt(n))
    ensures Int16At(b, i) == n
  {
  }

  lemma StringRoundTrip(b: seq<byte>, i: nat, end: int, s: seq<byte>)
    requires |s| < 65536
    requires At(b, i, EncodeString(s))
    requires i + 2 + |s| <= end
    ensures StringAt(b, i, end) == Some((s, i + 2 + |s|))
  {
    AtParts(b, i, EncodeInt(|s|), s);
    Int16RoundTrip(b, i, |s|);
  }

  lemma TakeStringRoundTrip(x: seq<byte>, y: seq<byte>)
    requires |x| < 65536
    ensures TakeString(EncodeString(x) + y) == Some((x, y))
  {
  }

  lemma {:induction false} ZerosAt(n: nat, k: nat)
    requires k < n
    ensures Zeros(n)[k] == 0
  {
    if k > 0 { ZerosAt(n - 1, k - 1); }
  }

  lemma SliceAt(b: seq<byte>, i: nat, n: nat, k: nat)
    requires k < n
    ensures Slice(b, i, n)[k] == Peek(b, i + k)
  {
    if i + n > |b| {
      if i > |b| { ZerosAt(n, k); }
      else if i + k >= |b| { ZerosAt(i + n - |b|, i + k - |b|); }
    }
  }

  lemma SlicesAgree(b: seq<byte>, i: nat, j: nat, x: seq<byte>, y: seq<byte>)
    requires j + |y| <= |x| && x == Slice(b, i, |x|) && y == Slice(b, i + j, |y|)
    ensures x[j..j + |y|] == y
  {
    forall k | 0 <= k < |y| ensures x[j..j + |y|][k] == y[k] {
      SliceAt(b, i, |x|, j + k);
      SliceAt(b, i + j, |y|, k);
    }
  }

  lemma SliceJoin(b: seq<byte>, n: nat, m: nat)
    ensures Slice(b, 0, n) + Slice(b, n, m) == Slice(b, 0, n + m)
  {
    forall k | 0 <= k < n + m ensures (Slice(b, 0, n) + Slice(b, n, m))[k] == Slice(b, 0, n + m)[k] {
      SliceAt(b, 0, n + m, k);
      if k < n { SliceAt(b, 0, n, k); } else { SliceAt(b, n, m, k - n); }
    }
  }

  lemma SliceOfSlice(b: seq<byte>, i: nat, m: nat, j: nat, n: nat)
    requires j + n <= m
    ensures Slice(b, i, m)[j..j + n] == Slice(b, i + j, n)
  {
    SlicesAgree(b, i, j, Slice(b, i, m), Slice(b, i + j, n));
  }

  /** A read at a cursor is a read at the front of the remaining bytes. */
  lemma StringAtCursor(b: seq<byte>, i: nat, end: int)
    requires i <= end
    ensures var s := Slice(b, i, end - i);
      StringAt(b, i, end) == match TakeString(s) case None => None case Some((x, y)) => Some((x, i + 2 + |x|))
  {
    var s := Slice(b, i, end - i);
    if |s| > 1 {
      SliceAt(b, i, end - i, 0);
      SliceAt(b, i, end - i, 1);
      var n: nat := Int16At(b, i);
      if i + 2 + n <= end { SliceOfSlice(b, i, end - i, 2, n); }
    }
  }

  lemma RestAtCursor(b: seq<byte>, i: nat, end: int)
    requires i <= end && TakeString(Slice(b, i, end - i)).Some?
    ensures var (x, y) := TakeString(Slice(b, i, end - i)).value;
      i + 2 + |x| <= end && y == Slice(b, i + 2 + |x|, end - (i + 2 + |x|))
  {
    var s := Slice(b, i, end - i);
    TailOfSlice(b, i, end - i, 2 + Int16At(s, 0), s);
  }

  lemma TailOfSlice(b: seq<byte>, i: nat, m: nat, j: nat, s: seq<byte>)
    requires j <= m && s == Slice(b, i, m)
    ensures s[j..] == Slice(b, i + j, m - j)
  {
    SliceOfSlice(b, i, m, j, m - j);
    assert s[j..] == s[j..j + (m - j)];
  }

  lemma CharAtCursor(b: seq<byte>, cur: nat, end: int)
    requires cur < end
    ensures CharAt(Rest(b, cur, end), 0) == CharAt(b, cur) && Rest(b, cur, end)[1..] == Rest(b, cur + 1, end)
  {
  }

  lemma FilterAtCursor(b: seq<byte>, cur: nat, end: int)
    requires cur < end
    ensures match StringAt(b, cur, end)
      case None => TakeString(Rest(b, cur, end)).None?
      case Some((filter, at)) => TakeString(Rest(b, cur, end)) == Some((filter, Rest(b, at, end)))
  {
    StringAtCursor(b, cur, end);
    if TakeString(Rest(b, cur, end)).Some? { RestAtCursor(b, cur, end); }
  }

  /** `readMQTTLenString`. */
  method ReadString(buf: array<byte>, cur: nat, end: int) returns (ok: bool, s: seq<byte>, next: nat)
    ensures StringAt(buf[..], cur, end) == if ok then Some((s, next)) else None
    ensures TakeString(Rest(buf[..], cur, end)) == if ok then Some((s, Rest(buf[..], next, end))) else None
    ensures ok ==> next > cur
  {
    var b := buf[..];
    if cur < end { FilterAtCursor(b, cur, end); }
    ok, s, next := false, [], cur;
    if end - cur > 1 {
      var len: nat := Int16At(b, cur);
      next := cur + 2;
      if next + len <= end {
        s := Slice(b, next, len);
        next := next + len;
        ok := true;
      }
    }
  }

  // ---- writing through an advancing pointer ----

  method WriteChar(buf: array<byte>, ptr: nat, c: int) returns (next: nat)
    requires ptr < buf.Length
    modifies buf
    ensures next == ptr + 1
    ensures buf[..next] == old(buf[..ptr]) + [c % 256]
    ensures forall i :: next <= i < buf.Length ==> buf[i] == old(buf[i])
  {
    buf[ptr] := c % 256;
    next := ptr + 1;
  }

  method WriteInt(buf: array<byte>, ptr: nat, n: nat) returns (next: nat)
    requires ptr + 2 <= buf.Length
    modifies buf
    ensures next == ptr + 2
    ensures buf[..next] == old(buf[..ptr]) + EncodeInt(n)
    ensures forall i :: next <= i < buf.Length ==> buf[i] == old(buf[i])
  {
    buf[ptr] := n / 256 % 256;
    buf[ptr + 1] := n % 256;
    next := ptr + 2;
  }

  /** `memcpy` into the buffer. */
  method WriteBytes(buf: array<byte>, ptr: nat, s: seq<byte>) returns (next: nat)
    requires ptr + |s| <= buf.Length
    modifies buf
    ensures next == ptr + |s|
    ensures buf[..next] == old(buf[..ptr]) + s
    ensures forall i :: next <= i < buf.Length ==> buf[i] == old(buf[i])
  {
    forall k | 0 <= k < |s| { buf[ptr + k] := s[k]; }
    next := ptr + |s|;
  }

  method WriteString(buf: array<byte>, ptr: nat, s: MqttString) returns (next: nat)
    requires ptr + 2 + |s.Content()| <= buf.Length
    modifies buf
    ensures next == ptr + 2 + |s.Content()|
    ensures buf[..next] == old(buf[..ptr]) + EncodeString(s.Content())
    ensures forall i :: next <= i < buf.Length ==> buf[i] == old(buf[i])
  {
    if s.Counted? && |s.data| > 0 {
      next := WriteInt(buf, ptr, |s.data|);
      next := WriteBytes(buf, next, s.data);
    } else if s.CString? {
      next := WriteInt(buf, ptr, |s.text|);
      next := WriteBytes(buf, next, s.text);
    } else {
      next := WriteInt(buf, ptr, 0);
    }
    assert old(buf[..ptr]) + EncodeInt(|s.Content()|) + s.Content()
        == old(buf[..ptr]) + EncodeString(s.Content());
    assert s.Content() == [] ==> EncodeString(s.Content()) == EncodeInt(0);
  }
}
