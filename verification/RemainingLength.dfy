/** The remaining-length field (section 2.2.3 of MQTT Version 3.1.1): base 128, least significant
    digit first, the top bit of a byte saying that another follows. */
module RemainingLength {
  import opened Bytes

  const MAX_LENGTH_BYTES: nat := 4
  const MAX_REMAINING_LENGTH: nat := 268435455

  function Encode(n: nat): (f: seq<byte>)
    ensures |f| >= 1
  {
    if n < 128 then [n] else [n % 128 + 128] + Encode(n / 128)
  }

  /** `MQTTPacket_decodeBuf` at index `i` when `k` bytes have already been read: bytes read in all
      (5 when four bytes did not end the field) and the value of the digits from `i` on. */
  function DecodeFrom(b: seq<byte>, i: nat, k: nat): (nat, nat)
    requires k <= MAX_LENGTH_BYTES
    decreases MAX_LENGTH_BYTES - k
  {
    if k == MAX_LENGTH_BYTES then (MAX_LENGTH_BYTES + 1, 0)
    else
      var c := Peek(b, i);
      if c < 128 then (k + 1, c)
      else
        var (len, value) := DecodeFrom(b, i + 1, k + 1);
        (len, c % 128 + 128 * value)
  }

  function Decode(b: seq<byte>, i: nat): (nat, nat) {
    DecodeFrom(b, i, 0)
  }

  /** A field that ends within four bytes. */
  predicate IsField(f: seq<byte>) {
    1 <= |f| <= MAX_LENGTH_BYTES && f[|f| - 1] < 128 && forall i :: 0 <= i < |f| - 1 ==> f[i] >= 128
  }

  function Value(f: seq<byte>): nat {
    if f == [] then 0 else f[0] % 128 + 128 * Value(f[1..])
  }

  predicate Minimal(f: seq<byte>) {
    |f| > 1 ==> f[|f| - 1] != 0
  }

  function Pow128(k: nat): nat
    requires k <= MAX_LENGTH_BYTES
  {
    if k == 0 then 1 else if k == 1 then 128 else if k == 2 then 16384 else if k == 3 then 2097152 else 268435456
  }

  // ---- the encoder yields the one minimal field ----

  lemma {:induction false} EncodeSize(n: nat)
    requires n <= MAX_REMAINING_LENGTH
    ensures |Encode(n)| == if n < 128 then 1 else if n < 16384 then 2 else if n < 2097152 then 3 else 4
  {
    if n >= 128 { EncodeSize(n / 128); }
  }

  lemma {:induction false} EncodeShape(n: nat)
    ensures var f := Encode(n);
      Minimal(f) && f[|f| - 1] < 128 && Value(f) == n && forall i :: 0 <= i < |f| - 1 ==> f[i] >= 128
  {
    if n < 128 {
      assert Value([n][1..]) == 0;
    } else {
      var rest := Encode(n / 128);
      EncodeShape(n / 128);
      assert Encode(n)[1..] == rest;
      forall i | 0 <= i < |Encode(n)| - 1 ensures Encode(n)[i] >= 128 {
        if i > 0 { assert Encode(n)[i] == rest[i - 1]; }
      }
      if |rest| == 1 { assert rest[0] != 0 by { assert n / 128 > 0; } }
    }
  }

  lemma {:induction false} MinimalFieldIsEncoding(f: seq<byte>)
    requires IsField(f) && Minimal(f)
    ensures f == Encode(Value(f))
  {
    if |f| == 1 {
      assert Value(f[1..]) == 0;
    } else {
      var rest := f[1..];
      FieldTail(f);
      MinimalFieldIsEncoding(rest);
      ValuePositive(rest);
      EncodeTurn(f[0], Value(rest));
    }
  }

  lemma FieldTail(f: seq<byte>)
    requires IsField(f) && Minimal(f) && |f| > 1
    ensures IsField(f[1..]) && Minimal(f[1..]) && f[1..][|f| - 2] != 0 && f[0] >= 128
    ensures f == [f[0]] + f[1..] && Value(f) == f[0] % 128 + 128 * Value(f[1..])
  {
  }

  lemma EncodeTurn(c: byte, v: nat)
    requires c >= 128 && v > 0
    ensures Encode(c % 128 + 128 * v) == [c] + Encode(v)
  {
  }

  lemma {:induction false} ValuePositive(f: seq<byte>)
    requires IsField(f) && f[|f| - 1] != 0
    ensures Value(f) > 0
  {
    if |f| > 1 {
      assert forall i :: 0 <= i < |f| - 1 ==> f[1..][i] == f[i + 1];
      ValuePositive(f[1..]);
    }
  }

  lemma {:induction false} ValueBound(f: seq<byte>)
    requires |f| <= MAX_LENGTH_BYTES
    ensures Value(f) < Pow128(|f|)
  {
    if f != [] { ValueBound(f[1..]); }
  }

  lemma {:induction false} ValueSnoc(f: seq<byte>, c: byte)
    requires |f| < MAX_LENGTH_BYTES
    ensures Value(f + [c]) == Value(f) + c % 128 * Pow128(|f|)
  {
    if f == [] {
      assert Value((f + [c])[1..]) == 0;
    } else {
      ValueSnoc(f[1..], c);
      assert (f + [c])[1..] == f[1..] + [c];
    }
  }

  /** Exactly the numbers up to 268435455 have a field of at most four bytes, and it is the only
      minimal field with that value. */
  lemma EncodingIsUniqueMinimalField(n: nat)
    ensures n <= MAX_REMAINING_LENGTH <==> IsField(Encode(n))
    ensures forall f :: IsField(f) && Minimal(f) && Value(f) == n ==> f == Encode(n)
  {
    EncodeShape(n);
    if n <= MAX_REMAINING_LENGTH {
      EncodeSize(n);
    } else if IsField(Encode(n)) {
      ValueBound(Encode(n));
    }
    forall f | IsField(f) && Minimal(f) && Value(f) == n ensures f == Encode(n) {
      MinimalFieldIsEncoding(f);
    }
  }

  /** Writing a decoded length back never takes more bytes than were read. */
  lemma ReencodingNeverGrows(f: seq<byte>)
    requires IsField(f)
    ensures Value(f) <= MAX_REMAINING_LENGTH && |Encode(Value(f))| <= |f|
  {
    ValueBound(f);
    EncodeSize(Value(f));
  }

  // ---- the decoder inverts it ----

  lemma {:induction false} DecodeFieldFrom(b: seq<byte>, i: nat, k: nat, f: seq<byte>)
    requires k + |f| <= MAX_LENGTH_BYTES && IsField(f) && At(b, i, f)
    decreases |f|
    ensures DecodeFrom(b, i, k) == (k + |f|, Value(f))
  {
    assert Peek(b, i) == f[0] by { assert b[i..i + |f|][0] == b[i]; }
    if |f| == 1 {
      assert Value(f[1..]) == 0;
    } else {
      AtParts(b, i, f[..1], f[1..]);
      assert f[..1] + f[1..] == f;
      assert forall j :: 0 <= j < |f| - 1 ==> f[1..][j] == f[j + 1];
      DecodeFieldFrom(b, i + 1, k + 1, f[1..]);
    }
  }

  lemma DecodeInvertsEncode(b: seq<byte>, i: nat, n: nat)
    requires n <= MAX_REMAINING_LENGTH && At(b, i, Encode(n))
    ensures Decode(b, i) == (|Encode(n)|, n)
  {
    EncodeShape(n);
    EncodeSize(n);
    DecodeFieldFrom(b, i, 0, Encode(n));
  }

  // ---- the size precomputation ----

  /** `MQTTPacket_len`. */
  function PacketLen(remLen: nat): nat {
    var n := remLen + 1;
    if n < 128 then n + 1 else if n < 16384 then n + 2 else if n < 2097151 then n + 3 else n + 4
  }

  function FrameSize(remLen: nat): nat {
    1 + |Encode(remLen)| + remLen
  }

  lemma PacketLenIsSafe(n: nat)
    ensures FrameSize(n) <= PacketLen(n) <==> n <= MAX_REMAINING_LENGTH
    ensures n <= MAX_REMAINING_LENGTH ==>
      PacketLen(n) == FrameSize(n) + if n in {127, 16383, 2097150, 2097151} then 1 else 0
  {
    if n <= MAX_REMAINING_LENGTH {
      EncodeSize(n);
    } else {
      EncodeShape(n);
      EncodingIsUniqueMinimalField(n);
    }
  }

  // ---- the loops ----

  /** `MQTTPacket_encode`. */
  method PacketEncode(buf: array<byte>, ptr: nat, length: nat) returns (next: nat)
    requires ptr + |Encode(length)| <= buf.Length
    modifies buf
    ensures next == ptr + |Encode(length)|
    ensures buf[..next] == old(buf[..ptr]) + Encode(length)
    ensures forall i :: next <= i < buf.Length ==> buf[i] == old(buf[i])
  {
    next := ptr;
    var rest := length;
    var more := true;
    ghost var done: seq<byte> := [];
    while more
      invariant next == ptr + |done|
      invariant more ==> done + Encode(rest) == Encode(length)
      invariant !more ==> done == Encode(length)
      invariant next <= buf.Length
      invariant buf[..next] == old(buf[..ptr]) + done
      invariant forall i :: next <= i < buf.Length ==> buf[i] == old(buf[i])
      decreases more, rest
    {
      var d := rest % 128;
      ghost var tail := Encode(rest);
      rest := rest / 128;
      if rest > 0 { d := d + 128; }
      assert rest > 0 ==> tail == [d] + Encode(rest);
      assert done + tail == if rest > 0 then done + [d] + Encode(rest) else done + [d];
      buf[next] := d;
      next := next + 1;
      done := done + [d];
      more := rest > 0;
    }
  }

  /** `MQTTPacket_decodeBuf`: `MQTTPacket_decode` reading from a buffer. */
  method PacketDecodeBuf(buf: array<byte>, ptr: nat) returns (len: nat, value: nat)
    ensures (len, value) == Decode(buf[..], ptr)
  {
    ghost var b := buf[..];
    var multiplier := 1;
    len, value := 0, 0;
    var more := true;
    while more
      invariant len <= MAX_LENGTH_BYTES && multiplier == Pow128(len)
      invariant more ==>
        var (n, v) := DecodeFrom(b, ptr + len, len);
        Decode(b, ptr) == (n, value + multiplier * v)
      invariant !more ==> Decode(b, ptr) == (len, value)
      decreases more, MAX_LENGTH_BYTES - len
    {
      if len == MAX_LENGTH_BYTES {
        return len + 1, value;
      }
      var c := Peek(buf[..], ptr + len);
      DecodeStep(b, ptr, len, value, c);
      len := len + 1;
      value := value + c % 128 * multiplier;
      multiplier := multiplier * 128;
      more := c >= 128;
    }
  }

  lemma DecodeFromCounts(b: seq<byte>, i: nat, k: nat)
    requires k <= MAX_LENGTH_BYTES
    ensures DecodeFrom(b, i, k).0 > k
    decreases MAX_LENGTH_BYTES - k
  {
    if k < MAX_LENGTH_BYTES { DecodeFromCounts(b, i + 1, k + 1); }
  }

  /** One turn of the decoding loop. */
  lemma DecodeStep(b: seq<byte>, ptr: nat, len: nat, value: nat, c: byte)
    requires len < MAX_LENGTH_BYTES && c == Peek(b, ptr + len)
    requires var (n, v) := DecodeFrom(b, ptr + len, len); Decode(b, ptr) == (n, value + Pow128(len) * v)
    ensures Pow128(len) * 128 == Pow128(len + 1)
    ensures c < 128 ==> Decode(b, ptr) == (len + 1, value + c % 128 * Pow128(len))
    ensures c >= 128 ==>
      var (n, v) := DecodeFrom(b, ptr + len + 1, len + 1);
      Decode(b, ptr) == (n, value + c % 128 * Pow128(len) + Pow128(len + 1) * v)
  {
    if c >= 128 {
      Distributes(Pow128(len), c % 128, DecodeFrom(b, ptr + len + 1, len + 1).1);
    } else {
      Swapped(c, Pow128(len));
    }
  }

  lemma Distributes(p: nat, d: nat, v: nat)
    ensures p * (d + 128 * v) == d * p + p * 128 * v
  {
  }

  lemma Swapped(c: nat, p: nat)
    requires c < 128
    ensures p * c == c % 128 * p
  {
  }
}
