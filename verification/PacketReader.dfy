/** Reading packets off a transport (MQTTPacket.c): `MQTTPacket_read`, which blocks, and
    `MQTTPacket_readnb`, which may be interrupted between any two bytes. */
module PacketReader {
  import opened Bytes
  import opened FixedHeader
  import opened RemainingLength
  import opened Transport

  // ---- the blocking reader ----

  /** `MQTTPacket_decode` reading from a source, `k` bytes into the field: the value and the source afterwards. */
  function DecodeSource(s: Source, k: nat): (nat, Source)
    requires k <= MAX_LENGTH_BYTES
    decreases MAX_LENGTH_BYTES - k
  {
    if k == MAX_LENGTH_BYTES then (0, s)
    else
      var (rc, bytes, s') := Get(s, 1);
      if rc != 1 then (0, s')
      else if bytes[0] < 128 then (bytes[0], s')
      else
        var (v, s'') := DecodeSource(s', k + 1);
        (bytes[0] % 128 + 128 * v, s'')
  }

  lemma {:induction false} DecodeSourceBound(s: Source, k: nat)
    requires k <= MAX_LENGTH_BYTES
    ensures DecodeSource(s, k).0 < Pow128(MAX_LENGTH_BYTES - k)
    decreases MAX_LENGTH_BYTES - k
  {
  }

  /** How a blocking read ends. */
  datatype Outcome = NoHeader(rc: int) | TooLong | ShortBody | Packet(kind: nat)

  function ReadOutcome(s: Source, b: seq<byte>): (Outcome, seq<byte>, Source)
    requires |b| >= 5
  {
    var (rc, h, s1) := Get(s, 1);
    var b1 := Put(b, 0, h);
    if rc != 1 then (NoHeader(rc), b1, s1)
    else
      DecodeSourceBound(s1, 0);
      var (v, s2) := DecodeSource(s1, 0);
      ReadRest(v, Put(b1, 1, EncodeShort(v)), s2)
  }

  function EncodeShort(v: nat): (f: seq<byte>)
    requires v <= MAX_REMAINING_LENGTH
    ensures f == Encode(v) && |f| <= 4
  {
    EncodeSize(v);
    Encode(v)
  }

  function ReadRest(v: nat, b: seq<byte>, s: Source): (Outcome, seq<byte>, Source) {
    if FrameSize(v) > |b| then (TooLong, b, s)
    else if v == 0 then (Packet(Kind(Peek(b, 0))), b, s)
    else
      var (rc, body, s') := Get(s, v);
      var b' := Put(b, FrameSize(v) - v, body);
      (if rc != v then ShortBody else Packet(Kind(Peek(b', 0))), b', s')
  }

  method ReadByte(net: Network) returns (rc: int, c: byte)
    modifies net`data, net`grants
    ensures var (k, bytes, s) := Get(old(net.Incoming()), 1);
      rc == k <= 1 && net.Incoming() == s && (rc == 1 ==> bytes == [c])
  {
    var cell := new byte[1];
    rc := net.Read(cell, 0, 1);
    c := cell[0];
  }

  /** The decoding loop's view after `len` bytes with the value so far. */
  predicate Decoding(s: Source, len: nat, value: nat, all: (nat, Source))
    requires len <= MAX_LENGTH_BYTES
  {
    var (v, s') := DecodeSource(s, len);
    all == (value + Pow128(len) * v, s')
  }

  lemma DecodingNext(s: Source, len: nat, value: nat, m: nat, c: byte, s': Source, all: (nat, Source))
    requires len < MAX_LENGTH_BYTES && Decoding(s, len, value, all) && m == Pow128(len) && Get(s, 1) == (1, [c], s')
    ensures m * 128 == Pow128(len + 1)
    ensures c < 128 ==> all == (value + m * (c % 128), s')
    ensures c >= 128 ==> Decoding(s', len + 1, value + m * (c % 128), all)
  {
    if c >= 128 { DigitsSplit(m, c, DecodeSource(s', len + 1).0); }
  }

  lemma DigitsSplit(m: nat, c: byte, v: nat)
    ensures m * (c % 128 + 128 * v) == m * (c % 128) + m * 128 * v
  {
  }

  lemma DecodingStops(s: Source, len: nat, value: nat, all: (nat, Source))
    requires len < MAX_LENGTH_BYTES && Decoding(s, len, value, all) && Get(s, 1).0 != 1
    ensures all == (value, Get(s, 1).2)
  {
  }

  lemma DecodingFull(s: Source, value: nat, all: (nat, Source))
    requires Decoding(s, MAX_LENGTH_BYTES, value, all)
    ensures all == (value, s)
  {
  }

  /** One turn of the decoding loop. */
  method ReadDigit(net: Network, len: nat, multiplier: nat, value: nat, ghost all: (nat, Source))
    returns (value': nat, more: bool)
    requires len < MAX_LENGTH_BYTES && multiplier == Pow128(len) && Decoding(net.Incoming(), len, value, all)
    modifies net`data, net`grants
    ensures more ==> multiplier * 128 == Pow128(len + 1) && Decoding(net.Incoming(), len + 1, value', all)
    ensures !more ==> all == (value', net.Incoming())
  {
    ghost var s := net.Incoming();
    var rc, c := ReadByte(net);
    if rc != 1 {
      DecodingStops(s, len, value, all);
      return value, false;
    }
    DecodingNext(s, len, value, multiplier, c, net.Incoming(), all);
    return value + multiplier * (c % 128), c >= 128;
  }

  method DecodeBlocking(net: Network) returns (value: nat)
    modifies net`data, net`grants
    ensures (value, net.Incoming()) == DecodeSource(old(net.Incoming()), 0)
  {
    var multiplier: nat, len: nat, more := 1, 0, true;
    value := 0;
    ghost var all := DecodeSource(net.Incoming(), 0);
    while more
      invariant len <= MAX_LENGTH_BYTES && (more ==> multiplier == Pow128(len))
      invariant more ==> Decoding(net.Incoming(), len, value, all)
      invariant !more ==> all == (value, net.Incoming())
      decreases more, MAX_LENGTH_BYTES - len
    {
      if len == MAX_LENGTH_BYTES {
        DecodingFull(net.Incoming(), value, all);
        return;
      }
      value, more := ReadDigit(net, len, multiplier, value, all);
      multiplier := multiplier * 128;
      len := len + 1;
    }
  }

  /** The common part of `MQTTPacket_read` and the clients' `readPacket`. */
  method ReadBlocking(net: Network, buf: array<byte>) returns (out: Outcome)
    requires buf.Length >= 5
    modifies net`data, net`grants, buf
    ensures var (o, b, s) := ReadOutcome(old(net.Incoming()), old(buf[..]));
      out == o && buf[..] == b && net.Incoming() == s
  {
    var rc := net.Read(buf, 0, 1);
    if rc != 1 { return NoHeader(rc); }
    DecodeSourceBound(net.Incoming(), 0);
    var v := DecodeBlocking(net);
    var len := PutLength(buf, v);
    out := ReadBodyBlocking(net, buf, len, v);
  }

  /** Both readers put the length back into the buffer, in its minimal form. */
  method PutLength(buf: array<byte>, v: nat) returns (len: nat)
    requires v <= MAX_REMAINING_LENGTH && buf.Length >= 5
    modifies buf
    ensures buf[..] == Put(old(buf[..]), 1, EncodeShort(v)) && len == FrameSize(v) - v
  {
    EncodeSize(v);
    len := PacketEncode(buf, 1, v);
    assert buf[..] == buf[..len] + buf[len..];
    assert buf[len..] == old(buf[..])[len..];
  }

  method ReadBodyBlocking(net: Network, buf: array<byte>, len: nat, v: nat) returns (out: Outcome)
    requires len == FrameSize(v) - v
    modifies net`data, net`grants, buf
    ensures var (o, b, s) := ReadRest(v, old(buf[..]), old(net.Incoming()));
      out == o && buf[..] == b && net.Incoming() == s
  {
    if len + v > buf.Length { return TooLong; }
    if v > 0 {
      var rc := net.Read(buf, len, v);
      if rc != v { return ShortBody; }
    }
    out := Packet(Kind(Peek(buf[..], 0)));
  }

  /** `MQTTPacket_read`. */
  method PacketRead(net: Network, buf: array<byte>) returns (rc: int)
    requires buf.Length >= 5
    modifies net`data, net`grants, buf
    ensures var (o, b, s) := ReadOutcome(old(net.Incoming()), old(buf[..]));
      rc == (if o.Packet? then o.kind else -1) && buf[..] == b && net.Incoming() == s
  {
    var out := ReadBlocking(net, buf);
    rc := if out.Packet? then out.kind else -1;
  }
}
