/** `MQTTPacket_readnb` (MQTTPacket.c): a reader that keeps its place in an `MQTTTransport` between calls. */
module NonBlockingReader {
  import opened Bytes
  import opened FixedHeader
  import opened RemainingLength
  import opened Transport
  import opened PacketReader

  /** The fields of `MQTTTransport` that survive a call. */
  datatype Place = Place(state: nat, len: nat, remLen: nat, multiplier: nat)

  const FRESH := Place(0, 0, 0, 0)

  /** One more digit of the remaining length. */
  function Digit(t: Place, c: byte): Place {
    t.(len := t.len + 1, remLen := t.remLen + t.multiplier * (c % 128), multiplier := t.multiplier * 128)
  }

  /** The loop of `MQTTPacket_decodenb`. */
  function DecodeLoop(t: Place, s: Source): (int, Place, Source)
    decreases |s.grants|
  {
    if t.len >= MAX_LENGTH_BYTES then (READ_ERROR, t, s)
    else
      var (rc, bytes, s') := Get(s, 1);
      if rc != 1 then (rc, t, s')
      else
        var t' := Digit(t, bytes[0]);
        if bytes[0] >= 128 then DecodeLoop(t', s') else (t'.len, t', s')
  }

  function DecodeNb(t: Place, s: Source): (int, Place, Source) {
    DecodeLoop(if t.len == 0 then t.(multiplier := 1, remLen := 0) else t, s)
  }

  datatype Call = Call(rc: int, t: Place, b: seq<byte>, s: Source)

  /** A place a caller can hold: what the buffer must still take fits into it, and a length being
      decoded is a length so far. */
  predicate Ready(t: Place, size: nat) {
    && size >= 5
    && (t.state == 1 ==> t.len <= MAX_LENGTH_BYTES)
    && (t.state == 1 && t.len > 0 ==> t.multiplier == Pow128(t.len) && t.remLen < Pow128(t.len))
    && (t.state == 2 ==> t.remLen > 0 && t.len > 0 && t.len + t.remLen <= size)
  }

  lemma {:induction false} DecodeLoopBound(t: Place, s: Source)
    requires t.len <= MAX_LENGTH_BYTES && t.multiplier == Pow128(t.len) && t.remLen < Pow128(t.len)
    ensures var (rc, t', s') := DecodeLoop(t, s);
      && t'.state == t.state && t'.len <= MAX_LENGTH_BYTES
      && t'.multiplier == Pow128(t'.len) && t'.remLen < Pow128(t'.len)
    decreases |s.grants|
  {
    if t.len < MAX_LENGTH_BYTES {
      var (rc, bytes, s') := Get(s, 1);
      if rc == 1 {
        var t' := Digit(t, bytes[0]);
        PowTurn(t.len, t.remLen, bytes[0]);
        DecodeLoopBound(t', s');
      }
    }
  }

  lemma PowTurn(len: nat, v: nat, c: byte)
    requires len < MAX_LENGTH_BYTES && v < Pow128(len)
    ensures Pow128(len) * 128 == Pow128(len + 1) && v + Pow128(len) * (c % 128) < Pow128(len + 1)
  {
  }

  lemma DecodeNbBound(t: Place, s: Source, size: nat)
    requires t.state == 1 && Ready(t, size)
    ensures var (rc, t', s') := DecodeNb(t, s);
      Ready(t', size) && t'.state == 1 && t'.remLen <= MAX_REMAINING_LENGTH
  {
    var t0 := if t.len == 0 then t.(multiplier := 1, remLen := 0) else t;
    DecodeLoopBound(t0, s);
  }

  /** One call, from each of the three places where it may start. */
  function ReadNb(t: Place, b: seq<byte>, s: Source): Call
    requires Ready(t, |b|)
  {
    if t.state == 1 then ReadLength(t, b, s)
    else if t.state == 2 then ReadBody(t, b, s)
    else
      var (rc, h, s') := Get(s, 1);
      if rc != 1 then Call(rc, t.(state := 0), b, s')
      else ReadLength(t.(state := 1, len := 0), Put(b, 0, h), s')
  }

  function ReadLength(t: Place, b: seq<byte>, s: Source): Call
    requires t.state == 1 && Ready(t, |b|)
  {
    DecodeNbBound(t, s, |b|);
    var (rc, t', s') := DecodeNb(t, s);
    if rc == READ_ERROR then Call(READ_ERROR, t'.(state := 0), b, s')
    else if rc == 0 then Call(0, t', b, s')
    else
      var b' := Put(b, 1, EncodeShort(t'.remLen));
      var t'' := t'.(len := FrameSize(t'.remLen) - t'.remLen);
      if FrameSize(t'.remLen) > |b| then Call(-1, t''.(state := 0), b', s')
      else if t'.remLen == 0 then Call(Kind(Peek(b', 0)), t''.(state := 0), b', s')
      else ReadBody(t''.(state := 2), b', s')
  }

  function ReadBody(t: Place, b: seq<byte>, s: Source): Call
    requires t.state == 2 && Ready(t, |b|)
  {
    var (rc, body, s') := Get(s, t.remLen);
    if rc == -1 then Call(-1, t.(state := 0), b, s')
    else
      var b' := Put(b, t.len, body);
      var t' := t.(remLen := t.remLen - rc, len := t.len + rc);
      if rc == 0 || t'.remLen > 0 then Call(0, t', b', s')
      else Call(Kind(Peek(b', 0)), t'.(state := 0), b', s')
  }

  /** Every call leaves a place the next call can start from. */
  lemma ReadNbReady(t: Place, b: seq<byte>, s: Source)
    requires Ready(t, |b|)
    ensures var r := ReadNb(t, b, s); Ready(r.t, |r.b|) && |r.b| == |b|
  {
    if t.state == 1 {
      ReadLengthReady(t, b, s);
    } else if t.state != 2 {
      var (rc, h, s') := Get(s, 1);
      if rc == 1 { ReadLengthReady(t.(state := 1, len := 0), Put(b, 0, h), s'); }
    }
  }

  lemma ReadLengthReady(t: Place, b: seq<byte>, s: Source)
    requires t.state == 1 && Ready(t, |b|)
    ensures var r := ReadLength(t, b, s); Ready(r.t, |r.b|) && |r.b| == |b|
  {
    DecodeNbBound(t, s, |b|);
  }

  // ---- the functions over the transport ----

  class MqttTransport {
    const net: Network
    var multiplier: nat
    var remLen: nat
    var len: nat
    var state: nat

    constructor (net: Network)
      ensures this.net == net && Here() == FRESH
    {
      this.net := net;
      multiplier, remLen, len, state := 0, 0, 0, 0;
    }

    function Here(): Place
      reads this
    {
      Place(state, len, remLen, multiplier)
    }

    /** `MQTTPacket_decodenb`. */
    method PacketDecodeNb() returns (rc: int)
      modifies this, net`data, net`grants
      ensures (rc, Here(), net.Incoming()) == DecodeNb(old(Here()), old(net.Incoming()))
    {
      if len == 0 { multiplier, remLen := 1, 0; }
      ghost var all := DecodeLoop(Here(), net.Incoming());
      var more := true;
      while more
        invariant more ==> all == DecodeLoop(Here(), net.Incoming())
        invariant !more ==> all == (len, Here(), net.Incoming())
        decreases more, |net.grants|
      {
        if len >= MAX_LENGTH_BYTES { return READ_ERROR; }
        var frc, c := ReadByte(net);
        if frc != 1 { return frc; }
        len := len + 1;
        remLen := remLen + multiplier * (c % 128);
        multiplier := multiplier * 128;
        more := c >= 128;
      }
      rc := len;
    }

    /** `MQTTPacket_readnb`. */
    method PacketReadNb(buf: array<byte>) returns (rc: int)
      requires Ready(Here(), buf.Length)
      modifies this, net`data, net`grants, buf
      ensures Call(rc, Here(), buf[..], net.Incoming()) == ReadNb(old(Here()), old(buf[..]), old(net.Incoming()))
      ensures Ready(Here(), buf.Length)
    {
      ReadNbReady(Here(), buf[..], net.Incoming());
      if state == 2 {
        rc := ResumeBody(buf);
      } else if state == 1 {
        rc := ResumeLength(buf);
      } else {
        state := 0;
        rc := net.Read(buf, 0, 1);
        if rc != 1 {
          assert buf[..] == Put(old(buf[..]), 0, []);
          return;
        }
        len, state := 0, 1;
        rc := ResumeLength(buf);
      }
    }

    method ResumeLength(buf: array<byte>) returns (rc: int)
      requires state == 1 && Ready(Here(), buf.Length)
      modifies this, net`data, net`grants, buf
      ensures Call(rc, Here(), buf[..], net.Incoming()) == ReadLength(old(Here()), old(buf[..]), old(net.Incoming()))
    {
      DecodeNbBound(Here(), net.Incoming(), buf.Length);
      rc := PacketDecodeNb();
      if rc == READ_ERROR {
        state := 0;
        return;
      }
      if rc == 0 { return; }
      len := PutLength(buf, remLen);
      if remLen + len > buf.Length {
        state := 0;
        return -1;
      }
      state := 2;
      if remLen == 0 {
        rc := Kind(Peek(buf[..], 0));
        state := 0;
      } else {
        rc := ResumeBody(buf);
      }
    }

    method ResumeBody(buf: array<byte>) returns (rc: int)
      requires state == 2 && Ready(Here(), buf.Length)
      modifies this, net`data, net`grants, buf
      ensures Call(rc, Here(), buf[..], net.Incoming()) == ReadBody(old(Here()), old(buf[..]), old(net.Incoming()))
    {
      rc := net.Read(buf, len, remLen);
      if rc == -1 {
        assert buf[..] == Put(old(buf[..]), old(len), []);
        state := 0;
        return;
      }
      remLen, len := remLen - rc, len + rc;
      if rc == 0 || remLen > 0 { return 0; }
      rc := Kind(Peek(buf[..], 0));
      state := 0;
    }
  }
}
