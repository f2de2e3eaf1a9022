/** The first byte of every packet: the bit-fields of `MQTTHeader` (MQTTPacket.h). */
module FixedHeader {
  import opened Bytes
  import opened RemainingLength

  const CONNECT := 1
  const CONNACK := 2
  const PUBLISH := 3
  const PUBACK := 4
  const PUBREC := 5
  const PUBREL := 6
  const PUBCOMP := 7
  const SUBSCRIBE := 8
  const SUBACK := 9
  const UNSUBSCRIBE := 10
  const UNSUBACK := 11
  const PINGREQ := 12
  const PINGRESP := 13
  const DISCONNECT := 14

  const BUFFER_TOO_SHORT := -2
  const READ_ERROR := -1

  /** What a read may give a client without `cycle` giving up: a packet that a client can get, or none. */
  predicate Expected(kind: int) {
    kind in [0, CONNACK, PUBLISH, PUBACK, PUBREC, PUBREL, PUBCOMP, SUBACK, UNSUBACK, PINGRESP]
  }

  predicate AllExpected(codes: seq<int>) {
    forall k :: 0 <= k < |codes| ==> Expected(codes[k])
  }

  lemma AllExpectedGrows(codes: seq<int>, code: int)
    ensures AllExpected(codes + [code]) <==> AllExpected(codes) && Expected(code)
  {
    if AllExpected(codes + [code]) {
      assert (codes + [code])[|codes|] == code;
      forall k | 0 <= k < |codes| ensures Expected(codes[k]) { assert (codes + [code])[k] == codes[k]; }
    }
  }

  /** Storing into a bit-field keeps the low bits. */
  function Header(kind: nat, dup: nat, qos: nat, retain: nat): byte {
    kind % 16 * 16 + dup % 2 * 8 + qos % 4 * 2 + retain % 2
  }

  function Kind(h: byte): nat { h / 16 }
  function Dup(h: byte): nat { h / 8 % 2 }
  function Qos(h: byte): nat { h / 2 % 4 }
  function Retain(h: byte): nat { h % 2 }

  lemma HeaderFields(kind: nat, dup: nat, qos: nat, retain: nat)
    requires kind < 16 && dup < 2 && qos < 4 && retain < 2
    ensures var h := Header(kind, dup, qos, retain);
      Kind(h) == kind && Dup(h) == dup && Qos(h) == qos && Retain(h) == retain
  {
    HeaderIs(kind, dup, qos, retain);
    FieldsOf(Header(kind, dup, qos, retain), kind, dup, qos, retain);
  }

  lemma HeaderIs(kind: nat, dup: nat, qos: nat, retain: nat)
    requires kind < 16 && dup < 2 && qos < 4 && retain < 2
    ensures Header(kind, dup, qos, retain) == 16 * kind + 8 * dup + 2 * qos + retain
  {
  }

  lemma FieldsOf(h: nat, kind: nat, dup: nat, qos: nat, retain: nat)
    requires dup < 2 && qos < 4 && retain < 2 && h == 16 * kind + 8 * dup + 2 * qos + retain
    ensures h / 16 == kind && h / 8 % 2 == dup && h / 2 % 4 == qos && h % 2 == retain
  {
    assert h / 2 == 8 * kind + 4 * dup + qos;
    assert h / 8 == 2 * kind + dup;
  }

  lemma HeaderByte(kind: nat, dup: nat, qos: nat, retain: nat)
    requires kind < 16
    ensures Header(kind, dup, qos, retain) == 16 * kind + 8 * (dup % 2) + 2 * (qos % 4) + retain % 2
  {
    HeaderIs(kind, dup % 2, qos % 4, retain % 2);
  }

  /** A packet on the wire: the header byte, the remaining length and that many bytes. */
  function Frame(h: byte, body: seq<byte>): (f: seq<byte>)
    ensures |f| == FrameSize(|body|)
  {
    [h] + Encode(|body|) + body
  }

  /** Reading the front of a packet finds its header, its length and the place of its body. */
  lemma FrameParts(b: seq<byte>, h: byte, body: seq<byte>)
    requires |body| <= MAX_REMAINING_LENGTH && At(b, 0, Frame(h, body))
    ensures Peek(b, 0) == h
    ensures Decode(b, 1) == (|Encode(|body|)|, |body|)
    ensures At(b, 1 + |Encode(|body|)|, body)
  {
    AtParts(b, 0, [h] + Encode(|body|), body);
    AtParts(b, 0, [h], Encode(|body|));
    ByteAt(b, 0, h);
    DecodeInvertsEncode(b, 1, |body|);
  }

  lemma FrameThen(b: seq<byte>, h: byte, body: seq<byte>, rest: seq<byte>)
    requires |body| <= MAX_REMAINING_LENGTH && b == Frame(h, body) + rest
    ensures Peek(b, 0) == h && Decode(b, 1) == (|Encode(|body|)|, |body|) && b[1 + |Encode(|body|)|..] == body + rest
  {
    assert b[..|Frame(h, body)|] == Frame(h, body);
    FrameParts(b, h, body);
  }

  /** The bytes that the remaining length announces, wherever the buffer ends. */
  function BodyOf(b: seq<byte>): seq<byte> {
    var (n, len) := Decode(b, 1);
    Slice(b, 1 + n, len)
  }

  lemma FrameBody(b: seq<byte>, h: byte, body: seq<byte>)
    requires |body| <= MAX_REMAINING_LENGTH && At(b, 0, Frame(h, body))
    ensures Peek(b, 0) == h && Decode(b, 1) == (|Encode(|body|)|, |body|) && BodyOf(b) == body
  {
    FrameParts(b, h, body);
  }

  lemma BodyTail(b: seq<byte>, n: nat, len: nat)
    requires Decode(b, 1) == (n, len)
    ensures (if len < 2 then [] else BodyOf(b)[2..]) == Rest(b, 1 + n + 2, 1 + n + len)
  {
    if len >= 2 { SliceOfSlice(b, 1 + n, len, 2, len - 2); }
  }

  lemma FrameJoin(b: seq<byte>, h: byte, x: seq<byte>, y: seq<byte>)
    requires b == [h] + Encode(|x + y|) + x + y
    ensures b == Frame(h, x + y)
  {
  }

  lemma FrameStarts(b: seq<byte>, h: byte, body: seq<byte>)
    requires b == Frame(h, body)
    ensures b != [] && b[0] == h
  {
  }

  lemma IdAndRest(b: seq<byte>, i: nat, id: ushort, rest: seq<byte>)
    requires At(b, i, EncodeInt(id) + rest)
    ensures Int16At(b, i) == id && (EncodeInt(id) + rest)[2..] == rest
  {
  }

  /** A packet whose body starts with a packet id. */
  lemma IdFrame(b: seq<byte>, h: byte, id: ushort, rest: seq<byte>)
    requires 2 + |rest| <= MAX_REMAINING_LENGTH && At(b, 0, Frame(h, EncodeInt(id) + rest))
    ensures Peek(b, 0) == h && Decode(b, 1).1 == 2 + |rest| && Int16At(b, 1 + Decode(b, 1).0) == id
    ensures BodyOf(b)[2..] == rest
  {
    var body := EncodeInt(id) + rest;
    IdBody(b, h, id, rest, body);
  }

  lemma IdBody(b: seq<byte>, h: byte, id: ushort, rest: seq<byte>, body: seq<byte>)
    requires body == EncodeInt(id) + rest && |body| <= MAX_REMAINING_LENGTH && At(b, 0, Frame(h, body))
    ensures Peek(b, 0) == h && Decode(b, 1).1 == |body| && Int16At(b, 1 + Decode(b, 1).0) == id
    ensures BodyOf(b)[2..] == rest
  {
    FrameBody(b, h, body);
    FrameParts(b, h, body);
    IdAndRest(b, 1 + |Encode(|body|)|, id, rest);
  }

  /** The start of every serializer: the header byte and the remaining length. */
  method WriteHeader(buf: array<byte>, h: byte, remLen: nat) returns (ptr: nat)
    requires 1 + |Encode(remLen)| <= buf.Length
    modifies buf
    ensures ptr == 1 + |Encode(remLen)|
    ensures buf[..ptr] == [h] + Encode(remLen)
    ensures forall i :: ptr <= i < buf.Length ==> buf[i] == old(buf[i])
  {
    ptr := WriteChar(buf, 0, h);
    ptr := PacketEncode(buf, ptr, remLen);
  }
}
