/** MQTTSerializePublish.c and MQTTDeserializePublish.c: PUBLISH and the four-byte acknowledgements. */
module PublishCodec {
  import opened Bytes
  import opened FixedHeader
  import opened RemainingLength

  datatype Publish =
    Publish(dup: nat, qos: nat, retained: nat, id: ushort, topic: seq<byte>, payload: seq<byte>)
  {
    /** `MQTTSerialize_publishLength`. */
    function Length(): nat {
      2 + |topic| + |payload| + if qos > 0 then 2 else 0
    }

    /** What MQTT lets a caller pass: one-bit flags, a two-bit QoS, a string of at most 65535 bytes
        and a remaining length of at most four bytes. */
    predicate Legal() {
      dup < 2 && qos < 4 && retained < 2 && |topic| < 65536 && Length() <= MAX_REMAINING_LENGTH
    }

    function Id(): seq<byte> {
      if qos > 0 then EncodeInt(id) else []
    }

    function Body(): (e: seq<byte>)
      ensures |e| == Length()
    {
      EncodeString(topic) + Id() + payload
    }

    function Encoding(): seq<byte> {
      Frame(Header(PUBLISH, dup, qos, retained), Body())
    }

    /** What a reader gets: every field, the packet id only for QoS above 0. */
    function Decoded(prev: PublishOut): PublishOut {
      PublishOut(dup, qos, retained, if qos > 0 then id else prev.id, topic, payload, |payload|)
    }
  }

  /** The out-parameters of `MQTTDeserialize_publish`. */
  datatype PublishOut =
    PublishOut(dup: nat, qos: nat, retained: nat, id: ushort, topic: seq<byte>, payload: seq<byte>, payloadLen: int)

  datatype AckOut = AckOut(kind: nat, dup: nat, id: ushort)

  /** `MQTTDeserialize_publish`: the return code and the out-parameters, which keep their previous
      values where the function returns early.  A topic that does not fit is left half-read, and makes the
      code return the number of length bytes, so 1 when that field is a single byte. */
  function DecodePublish(b: seq<byte>, prev: PublishOut): (int, PublishOut) {
    var h := Peek(b, 0);
    if Kind(h) != PUBLISH then (0, prev)
    else
      LengthOnwards(b, prev.(dup := Dup(h), qos := Qos(h), retained := Retain(h)))
  }

  function LengthOnwards(b: seq<byte>, flags: PublishOut): (int, PublishOut) {
    var (n, len) := Decode(b, 1);
    TopicOnwards(b, n, 1 + n + len, flags)
  }

  function TopicOnwards(b: seq<byte>, n: nat, end: int, flags: PublishOut): (int, PublishOut) {
    match StringAt(b, 1 + n, end)
    case None => (n, flags.(topic := HalfRead(flags.topic, end - 1 - n, Int16At(b, 1 + n))))
    case Some((topic, at)) => (1, IdAndPayload(b, at, end, flags.(topic := topic)))
  }

  /** The packet id, only above QoS 0, and whatever is left as payload. */
  function IdAndPayload(b: seq<byte>, at: nat, end: int, out: PublishOut): PublishOut {
    var cur := if out.qos > 0 then at + 2 else at;
    out.(id := if out.qos > 0 then Int16At(b, at) else out.id,
         payload := if end >= cur then Slice(b, cur, end - cur) else [],
         payloadLen := end - cur)
  }

  /** `MQTTDeserialize_ack`: with fewer than two bytes left it, too, returns the number of length bytes. */
  function DecodeAck(b: seq<byte>, prev: AckOut): (int, AckOut) {
    var h := Peek(b, 0);
    var head := prev.(kind := Kind(h), dup := Dup(h));
    var (n, len) := Decode(b, 1);
    if len < 2 then (n, head) else (1, head.(id := Int16At(b, 1 + n)))
  }

  function EncodeAck(kind: nat, dup: nat, id: ushort): seq<byte> {
    Frame(Header(kind, dup, if kind == PUBREL then 1 else 0, 0), EncodeInt(id))
  }

  // ---- round trips ----

  lemma PublishRoundTrip(p: Publish, b: seq<byte>, prev: PublishOut)
    requires p.Legal() && At(b, 0, p.Encoding())
    ensures DecodePublish(b, prev) == (1, p.Decoded(prev))
  {
    var h := Header(PUBLISH, p.dup, p.qos, p.retained);
    HeaderFields(PUBLISH, p.dup, p.qos, p.retained);
    PublishFrameRead(b, prev, p, h);
  }

  lemma PublishFrameRead(b: seq<byte>, prev: PublishOut, p: Publish, h: byte)
    requires p.Legal() && At(b, 0, Frame(h, p.Body()))
    requires Kind(h) == PUBLISH && Dup(h) == p.dup && Qos(h) == p.qos && Retain(h) == p.retained
    ensures DecodePublish(b, prev) == (1, p.Decoded(prev))
  {
    FrameParts(b, h, p.Body());
    DecodePublishBody(b, prev, p, h, |Encode(p.Length())|);
  }

  lemma DecodePublishBody(b: seq<byte>, prev: PublishOut, p: Publish, h: byte, n: nat)
    requires p.Legal() && Peek(b, 0) == h && Decode(b, 1) == (n, p.Length()) && At(b, 1 + n, p.Body())
    requires Kind(h) == PUBLISH && Dup(h) == p.dup && Qos(h) == p.qos && Retain(h) == p.retained
    ensures DecodePublish(b, prev) == (1, p.Decoded(prev))
  {
    PublishBodyRead(b, 1 + n, p);
    DecodePublishParts(b, prev, p, h, n);
  }

  lemma PublishBodyRead(b: seq<byte>, i: nat, p: Publish)
    requires |p.topic| < 65536 && At(b, i, p.Body())
    ensures StringAt(b, i, i + p.Length()) == Some((p.topic, i + 2 + |p.topic|))
    ensures p.qos > 0 ==> Int16At(b, i + 2 + |p.topic|) == p.id
    ensures var cur := i + 2 + |p.topic| + |p.Id()|; Slice(b, cur, |p.payload|) == p.payload
  {
    AtParts(b, i, EncodeString(p.topic) + p.Id(), p.payload);
    AtParts(b, i, EncodeString(p.topic), p.Id());
    StringRoundTrip(b, i, i + p.Length(), p.topic);
    if p.qos > 0 { Int16RoundTrip(b, i + 2 + |p.topic|, p.id); }
  }

  /** The pieces put together, for any header byte with the right fields. */
  lemma DecodePublishParts(b: seq<byte>, prev: PublishOut, p: Publish, h: byte, n: nat)
    requires Peek(b, 0) == h && Kind(h) == PUBLISH && Dup(h) == p.dup && Qos(h) == p.qos && Retain(h) == p.retained
    requires Decode(b, 1) == (n, p.Length())
    requires StringAt(b, 1 + n, 1 + n + p.Length()) == Some((p.topic, 1 + n + 2 + |p.topic|))
    requires p.qos > 0 ==> Int16At(b, 1 + n + 2 + |p.topic|) == p.id
    requires Slice(b, 1 + n + 2 + |p.topic| + |p.Id()|, |p.payload|) == p.payload
    ensures DecodePublish(b, prev) == (1, p.Decoded(prev))
  {
    TopicOnwardsParts(b, prev.(dup := p.dup, qos := p.qos, retained := p.retained), p, n);
  }

  lemma TopicOnwardsParts(b: seq<byte>, flags: PublishOut, p: Publish, n: nat)
    requires flags.dup == p.dup && flags.qos == p.qos && flags.retained == p.retained
    requires StringAt(b, 1 + n, 1 + n + p.Length()) == Some((p.topic, 1 + n + 2 + |p.topic|))
    requires p.qos > 0 ==> Int16At(b, 1 + n + 2 + |p.topic|) == p.id
    requires Slice(b, 1 + n + 2 + |p.topic| + |p.Id()|, |p.payload|) == p.payload
    ensures TopicOnwards(b, n, 1 + n + p.Length(), flags) == (1, p.Decoded(flags))
  {
  }

  lemma AckRoundTrip(kind: nat, dup: nat, id: ushort, b: seq<byte>, prev: AckOut)
    requires kind < 16 && dup < 2 && At(b, 0, EncodeAck(kind, dup, id))
    ensures DecodeAck(b, prev) == (1, AckOut(kind, dup, id))
  {
    HeaderFields(kind, dup, if kind == PUBREL then 1 else 0, 0);
    FrameParts(b, Header(kind, dup, if kind == PUBREL then 1 else 0, 0), EncodeInt(id));
    Int16RoundTrip(b, 1 + |Encode(2)|, id);
    DecodeAckParts(b, prev, Peek(b, 0), |Encode(2)|);
  }

  lemma DecodeAckParts(b: seq<byte>, prev: AckOut, h: byte, n: nat)
    requires Peek(b, 0) == h && Decode(b, 1) == (n, 2)
    ensures DecodeAck(b, prev) == (1, AckOut(Kind(h), Dup(h), Int16At(b, 1 + n)))
  {
  }

  // ---- what the return code 1 is worth ----

  ghost predicate TopicFits(b: seq<byte>) {
    var (n, len) := Decode(b, 1);
    Kind(Peek(b, 0)) == PUBLISH && StringAt(b, 1 + n, 1 + n + len).Some?
  }

  /** The topic fits, and above QoS 0 so do the two bytes of the packet id. */
  ghost predicate PublishWhole(b: seq<byte>) {
    TopicFits(b) &&
    var (n, len) := Decode(b, 1);
    Qos(Peek(b, 0)) > 0 ==> StringAt(b, 1 + n, 1 + n + len).value.1 + 2 <= 1 + n + len
  }

  /** The documented "1 is success" holds of a PUBLISH exactly when topic and id fit, or the topic does not and
      the length field has more than one byte.  Otherwise 1 comes back all the same: with an id from beyond the
      packet, or with id and payload untouched and a topic of the announced length that has no data of its own. */
  lemma PublishSuccessIsReal(b: seq<byte>, prev: PublishOut)
    requires Kind(Peek(b, 0)) == PUBLISH
    ensures (DecodePublish(b, prev).0 == 1 ==> PublishWhole(b))
      <==> PublishWhole(b) || (!TopicFits(b) && Decode(b, 1).0 > 1)
    ensures !TopicFits(b) ==>
      var out := DecodePublish(b, prev).1;
      var (n, len) := Decode(b, 1);
      && out.id == prev.id && out.payload == prev.payload
      && out.topic == if len > 1 then Slice(prev.topic, 0, Int16At(b, 1 + n)) else prev.topic
  {
  }

  /** Two bytes that announce nine more: "success", with a topic of length nine and no data. */
  lemma HalfReadTopicReportsSuccess(prev: PublishOut)
    ensures DecodePublish([Header(PUBLISH, 0, 0, 0), 2, 0, 9], prev)
      == (1, prev.(dup := 0, qos := 0, retained := 0, topic := Slice(prev.topic, 0, 9)))
  {
    var b := [Header(PUBLISH, 0, 0, 0), 2, 0, 9];
    assert Decode(b, 1) == (1, 2) && Int16At(b, 2) == 9;
  }

  /** A QoS 1 PUBLISH that ends where its id should be: "success", with the id from the bytes after the packet and
      a payload of length -2. */
  lemma CutIdReportsSuccess(prev: PublishOut)
    ensures DecodePublish([Header(PUBLISH, 0, 1, 0), 2, 0, 0, 7, 9], prev)
      == (1, PublishOut(0, 1, 0, 1801, [], [], -2))
  {
    var b := [Header(PUBLISH, 0, 1, 0), 2, 0, 0, 7, 9];
    assert Decode(b, 1) == (1, 2) && Int16At(b, 2) == 0 && Int16At(b, 4) == 1801;
  }

  /** The payload length is negative exactly when a QoS 1, 2 or 3 packet ends inside its packet id. */
  lemma PayloadLengthNegative(b: seq<byte>, prev: PublishOut)
    requires TopicFits(b)
    ensures var (n, len) := Decode(b, 1);
      var end := 1 + n + len;
      DecodePublish(b, prev).1.payloadLen < 0 <==>
        Qos(Peek(b, 0)) > 0 && end - StringAt(b, 1 + n, end).value.1 < 2
  {
  }

  /** The same for acknowledgements: "1 is success" holds exactly when two bytes follow the length or
      the length field has more than one byte. */
  lemma AckSuccessIsReal(b: seq<byte>, prev: AckOut)
    ensures var (n, len) := Decode(b, 1);
      (DecodeAck(b, prev).0 == 1 ==> len >= 2) <==> len >= 2 || n > 1
    ensures Decode(b, 1).1 < 2 ==> DecodeAck(b, prev).1.id == prev.id
  {
  }

  /** An acknowledgement with the two bytes of this id. */
  predicate CarriesId(b: seq<byte>, id: ushort) {
    var (n, len) := Decode(b, 1);
    len >= 2 && Int16At(b, 1 + n) == id
  }

  /** One without an id that is read with code 1 all the same. */
  predicate CarriesNone(b: seq<byte>) {
    var (n, len) := Decode(b, 1);
    len < 2 && n == 1
  }

  /** An acknowledgement is read as one for `id` exactly when it carries that id, or none while the variable
      that the id is read into happens to hold it. */
  lemma AckReadsAs(b: seq<byte>, prev: AckOut, id: ushort)
    ensures (DecodeAck(b, prev).0 == 1 && DecodeAck(b, prev).1.id == id)
      <==> CarriesId(b, id) || (CarriesNone(b) && prev.id == id)
  {
  }

  /** A PUBREL of length zero is "successfully" read as carrying whatever id was there before. */
  lemma EmptyAckReportsSuccess(id: ushort)
    ensures DecodeAck([Header(PUBREL, 0, 1, 0), 0], AckOut(0, 0, id)) == (1, AckOut(PUBREL, 0, id))
  {
  }

  // ---- the functions over buffers ----

  method SerializePublish(buf: array<byte>, buflen: nat, dup: nat, qos: nat, retained: nat, id: ushort,
      topic: MqttString, payload: seq<byte>) returns (rc: int)
    requires buflen <= buf.Length
    requires Publish(dup, qos, retained, id, topic.Content(), payload).Length() <= MAX_REMAINING_LENGTH
    modifies buf
    ensures var p := Publish(dup, qos, retained, id, topic.Content(), payload);
      && (PacketLen(p.Length()) > buflen ==> rc == BUFFER_TOO_SHORT && buf[..] == old(buf[..]))
      && (PacketLen(p.Length()) <= buflen ==>
        && rc == FrameSize(p.Length()) <= buflen
        && buf[..rc] == p.Encoding()
        && forall i :: rc <= i < buf.Length ==> buf[i] == old(buf[i]))
    ensures rc > 0 ==> buf[0] == 48 + 8 * (dup % 2) + 2 * (qos % 4) + retained % 2
  {
    HeaderByte(PUBLISH, dup, qos, retained);
    ghost var p := Publish(dup, qos, retained, id, topic.Content(), payload);
    var remLen := 2 + |topic.Content()| + |payload|;
    if qos > 0 { remLen := remLen + 2; }
    if PacketLen(remLen) > buflen { return BUFFER_TOO_SHORT; }
    PacketLenIsSafe(remLen);
    var ptr := WriteHeader(buf, Header(PUBLISH, dup, qos, retained), remLen);
    rc := WritePublishBody(buf, ptr, qos, id, topic, payload, p);
    FrameStarts(buf[..rc], Header(PUBLISH, dup, qos, retained), p.Body());
  }

  method WritePublishBody(buf: array<byte>, start: nat, qos: nat, id: ushort, topic: MqttString, payload: seq<byte>,
      ghost p: Publish) returns (ptr: nat)
    requires p.qos == qos && p.id == id && p.topic == topic.Content() && p.payload == payload
    requires start + p.Length() <= buf.Length
    modifies buf
    ensures ptr == start + p.Length()
    ensures buf[..ptr] == old(buf[..start]) + p.Body()
    ensures forall i :: ptr <= i < buf.Length ==> buf[i] == old(buf[i])
  {
    ptr := WriteString(buf, start, topic);
    if qos > 0 { ptr := WriteInt(buf, ptr, id); }
    ptr := WriteBytes(buf, ptr, payload);
    assert buf[..ptr] == old(buf[..start]) + (EncodeString(p.topic) + p.Id() + payload);
  }

  method SerializeAck(buf: array<byte>, buflen: nat, kind: nat, dup: nat, id: ushort) returns (rc: int)
    requires buflen <= buf.Length
    modifies buf
    ensures buflen < 4 ==> rc == BUFFER_TOO_SHORT && buf[..] == old(buf[..])
    ensures buflen >= 4 ==>
      && rc == 4
      && buf[..4] == EncodeAck(kind, dup, id)
      && forall i :: 4 <= i < buf.Length ==> buf[i] == old(buf[i])
  {
    if buflen < 4 { return BUFFER_TOO_SHORT; }
    var ptr := WriteHeader(buf, Header(kind, dup, if kind == PUBREL then 1 else 0, 0), 2);
    ptr := WriteInt(buf, ptr, id);
    rc := ptr;
  }

  method DeserializePublish(buf: array<byte>, prev: PublishOut) returns (rc: int, out: PublishOut)
    ensures (rc, out) == DecodePublish(buf[..], prev)
  {
    var h := Peek(buf[..], 0);
    out := prev;
    if Kind(h) != PUBLISH { return 0, out; }
    rc, out := ReadLengthOnwards(buf, out.(dup := Dup(h), qos := Qos(h), retained := Retain(h)));
  }

  method ReadLengthOnwards(buf: array<byte>, prev: PublishOut) returns (rc: int, out: PublishOut)
    ensures (rc, out) == LengthOnwards(buf[..], prev)
  {
    var n, len := PacketDecodeBuf(buf, 1);
    rc, out := ReadTopicOnwards(buf, n, 1 + n + len, prev);
  }

  method ReadTopicOnwards(buf: array<byte>, n: nat, end: int, prev: PublishOut) returns (rc: int, out: PublishOut)
    ensures (rc, out) == TopicOnwards(buf[..], n, end, prev)
  {
    rc, out := n, prev;
    var topic := StringAt(buf[..], 1 + n, end);
    if topic.None? {
      return n, out.(topic := HalfRead(out.topic, end - 1 - n, Int16At(buf[..], 1 + n)));
    }
    out := ReadIdAndPayload(buf, topic.value.1, end, out.(topic := topic.value.0));
    rc := 1;
  }

  method ReadIdAndPayload(buf: array<byte>, at: nat, end: int, prev: PublishOut) returns (out: PublishOut)
    ensures out == IdAndPayload(buf[..], at, end, prev)
  {
    var b := buf[..];
    var cur := at;
    out := prev;
    if out.qos > 0 {
      out := out.(id := Int16At(b, cur));
      cur := cur + 2;
    }
    out := out.(payloadLen := end - cur, payload := if end >= cur then Slice(b, cur, end - cur) else []);
  }

  method DeserializeAck(buf: array<byte>, prev: AckOut) returns (rc: int, out: AckOut)
    ensures (rc, out) == DecodeAck(buf[..], prev)
  {
    var h := Peek(buf[..], 0);
    out := prev.(kind := Kind(h), dup := Dup(h));
    var n, len := PacketDecodeBuf(buf, 1);
    if len < 2 { return n, out; }
    out := out.(id := Int16At(buf[..], 1 + n));
    rc := 1;
  }
}
