/** Serializers, transport and non-blocking reader together: a stream of packets, cut up anyhow, is read
    back as the same list of packets. */
module PacketStream {
  import opened Bytes
  import opened FixedHeader
  import opened RemainingLength
  import opened Transport
  import opened NonBlockingReader
  import opened ReaderAgreement
  import P = PublishCodec
  import S = SubscribeCodec
  import U = UnsubscribeCodec

  datatype Message = Pub(p: P.Publish) | Sub(s: S.Subscribe) | Unsub(u: U.Unsubscribe)
  {
    function Encoding(): seq<byte> {
      match this
      case Pub(p) => p.Encoding()
      case Sub(s) => s.Encoding()
      case Unsub(u) => u.Encoding()
    }

    /** Within the limits of MQTT; a QoS 0 PUBLISH carries no packet id. */
    predicate Legal() {
      match this
      case Pub(p) => p.Legal() && (p.qos == 0 ==> p.id == 0)
      case Sub(s) => s.Legal()
      case Unsub(u) => u.Legal()
    }
  }

  /** What a reader makes of a buffer: dispatch on the packet type, then the deserializer, with room for
      `room` list entries. */
  function Deserialize(b: seq<byte>, room: nat): Option<Message> {
    var kind := Kind(Peek(b, 0));
    if kind == PUBLISH then
      var (rc, o) := P.DecodePublish(b, P.PublishOut(0, 0, 0, 0, [], [], 0));
      if rc == 1 then Some(Pub(P.Publish(o.dup, o.qos, o.retained, o.id, o.topic, o.payload))) else None
    else if kind == SUBSCRIBE then
      var (rc, head, es) := S.DecodeSubscribe(b, room, S.ListHead(0, 0, 0));
      if rc == 1 then Some(Sub(S.Subscribe(head.dup, head.id, es))) else None
    else if kind == UNSUBSCRIBE then
      var (rc, head, fs) := U.DecodeUnsubscribe(b, U.ListHead(0, 0, 0));
      if rc == 1 then Some(Unsub(U.Unsubscribe(head.dup, head.id, fs))) else None
    else None
  }

  predicate FitsRoom(m: Message, room: nat) {
    m.Sub? ==> |m.s.entries| <= room
  }

  lemma DeserializeInverts(m: Message, b: seq<byte>, room: nat)
    requires m.Legal() && FitsRoom(m, room) && At(b, 0, m.Encoding())
    ensures Deserialize(b, room) == Some(m)
  {
    var h, body := EncodingIsFrame(m);
    FrameParts(b, h, body);
    match m
    case Pub(p) => P.PublishRoundTrip(p, b, P.PublishOut(0, 0, 0, 0, [], [], 0));
    case Sub(s) => S.SubscribeRoundTrip(s, b, room, S.ListHead(0, 0, 0));
    case Unsub(u) => U.UnsubscribeRoundTrip(u, b, U.ListHead(0, 0, 0));
  }

  lemma EncodingIsFrame(m: Message) returns (h: byte, body: seq<byte>)
    requires m.Legal()
    ensures m.Encoding() == Frame(h, body) && |body| <= MAX_REMAINING_LENGTH
    ensures Kind(h) == match m case Pub(_) => PUBLISH case Sub(_) => SUBSCRIBE case Unsub(_) => UNSUBSCRIBE
  {
    match m
    case Pub(p) =>
      h, body := Header(PUBLISH, p.dup, p.qos, p.retained), p.Body();
      HeaderFields(PUBLISH, p.dup, p.qos, p.retained);
    case Sub(s) =>
      h, body := Header(SUBSCRIBE, s.dup, 1, 0), s.Body();
      HeaderFields(SUBSCRIBE, s.dup, 1, 0);
    case Unsub(u) =>
      h, body := Header(UNSUBSCRIBE, u.dup, 1, 0), u.Body();
      HeaderFields(UNSUBSCRIBE, u.dup, 1, 0);
  }

  /** The packets one after the other. */
  function Wire(ms: seq<Message>): seq<byte> {
    if ms == [] then [] else ms[0].Encoding() + Wire(ms[1..])
  }

  /** What deserializing the buffer gives after each of the next `k` packets, the reader being called
      again until each is there. */
  function ReadAll(k: nat, room: nat, t: Place, b: seq<byte>, s: Source): seq<Option<Message>>
    requires Ready(t, |b|)
  {
    if k == 0 then []
    else
      var r := Poll(t, b, s);
      if r.rc > 0 && Ready(r.t, |r.b|) then [Deserialize(r.b, room)] + ReadAll(k - 1, room, r.t, r.b, r.s) else []
  }

  function All(ms: seq<Message>): seq<Option<Message>> {
    if ms == [] then [] else [Some(ms[0])] + All(ms[1..])
  }

  predicate AllReadable(ms: seq<Message>, size: nat, room: nat) {
    ms == []
    || (ms[0].Legal() && FitsRoom(ms[0], room) && |ms[0].Encoding()| <= size && AllReadable(ms[1..], size, room))
  }

  lemma FrameComplete(h: byte, body: seq<byte>, rest: seq<byte>, d: seq<byte>, size: nat)
    requires |body| <= MAX_REMAINING_LENGTH && d == Frame(h, body) + rest && FrameSize(|body|) <= size
    ensures Complete(d, size) && d[0] == h
    ensures Uncut(d, size) == (Kind(h), Frame(h, body), FrameSize(|body|)) && d[FrameSize(|body|)..] == rest
  {
    FrameThen(d, h, body, rest);
    EncodeSize(|body|);
    var n := |Encode(|body|)|;
    assert d[1 + n..1 + n + |body|] == d[1 + n..][..|body|];
  }

  /** One packet off the stream: its bytes are in the buffer and the reader is at the next packet. */
  lemma ReadOne(m: Message, rest: seq<byte>, t: Place, b: seq<byte>, s: Source) returns (r: Call)
    requires m.Legal() && |m.Encoding()| <= |b| && |b| >= 5 && t.state == 0
    requires s.data == m.Encoding() + rest && NoErrors(s.grants) && Positive(s.grants) >= |s.data|
    ensures r == Poll(t, b, s) && r.rc > 0 && r.t.state == 0 && |r.b| == |b| && At(r.b, 0, m.Encoding())
    ensures r.s.data == rest && NoErrors(r.s.grants) && Positive(r.s.grants) >= |rest|
  {
    var h, body := EncodingIsFrame(m);
    FrameComplete(h, body, rest, s.data, |b|);
    NonBlockingAgrees(t, b, s);
    r := PollSteps(t, b, s, s.data);
  }

  /** For every list of messages, every cutting of their stream and every pattern of "call again"
      answers, provided enough answers bring data: reading and deserializing gives the list back. */
  lemma {:induction false} StreamRoundTrip(ms: seq<Message>, room: nat, t: Place, b: seq<byte>, s: Source)
    requires |b| >= 5 && t.state == 0 && AllReadable(ms, |b|, room)
    requires s.data == Wire(ms) && NoErrors(s.grants) && Positive(s.grants) >= |s.data|
    ensures ReadAll(|ms|, room, t, b, s) == All(ms)
  {
    if ms != [] {
      var r := ReadOne(ms[0], Wire(ms[1..]), t, b, s);
      DeserializeInverts(ms[0], r.b, room);
      StreamRoundTrip(ms[1..], room, r.t, r.b, r.s);
    }
  }
}
