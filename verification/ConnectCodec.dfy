/** MQTTConnectClient.c and MQTTConnectServer.c: CONNECT with its flag-driven fields, and CONNACK. */
module ConnectCodec {
  import opened Bytes
  import opened FixedHeader
  import opened RemainingLength

  datatype Will = Will(topic: MqttString, message: MqttString, retained: nat, qos: nat)

  /** `MQTTPacket_connectData`. */
  datatype ConnectData = ConnectData(version: nat, clientId: MqttString, keepAlive: ushort, clean: nat, willFlag: nat,
                                     will: Will, username: MqttString, password: MqttString)

  const MQTT_NAME: seq<byte> := [77, 81, 84, 84]
  const MQISDP_NAME: seq<byte> := [77, 81, 73, 115, 100, 112]

  // ---- serializing ----

  /** A field that is written only when it is there. */
  function Field(present: bool, s: MqttString): seq<byte> {
    if present then EncodeString(s.Content()) else []
  }

  function Protocol(o: ConnectData): seq<byte> {
    if o.version == 4 then EncodeString(MQTT_NAME) + [4] else EncodeString(MQISDP_NAME) + [3]
  }

  /** `MQTTConnectFlags`. */
  function Flags(o: ConnectData): byte {
    o.clean % 2 * 2
    + (if o.willFlag != 0 then 4 + o.will.qos % 4 * 8 + o.will.retained % 2 * 32 else 0)
    + (if o.password.Null? then 0 else 64)
    + (if o.username.Null? then 0 else 128)
  }

  function Fields(o: ConnectData): seq<byte> {
    EncodeString(o.clientId.Content())
    + (Field(o.willFlag != 0, o.will.topic)
       + (Field(o.willFlag != 0, o.will.message)
          + (Field(!o.username.Null?, o.username) + Field(!o.password.Null?, o.password))))
  }

  function Body(o: ConnectData): seq<byte> {
    Protocol(o) + ([Flags(o)] + EncodeInt(o.keepAlive) + Fields(o))
  }

  /** `MQTTSerialize_connectLength`. */
  function ConnectLength(o: ConnectData): nat {
    (if o.version == 3 then 12 else if o.version == 4 then 10 else 0)
    + 2 + |o.clientId.Content()|
    + (if o.willFlag != 0 then 2 + |o.will.topic.Content()| + 2 + |o.will.message.Content()| else 0)
    + (if o.username.Null? then 0 else 2 + |o.username.Content()|)
    + (if o.password.Null? then 0 else 2 + |o.password.Content()|)
  }

  /** The precomputed length is the length written exactly for versions 3 and 4; any other version is
      written as version 3 but counted 12 bytes short. */
  lemma ConnectLengthExactly(o: ConnectData)
    ensures ConnectLength(o) == |Body(o)| <==> o.version == 3 || o.version == 4
    ensures o.version != 3 && o.version != 4 ==> ConnectLength(o) + 12 == |Body(o)|
  {
  }

  function Encoding(o: ConnectData): seq<byte> {
    [Header(CONNECT, 0, 0, 0)] + Encode(ConnectLength(o)) + Body(o)
  }

  // ---- deserializing ----

  /** `MQTTPacket_checkVersion`: a name shorter than expected is compared only as far as it goes. */
  predicate CheckVersion(name: seq<byte>, version: int) {
    || (version == 3 && name[..Min(6, |name|)] == MQISDP_NAME[..Min(6, |name|)])
    || (version == 4 && name[..Min(4, |name|)] == MQTT_NAME[..Min(4, |name|)])
  }

  function Drop(s: seq<byte>, n: nat): seq<byte> {
    if n <= |s| then s[n..] else []
  }

  /** `MQTTDeserialize_connect`; fields not reached keep their previous values, a string that does not
      fit is left half-read, and the version is never set. */
  function DecodeConnect(b: seq<byte>, prev: ConnectData): (int, ConnectData) {
    if Kind(Peek(b, 0)) != CONNECT then (0, prev) else DecodeProtocol(Drop(b, 1 + Decode(b, 1).0), prev)
  }

  function DecodeProtocol(s: seq<byte>, prev: ConnectData): (int, ConnectData) {
    match TakeString(s)
    case None => (0, prev)
    case Some((name, rest)) =>
      if CheckVersion(name, CharAt(rest, 0)) then DecodeFields(Drop(rest, 1), prev) else (0, prev)
  }

  function DecodeFields(s: seq<byte>, prev: ConnectData): (int, ConnectData) {
    var flags := Peek(s, 0);
    var out := prev.(clean := flags / 2 % 2, keepAlive := Int16At(s, 1));
    match TakeString(Drop(s, 3))
    case None => (0, out.(clientId := HalfString(out.clientId, Drop(s, 3))))
    case Some((clientId, rest)) =>
      var out' := out.(clientId := Counted(clientId), willFlag := flags / 4 % 2);
      var (ok, rest', out'') := DecodeWill(flags, rest, out');
      if ok then DecodeUser(flags, rest', out'') else (0, out'')
  }

  function DecodeWill(flags: byte, s: seq<byte>, prev: ConnectData): (bool, seq<byte>, ConnectData) {
    if flags / 4 % 2 == 0 then (true, s, prev)
    else
      var w := prev.will.(qos := flags / 8 % 4, retained := flags / 32 % 2);
      match TakeString(s)
      case None => (false, s, prev.(will := w.(topic := HalfString(w.topic, s))))
      case Some((topic, rest)) =>
        match TakeString(rest)
        case None => (false, rest, prev.(will := w.(topic := Counted(topic), message := HalfString(w.message, rest))))
        case Some((message, rest')) =>
          (true, rest', prev.(will := w.(topic := Counted(topic), message := Counted(message))))
  }

  /** The last two fields must each have at least three bytes left to be read from. */
  function TakeLong(s: seq<byte>): Option<(seq<byte>, seq<byte>)> {
    if |s| < 3 then None else TakeString(s)
  }

  /** What is left of such a field when it does not fit: with fewer than three bytes it is not touched. */
  function HalfLong(prev: MqttString, s: seq<byte>): MqttString {
    if |s| < 3 then prev else HalfString(prev, s)
  }

  function DecodeUser(flags: byte, s: seq<byte>, prev: ConnectData): (int, ConnectData) {
    if flags / 128 == 0 then (if flags / 64 % 2 == 0 then 1 else 0, prev)
    else match TakeLong(s)
      case None => (0, prev.(username := HalfLong(prev.username, s)))
      case Some((username, rest)) =>
        var out := prev.(username := Counted(username));
        if flags / 64 % 2 == 0 then (1, out)
        else match TakeLong(rest)
          case None => (0, out.(password := HalfLong(out.password, rest)))
          case Some((password, _)) => (1, out.(password := Counted(password)))
  }

  // ---- round trip ----

  predicate Sound(o: ConnectData) {
    && (o.version == 3 || o.version == 4)
    && o.clean < 2 && o.willFlag < 2 && o.will.qos < 4 && o.will.retained < 2
    && |o.clientId.Content()| < 65536 && |o.will.topic.Content()| < 65536 && |o.will.message.Content()| < 65536
    && |o.username.Content()| < 65536 && |o.password.Content()| < 65536
    && ConnectLength(o) <= MAX_REMAINING_LENGTH
  }

  /** No password without a user name, no empty password, and no empty user name at the end. */
  predicate Readable(o: ConnectData) {
    && (!o.password.Null? ==> !o.username.Null? && |o.password.Content()| > 0)
    && (!o.username.Null? && o.password.Null? ==> |o.username.Content()| > 0)
  }

  /** What a server sees of `o`. */
  function Received(o: ConnectData, prev: ConnectData): ConnectData {
    prev.(clean := o.clean, keepAlive := o.keepAlive, clientId := Counted(o.clientId.Content()), willFlag := o.willFlag,
          will := if o.willFlag == 0 then prev.will
                  else Will(Counted(o.will.topic.Content()), Counted(o.will.message.Content()), o.will.retained,
                             o.will.qos),
          username := if o.username.Null? then prev.username else Counted(o.username.Content()),
          password := if o.password.Null? then prev.password else Counted(o.password.Content()))
  }

  lemma Bits(user: nat, password: nat, retained: nat, qos: nat, will: nat, clean: nat)
    requires user < 2 && password < 2 && retained < 2 && qos < 4 && will < 2 && clean < 2
    ensures var f := clean * 2 + (will * 4 + qos * 8 + retained * 32) + password * 64 + user * 128;
      f / 2 % 2 == clean && f / 4 % 2 == will && f / 8 % 4 == qos && f / 32 % 2 == retained
      && f / 64 % 2 == password && f / 128 == user
  {
    var f := clean * 2 + (will * 4 + qos * 8 + retained * 32) + password * 64 + user * 128;
    assert f / 2 == 2 * (will + 2 * qos + 8 * retained + 16 * password + 32 * user) + clean;
    assert f / 4 == 2 * (qos + 4 * retained + 8 * password + 16 * user) + will;
    assert f / 8 == 4 * (retained + 2 * password + 4 * user) + qos;
    assert f / 32 == 2 * (password + 2 * user) + retained;
    assert f / 64 == 2 * user + password;
  }

  lemma FlagBits(o: ConnectData)
    requires Sound(o)
    ensures var f := Flags(o);
      && f / 2 % 2 == o.clean && f / 4 % 2 == o.willFlag
      && (o.willFlag == 1 ==> f / 8 % 4 == o.will.qos && f / 32 % 2 == o.will.retained)
      && (f / 64 % 2 == 0 <==> o.password.Null?) && (f / 128 == 0 <==> o.username.Null?)
  {
    var user, password := if o.username.Null? then 0 else 1, if o.password.Null? then 0 else 1;
    var retained, qos := if o.willFlag == 0 then 0 else o.will.retained, if o.willFlag == 0 then 0 else o.will.qos;
    FlagsAre(o, user, password, retained, qos);
    Bits(user, password, retained, qos, o.willFlag, o.clean);
  }

  lemma FlagsAre(o: ConnectData, user: nat, password: nat, retained: nat, qos: nat)
    requires Sound(o)
    requires user == (if o.username.Null? then 0 else 1) && password == (if o.password.Null? then 0 else 1)
    requires retained == (if o.willFlag == 0 then 0 else o.will.retained)
    requires qos == if o.willFlag == 0 then 0 else o.will.qos
    ensures Flags(o) == o.clean * 2 + (o.willFlag * 4 + qos * 8 + retained * 32) + password * 64 + user * 128
  {
  }

  lemma ProtocolRead(o: ConnectData, rest: seq<byte>)
    requires Sound(o)
    ensures TakeString(Protocol(o) + rest).Some?
    ensures var (name, r) := TakeString(Protocol(o) + rest).value;
      CheckVersion(name, CharAt(r, 0)) && Drop(r, 1) == rest
  {
    var name, v := if o.version == 4 then MQTT_NAME else MQISDP_NAME, o.version;
    TakeStringRoundTrip(name, [v] + rest);
    assert Protocol(o) + rest == EncodeString(name) + ([v] + rest);
  }

  lemma WillRead(o: ConnectData, flags: byte, rest: seq<byte>, prev: ConnectData)
    requires Sound(o) && flags / 4 % 2 == o.willFlag
    requires o.willFlag == 1 ==> flags / 8 % 4 == o.will.qos && flags / 32 % 2 == o.will.retained
    ensures var sent := o.willFlag != 0;
      DecodeWill(flags, Field(sent, o.will.topic) + (Field(sent, o.will.message) + rest), prev)
      == (true, rest, prev.(will := if o.willFlag == 0 then prev.will
            else Will(Counted(o.will.topic.Content()), Counted(o.will.message.Content()), o.will.retained, o.will.qos)))
  {
    var topic, message := o.will.topic.Content(), o.will.message.Content();
    if o.willFlag == 0 {
      assert Field(false, o.will.topic) + (Field(false, o.will.message) + rest) == rest;
    } else {
      TakeStringRoundTrip(topic, EncodeString(message) + rest);
      TakeStringRoundTrip(message, rest);
    }
  }

  lemma TakeLongRoundTrip(x: seq<byte>, y: seq<byte>)
    requires |x| < 65536
    ensures TakeLong(EncodeString(x) + y) == if |x| + |y| == 0 then None else Some((x, y))
  {
  }

  /** The last fields are read back when `Readable`; when nothing follows them, only then. */
  lemma UserRead(o: ConnectData, flags: byte, rest: seq<byte>, prev: ConnectData)
    requires Sound(o) && (flags / 64 % 2 == 0 <==> o.password.Null?) && (flags / 128 == 0 <==> o.username.Null?)
    ensures var s := Field(!o.username.Null?, o.username) + (Field(!o.password.Null?, o.password) + rest);
      && (rest == [] && !Readable(o) ==> DecodeUser(flags, s, prev).0 == 0)
      && (Readable(o) ==> DecodeUser(flags, s, prev) == (1,
            prev.(username := if o.username.Null? then prev.username else Counted(o.username.Content()),
                  password := if o.password.Null? then prev.password else Counted(o.password.Content()))))
  {
    if !o.username.Null? {
      TakeLongRoundTrip(o.username.Content(), Field(!o.password.Null?, o.password) + rest);
      if !o.password.Null? { TakeLongRoundTrip(o.password.Content(), rest); }
    }
  }

  lemma FieldsRead(o: ConnectData, rest: seq<byte>, prev: ConnectData)
    requires Sound(o)
    ensures var r := DecodeFields([Flags(o)] + EncodeInt(o.keepAlive) + (Fields(o) + rest), prev);
      (Readable(o) ==> r == (1, Received(o, prev))) && (rest == [] && !Readable(o) ==> r.0 == 0)
  {
    hide DecodeFields, Received, Readable, EncodeString, EncodeInt, Field, Fields, Flags;
    var tail := Field(!o.username.Null?, o.username) + (Field(!o.password.Null?, o.password) + rest);
    var middle := Field(o.willFlag != 0, o.will.topic) + (Field(o.willFlag != 0, o.will.message) + tail);
    FieldsThen(o, rest);
    FlagBits(o);
    FieldsReadFrom(o, Flags(o), tail, middle, rest, prev);
  }

  lemma FieldsThen(o: ConnectData, rest: seq<byte>)
    ensures Fields(o) + rest == EncodeString(o.clientId.Content())
      + (Field(o.willFlag != 0, o.will.topic) + (Field(o.willFlag != 0, o.will.message)
      + (Field(!o.username.Null?, o.username) + (Field(!o.password.Null?, o.password) + rest))))
  {
    hide EncodeString, Field;
  }

  lemma FieldsReadFrom(o: ConnectData, flags: byte, tail: seq<byte>, middle: seq<byte>, rest: seq<byte>,
                       prev: ConnectData)
    requires Sound(o) && flags / 2 % 2 == o.clean && flags / 4 % 2 == o.willFlag
    requires o.willFlag == 1 ==> flags / 8 % 4 == o.will.qos && flags / 32 % 2 == o.will.retained
    requires (flags / 64 % 2 == 0 <==> o.password.Null?) && (flags / 128 == 0 <==> o.username.Null?)
    requires tail == Field(!o.username.Null?, o.username) + (Field(!o.password.Null?, o.password) + rest)
    requires middle == Field(o.willFlag != 0, o.will.topic) + (Field(o.willFlag != 0, o.will.message) + tail)
    ensures var r :=
        DecodeFields([flags] + EncodeInt(o.keepAlive) + (EncodeString(o.clientId.Content()) + middle), prev);
      (Readable(o) ==> r == (1, Received(o, prev))) && (rest == [] && !Readable(o) ==> r.0 == 0)
  {
    var id := o.clientId.Content();
    var out := prev.(clean := o.clean, keepAlive := o.keepAlive, clientId := Counted(id), willFlag := o.willFlag);
    FieldsFront(flags, o.keepAlive, id, middle, prev);
    WillRead(o, flags, tail, out);
    UserRead(o, flags, rest, DecodeWill(flags, middle, out).2);
  }

  lemma FieldsFront(flags: byte, keepAlive: ushort, id: seq<byte>, middle: seq<byte>, prev: ConnectData)
    requires |id| < 65536
    ensures var out := prev.(clean := flags / 2 % 2, keepAlive := keepAlive, clientId := Counted(id),
                             willFlag := flags / 4 % 2);
      var (ok, rest', out') := DecodeWill(flags, middle, out);
      DecodeFields([flags] + EncodeInt(keepAlive) + (EncodeString(id) + middle), prev)
        == if ok then DecodeUser(flags, rest', out') else (0, out')
  {
    FlagsAndKeepAlive(flags, keepAlive, EncodeString(id) + middle);
    TakeStringRoundTrip(id, middle);
  }

  lemma FlagsAndKeepAlive(flags: byte, keepAlive: ushort, rest: seq<byte>)
    ensures var s := [flags] + EncodeInt(keepAlive) + rest;
      Peek(s, 0) == flags && Int16At(s, 1) == keepAlive && Drop(s, 3) == rest
  {
  }

  /** Every sound CONNECT with readable credentials comes back field for field, whatever follows it. */
  lemma ConnectRoundTrip(o: ConnectData, b: seq<byte>, rest: seq<byte>, prev: ConnectData)
    requires Sound(o) && Readable(o) && b == Encoding(o) + rest
    ensures DecodeConnect(b, prev) == (1, Received(o, prev))
  {
    ConnectRead(o, b, rest, prev);
    FieldsRead(o, rest, prev);
  }

  /** The packet alone is accepted exactly when its credentials are readable. */
  lemma ConnectAcceptedExactly(o: ConnectData, prev: ConnectData)
    requires Sound(o)
    ensures DecodeConnect(Encoding(o), prev).0 == 1 <==> Readable(o)
  {
    ConnectRead(o, Encoding(o), [], prev);
    FieldsRead(o, [], prev);
  }

  lemma ConnectRead(o: ConnectData, b: seq<byte>, rest: seq<byte>, prev: ConnectData)
    requires Sound(o) && b == Encoding(o) + rest
    ensures DecodeConnect(b, prev) == DecodeFields([Flags(o)] + EncodeInt(o.keepAlive) + (Fields(o) + rest), prev)
  {
    hide DecodeFields, Fields, Flags, Frame, Encoding, Sound, EncodeInt, Protocol;
    var fields := [Flags(o)] + EncodeInt(o.keepAlive) + (Fields(o) + rest);
    var h, body := EncodingIsFrame(o);
    ConnectFront(b, h, body, rest);
    ProtocolRead(o, fields);
    assert Body(o) + rest == Protocol(o) + fields;
  }

  lemma EncodingIsFrame(o: ConnectData) returns (h: byte, body: seq<byte>)
    requires Sound(o)
    ensures Encoding(o) == Frame(h, body) && Kind(h) == CONNECT
    ensures body == Body(o) && |body| <= MAX_REMAINING_LENGTH
  {
    h := ConnectHeader();
    body := Body(o);
    ConnectLengthExactly(o);
  }

  lemma ConnectHeader() returns (h: byte)
    ensures h == Header(CONNECT, 0, 0, 0) && Kind(h) == CONNECT
  {
    h := 16;
  }

  lemma ConnectFront(b: seq<byte>, h: byte, body: seq<byte>, rest: seq<byte>)
    requires |body| <= MAX_REMAINING_LENGTH && Kind(h) == CONNECT && b == Frame(h, body) + rest
    ensures Kind(Peek(b, 0)) == CONNECT && Drop(b, 1 + Decode(b, 1).0) == body + rest
  {
    FrameThen(b, h, body, rest);
  }

  // ---- CONNACK ----

  datatype ConnackOut = ConnackOut(sessionPresent: nat, rc: byte)

  function EncodeConnack(rc: byte, sessionPresent: nat): seq<byte> {
    Frame(Header(CONNACK, 0, 0, 0), [sessionPresent % 2, rc])
  }

  /** `MQTTDeserialize_connack`, which on a short body returns the number of length bytes. */
  function DecodeConnack(b: seq<byte>, prev: ConnackOut): (int, ConnackOut) {
    if Kind(Peek(b, 0)) != CONNACK then (0, prev)
    else
      var (n, len) := Decode(b, 1);
      if len < 2 then (n, prev) else (1, ConnackOut(Peek(b, 1 + n) % 2, Peek(b, 2 + n)))
  }

  /** The code a client makes of a CONNACK, starting from "accepted". */
  function ConnackCode(b: seq<byte>): int {
    var (code, out) := DecodeConnack(b, ConnackOut(0, 0));
    if code == 1 then out.rc else -1
  }

  /** "1 is success" holds of a CONNACK exactly when two bytes follow the length or the length field has
      more than one byte. */
  lemma ConnackSuccessIsReal(b: seq<byte>, prev: ConnackOut)
    requires Kind(Peek(b, 0)) == CONNACK
    ensures var (n, len) := Decode(b, 1);
      (DecodeConnack(b, prev).0 == 1 ==> len >= 2) <==> len >= 2 || n > 1
    ensures Decode(b, 1).1 < 2 ==> DecodeConnack(b, prev).1 == prev
  {
  }

  /** An empty CONNACK is "successfully" read, and stands for an accepted connection. */
  lemma EmptyConnackAccepts(prev: ConnackOut)
    ensures DecodeConnack([32, 0], prev) == (1, prev)
    ensures ConnackCode([32, 0]) == 0
  {
  }

  lemma ConnackRoundTrip(rc: byte, sessionPresent: nat, b: seq<byte>, prev: ConnackOut)
    requires sessionPresent < 2 && At(b, 0, EncodeConnack(rc, sessionPresent))
    ensures DecodeConnack(b, prev) == (1, ConnackOut(sessionPresent, rc))
  {
  }

  // ---- the functions over buffers ----

  method SerializeConnect(buf: array<byte>, buflen: nat, o: ConnectData) returns (rc: int)
    requires buflen <= buf.Length && ConnectLength(o) <= MAX_REMAINING_LENGTH
    requires o.version == 3 || o.version == 4 || |Encoding(o)| <= buf.Length
    modifies buf
    ensures PacketLen(ConnectLength(o)) > buflen ==> rc == BUFFER_TOO_SHORT && buf[..] == old(buf[..])
    ensures PacketLen(ConnectLength(o)) <= buflen ==>
      && rc == |Encoding(o)| <= buf.Length
      && buf[..rc] == Encoding(o)
      && (forall i :: rc <= i < buf.Length ==> buf[i] == old(buf[i]))
      && (o.version == 3 || o.version == 4 ==> rc <= buflen)
    ensures rc > 0 ==> buf[0] == 16
  {
    HeaderByte(CONNECT, 0, 0, 0);
    if PacketLen(ConnectLength(o)) > buflen { return BUFFER_TOO_SHORT; }
    PacketLenIsSafe(ConnectLength(o));
    ConnectLengthExactly(o);
    var ptr := WriteHeader(buf, Header(CONNECT, 0, 0, 0), ConnectLength(o));
    assert buf[..ptr][0] == 16;
    rc := WriteBody(buf, ptr, o);
    assert buf[..rc][0] == 16;
  }

  method WriteBody(buf: array<byte>, start: nat, o: ConnectData) returns (ptr: nat)
    requires start + |Body(o)| <= buf.Length
    modifies buf
    ensures ptr == start + |Body(o)|
    ensures buf[..ptr] == old(buf[..start]) + Body(o)
    ensures forall i :: ptr <= i < buf.Length ==> buf[i] == old(buf[i])
  {
    ghost var x, y, z, t := old(buf[..start]), Protocol(o), [Flags(o)] + EncodeInt(o.keepAlive), Fields(o);
    ptr := WriteProtocol(buf, start, o);
    ptr := WriteFlags(buf, ptr, o);
    ptr := WriteFields(buf, ptr, o);
    Joined(x + y, z, t);
    Joined(x, y, z + t);
  }

  method WriteProtocol(buf: array<byte>, start: nat, o: ConnectData) returns (ptr: nat)
    requires start + |Protocol(o)| <= buf.Length
    modifies buf
    ensures ptr == start + |Protocol(o)|
    ensures buf[..ptr] == old(buf[..start]) + Protocol(o)
    ensures forall i :: ptr <= i < buf.Length ==> buf[i] == old(buf[i])
  {
    if o.version == 4 {
      ptr := WriteString(buf, start, CString(MQTT_NAME));
      ptr := WriteChar(buf, ptr, 4);
      assert buf[..ptr] == old(buf[..start]) + (EncodeString(MQTT_NAME) + [4]);
    } else {
      ptr := WriteString(buf, start, CString(MQISDP_NAME));
      ptr := WriteChar(buf, ptr, 3);
      assert buf[..ptr] == old(buf[..start]) + (EncodeString(MQISDP_NAME) + [3]);
    }
  }

  method WriteFlags(buf: array<byte>, start: nat, o: ConnectData) returns (ptr: nat)
    requires start + 3 <= buf.Length
    modifies buf
    ensures ptr == start + 3
    ensures buf[..ptr] == old(buf[..start]) + ([Flags(o)] + EncodeInt(o.keepAlive))
    ensures forall i :: ptr <= i < buf.Length ==> buf[i] == old(buf[i])
  {
    var flags := o.clean % 2 * 2;
    if o.willFlag != 0 { flags := flags + 4 + o.will.qos % 4 * 8 + o.will.retained % 2 * 32; }
    if !o.username.Null? { flags := flags + 128; }
    if !o.password.Null? { flags := flags + 64; }
    ptr := WriteChar(buf, start, flags);
    ptr := WriteInt(buf, ptr, o.keepAlive);
  }

  method WriteField(buf: array<byte>, start: nat, present: bool, s: MqttString) returns (ptr: nat)
    requires start + |Field(present, s)| <= buf.Length
    modifies buf
    ensures ptr == start + |Field(present, s)|
    ensures buf[..ptr] == old(buf[..start]) + Field(present, s)
    ensures forall i :: ptr <= i < buf.Length ==> buf[i] == old(buf[i])
  {
    ptr := start;
    if present { ptr := WriteString(buf, start, s); }
  }

  method WriteTwo(buf: array<byte>, start: nat, present: bool, s: MqttString, present': bool, s': MqttString)
    returns (ptr: nat)
    requires start + |Field(present, s) + Field(present', s')| <= buf.Length
    modifies buf
    ensures ptr == start + |Field(present, s) + Field(present', s')|
    ensures buf[..ptr] == old(buf[..start]) + Field(present, s) + Field(present', s')
    ensures forall i :: ptr <= i < buf.Length ==> buf[i] == old(buf[i])
  {
    ptr := WriteField(buf, start, present, s);
    ptr := WriteField(buf, ptr, present', s');
  }

  method WriteFields(buf: array<byte>, start: nat, o: ConnectData) returns (ptr: nat)
    requires start + |Fields(o)| <= buf.Length
    modifies buf
    ensures ptr == start + |Fields(o)|
    ensures buf[..ptr] == old(buf[..start]) + Fields(o)
    ensures forall i :: ptr <= i < buf.Length ==> buf[i] == old(buf[i])
  {
    ghost var f1, f2 := Field(o.willFlag != 0, o.will.topic), Field(o.willFlag != 0, o.will.message);
    ghost var f3, f4 := Field(!o.username.Null?, o.username), Field(!o.password.Null?, o.password);
    FieldsSize(o);
    ptr := WriteString(buf, start, o.clientId);
    ptr := WriteTwo(buf, ptr, o.willFlag != 0, o.will.topic, o.willFlag != 0, o.will.message);
    ptr := WriteTwo(buf, ptr, !o.username.Null?, o.username, !o.password.Null?, o.password);
    Regroup(old(buf[..start]), EncodeString(o.clientId.Content()), f1, f2, f3, f4);
  }

  lemma FieldsSize(o: ConnectData)
    ensures |Fields(o)| == 2 + |o.clientId.Content()|
      + |Field(o.willFlag != 0, o.will.topic) + Field(o.willFlag != 0, o.will.message)|
      + |Field(!o.username.Null?, o.username) + Field(!o.password.Null?, o.password)|
  {
  }

  lemma Regroup(p: seq<byte>, a: seq<byte>, b: seq<byte>, c: seq<byte>, d: seq<byte>, e: seq<byte>)
    ensures p + a + b + c + d + e == p + (a + (b + (c + (d + e))))
  {
  }

  method DeserializeConnect(buf: array<byte>, prev: ConnectData) returns (rc: int, out: ConnectData)
    ensures (rc, out) == DecodeConnect(buf[..], prev)
  {
    if Kind(Peek(buf[..], 0)) != CONNECT { return 0, prev; }
    var n, len := PacketDecodeBuf(buf, 1);
    rc, out := ReadProtocol(buf, 1 + n, prev);
  }

  method ReadProtocol(buf: array<byte>, start: nat, prev: ConnectData) returns (rc: int, out: ConnectData)
    ensures (rc, out) == DecodeProtocol(Drop(buf[..], start), prev)
  {
    var b := buf[..];
    RestIsDrop(b, start);
    var ok, name, cur := ReadString(buf, start, buf.Length);
    if !ok { return 0, prev; }
    RestIsDrop(b, cur);
    PeekRest(b, cur, 0);
    var version := CharAt(b, cur);
    if !CheckVersion(name, version) { return 0, prev; }
    DropDrop(b, cur, 1);
    rc, out := ReadFields(buf, cur + 1, prev);
  }

  lemma RestIsDrop(b: seq<byte>, i: nat)
    ensures Rest(b, i, |b|) == Drop(b, i)
  {
  }

  lemma PeekRest(b: seq<byte>, i: nat, k: nat)
    ensures Peek(Drop(b, i), k) == Peek(b, i + k)
  {
  }

  lemma DropDrop(b: seq<byte>, i: nat, k: nat)
    ensures Drop(Drop(b, i), k) == Drop(b, i + k)
  {
  }

  lemma FrontAt(b: seq<byte>, i: nat)
    ensures Peek(Drop(b, i), 0) == Peek(b, i) && Int16At(Drop(b, i), 1) == Int16At(b, i + 1)
    ensures Drop(Drop(b, i), 3) == Rest(b, i + 3, |b|)
  {
  }

  method ReadFields(buf: array<byte>, start: nat, prev: ConnectData) returns (rc: int, out: ConnectData)
    ensures (rc, out) == DecodeFields(Drop(buf[..], start), prev)
  {
    var b := buf[..];
    var flags := Peek(b, start);
    out := prev.(clean := flags / 2 % 2, keepAlive := Int16At(b, start + 1));
    FrontAt(b, start);
    var ok, id, cur := ReadString(buf, start + 3, buf.Length);
    if !ok { return 0, out.(clientId := HalfString(out.clientId, Rest(b, start + 3, buf.Length))); }
    RestIsDrop(b, cur);
    out := out.(clientId := Counted(id), willFlag := flags / 4 % 2);
    ok, cur, out := ReadWill(buf, flags, cur, out);
    if !ok { return 0, out; }
    rc, out := ReadUser(buf, flags, cur, out);
  }

  method ReadWill(buf: array<byte>, flags: byte, start: nat, prev: ConnectData)
    returns (ok: bool, cur: nat, out: ConnectData)
    ensures var (ok', rest, out') := DecodeWill(flags, Drop(buf[..], start), prev);
      ok == ok' && out == out' && Drop(buf[..], cur) == rest
  {
    ok, cur, out := true, start, prev;
    if flags / 4 % 2 == 0 { return; }
    var b := buf[..];
    out := out.(will := out.will.(qos := flags / 8 % 4, retained := flags / 32 % 2));
    RestIsDrop(b, cur);
    var topic, next;
    ok, topic, next := ReadString(buf, cur, buf.Length);
    out := out.(will := out.will.(topic := if ok then Counted(topic) else HalfString(out.will.topic, Drop(b, cur))));
    if !ok { return; }
    cur := next;
    RestIsDrop(b, cur);
    var message;
    ok, message, next := ReadString(buf, cur, buf.Length);
    out := out.(will := out.will.(message :=
      if ok then Counted(message) else HalfString(out.will.message, Drop(b, cur))));
    if !ok { return; }
    cur := next;
    RestIsDrop(b, cur);
  }

  method ReadUser(buf: array<byte>, flags: byte, start: nat, prev: ConnectData) returns (rc: int, out: ConnectData)
    ensures (rc, out) == DecodeUser(flags, Drop(buf[..], start), prev)
  {
    var b := buf[..];
    out := prev;
    if flags / 128 == 0 {
      return if flags / 64 % 2 == 0 then 1 else 0, out;
    }
    RestIsDrop(b, start);
    if buf.Length - start < 3 { return 0, out; }
    var ok, username, cur := ReadString(buf, start, buf.Length);
    if !ok { return 0, out.(username := HalfString(out.username, Drop(b, start))); }
    RestIsDrop(b, cur);
    out := out.(username := Counted(username));
    if flags / 64 % 2 == 0 { return 1, out; }
    if buf.Length - cur < 3 { return 0, out; }
    var password, end;
    ok, password, end := ReadString(buf, cur, buf.Length);
    if !ok { return 0, out.(password := HalfString(out.password, Drop(b, cur))); }
    return 1, out.(password := Counted(password));
  }

  method DeserializeConnack(buf: array<byte>, prev: ConnackOut) returns (code: int, out: ConnackOut)
    ensures (code, out) == DecodeConnack(buf[..], prev)
  {
    if Kind(Peek(buf[..], 0)) != CONNACK { return 0, prev; }
    var n, len := PacketDecodeBuf(buf, 1);
    if len < 2 { return n, prev; }
    var flags: byte := Peek(buf[..], 1 + n);
    out := ConnackOut(flags % 2, Peek(buf[..], 2 + n));
    code := 1;
  }
}
