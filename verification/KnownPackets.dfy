/** The packets of the client as they stand in sections 2 and 3 of MQTT Version 3.1.1, byte for byte. */
module KnownPackets {
  import opened Bytes
  import opened FixedHeader
  import opened RemainingLength
  import opened PublishCodec
  import opened PacketBoundaries
  import opened Session
  import S = SubscribeCodec
  import U = UnsubscribeCodec
  import C = ConnectCodec

  // ---- first bytes ----

  lemma FirstByte(h: byte, body: seq<byte>)
    ensures Frame(h, body)[0] == h
  {
  }

  /** The first byte of every packet that a client sends. */
  lemma FirstBytes(p: Publish, s: S.Subscribe, u: U.Unsubscribe, o: C.ConnectData)
    requires p.Legal() && s.dup < 2 && u.dup < 2
    ensures p.Encoding()[0] == 48 + 8 * p.dup + 2 * p.qos + p.retained
    ensures s.Encoding()[0] == 130 + 8 * s.dup
    ensures u.Encoding()[0] == 162 + 8 * u.dup
    ensures C.Encoding(o)[0] == 16
  {
    HeaderIs(PUBLISH, p.dup, p.qos, p.retained);
    HeaderIs(SUBSCRIBE, s.dup, 1, 0);
    HeaderIs(UNSUBSCRIBE, u.dup, 1, 0);
    HeaderIs(CONNECT, 0, 0, 0);
    FirstByte(Header(PUBLISH, p.dup, p.qos, p.retained), p.Body());
    FirstByte(Header(SUBSCRIBE, s.dup, 1, 0), s.Body());
    FirstByte(Header(UNSUBSCRIBE, u.dup, 1, 0), u.Body());
  }

  // ---- whole packets ----

  /** SUBSCRIBE with id 1 to "a" with QoS `qos`. */
  lemma SubscribeBytes(qos: nat)
    requires qos <= 2
    ensures S.Subscribe(0, 1, [S.Entry([97], qos)]).Encoding() == [130, 6, 0, 1, 0, 1, 97, qos]
  {
    var e := S.Entry([97], qos);
    var s := S.Subscribe(0, 1, [e]);
    assert S.EncodeEntries([e]) == e.Encoding() + S.EncodeEntries([e][1..]);
    assert s.Body() == [0, 1, 0, 1, 97, qos];
    HeaderIs(SUBSCRIBE, 0, 1, 0);
    Whole(Header(SUBSCRIBE, 0, 1, 0), s.Body(), 130, [0, 1, 0, 1, 97, qos]);
  }

  lemma Whole(h: byte, body: seq<byte>, h': byte, body': seq<byte>)
    requires h == h' && body == body' && |body| < 128
    ensures Frame(h, body) == [h', |body'|] + body'
  {
    ShortFrame(h, body);
  }

  /** UNSUBSCRIBE with id 1 from "a". */
  lemma UnsubscribeBytes()
    ensures U.Unsubscribe(0, 1, [[97]]).Encoding() == [162, 5, 0, 1, 0, 1, 97]
  {
    var f: seq<byte> := [97];
    var u := U.Unsubscribe(0, 1, [f]);
    assert U.EncodeFilters([f]) == EncodeString(f) + U.EncodeFilters([f][1..]);
    assert u.Body() == [0, 1, 0, 1, 97];
    HeaderIs(UNSUBSCRIBE, 0, 1, 0);
    Whole(Header(UNSUBSCRIBE, 0, 1, 0), u.Body(), 162, [0, 1, 0, 1, 97]);
  }

  /** PUBLISH of the byte 9 to "a" with QoS 1, retained, with id 261. */
  lemma PublishBytes()
    ensures Publish(0, 1, 1, 261, [97], [9]).Encoding() == [51, 6, 0, 1, 97, 1, 5, 9]
  {
    var p := Publish(0, 1, 1, 261, [97], [9]);
    assert p.Body() == [0, 1, 97, 1, 5, 9];
    HeaderIs(PUBLISH, 0, 1, 1);
    Whole(Header(PUBLISH, 0, 1, 1), p.Body(), 51, [0, 1, 97, 1, 5, 9]);
  }

  /** PINGREQ and DISCONNECT. */
  lemma ShortPackets()
    ensures Ping.Bytes() == [192, 0] && [Header(DISCONNECT, 0, 0, 0), 0] == [224, 0]
  {
    HeaderIs(PINGREQ, 0, 0, 0);
    HeaderIs(DISCONNECT, 0, 0, 0);
  }

  // ---- CONNECT ----

  /** The protocol name and level, whatever else the packet holds. */
  lemma ConnectFront(o: C.ConnectData)
    ensures o.version == 4 ==> [0, 4, 77, 81, 84, 84, 4] <= C.Body(o)
    ensures o.version == 3 ==> [0, 6, 77, 81, 73, 115, 100, 112, 3] <= C.Body(o)
    ensures C.Encoding(o) == [16] + Encode(C.ConnectLength(o)) + C.Body(o)
  {
    HeaderIs(CONNECT, 0, 0, 0);
    assert o.version == 4 ==> C.Protocol(o) == [0, 4, 77, 81, 84, 84, 4];
    assert o.version == 3 ==> C.Protocol(o) == [0, 6, 77, 81, 73, 115, 100, 112, 3];
  }

  lemma ShortLength(n: nat)
    requires n < 128
    ensures Encode(n) == [n]
  {
  }

  /** A short CONNECT of level 4, put together. */
  lemma ConnectParts(o: C.ConnectData, flags: byte, alive: seq<byte>, fields: seq<byte>)
    requires o.version == 4 && C.Flags(o) == flags && EncodeInt(o.keepAlive) == alive && C.Fields(o) == fields
    requires |fields| < 100
    ensures C.Encoding(o) == [16, 10 + |fields|] + [0, 4, 77, 81, 84, 84, 4] + ([flags] + alive + fields)
  {
    ConnectFront(o);
    C.ConnectLengthExactly(o);
    ProtocolFour(o);
    ShortLength(C.ConnectLength(o));
    Regroup([16], [10 + |fields|], [0, 4, 77, 81, 84, 84, 4], [flags] + alive + fields);
  }

  lemma ProtocolFour(o: C.ConnectData)
    requires o.version == 4
    ensures C.Protocol(o) == [0, 4, 77, 81, 84, 84, 4]
  {
  }

  lemma Regroup(a: seq<byte>, b: seq<byte>, c: seq<byte>, d: seq<byte>)
    ensures a + b + (c + d) == (a + b) + c + d
  {
  }

  lemma OneCharacter(c: byte)
    ensures EncodeString([c]) == [0, 1, c]
  {
  }

  /** CONNECT with clean session, a keepalive of 60 seconds and the client id "c". */
  lemma ConnectBytes(o: C.ConnectData)
    requires o.version == 4 && o.clientId == CString([99]) && o.keepAlive == 60 && o.clean == 1 && o.willFlag == 0
    requires o.username == Null && o.password == Null
    ensures C.Encoding(o) == [16, 13] + [0, 4, 77, 81, 84, 84, 4] + ([2] + [0, 60] + [0, 1, 99])
  {
    OneCharacter(99);
    ConnectParts(o, 2, [0, 60], [0, 1, 99]);
  }

  /** CONNECT with everything: a retained will of QoS 1, user name and password. */
  lemma FullConnectBytes(o: C.ConnectData)
    requires o.version == 4 && o.clientId == CString([99]) && o.keepAlive == 60 && o.clean == 0 && o.willFlag == 1
    requires o.will == C.Will(CString([119]), CString([109]), 1, 1)
    requires o.username == CString([117]) && o.password == CString([112])
    ensures C.Encoding(o) == [16, 25] + [0, 4, 77, 81, 84, 84, 4]
      + ([236] + [0, 60] + ([0, 1, 99] + ([0, 1, 119] + ([0, 1, 109] + ([0, 1, 117] + [0, 1, 112])))))
  {
    OneCharacter(99);
    OneCharacter(119);
    OneCharacter(109);
    OneCharacter(117);
    OneCharacter(112);
    ConnectParts(o, 236, [0, 60], [0, 1, 99] + ([0, 1, 119] + ([0, 1, 109] + ([0, 1, 117] + [0, 1, 112]))));
  }

  /** Section 3.1.2.3: clean session is bit 1, the password bit 6, the user name bit 7. */
  lemma FlagBits(o: C.ConnectData)
    requires o.willFlag == 0
    ensures o.clean == 1 && o.username == Null && o.password == Null ==> C.Flags(o) == 2
    ensures o.clean == 0 && o.username != Null && o.password == Null ==> C.Flags(o) == 128
    ensures o.clean == 0 && o.username != Null && o.password != Null ==> C.Flags(o) == 192
  {
  }

  // ---- what a server sends ----

  /** CONNACK, and SUBACK with one code. */
  lemma ServerBytes(sessionPresent: nat, rc: byte, id: ushort, code: nat)
    requires sessionPresent < 2 && code < 128
    ensures C.EncodeConnack(rc, sessionPresent) == [32, 2, sessionPresent, rc]
    ensures S.EncodeSuback(id, [code]) == [144, 3, id / 256, id % 256, code]
  {
    HeaderIs(CONNACK, 0, 0, 0);
    HeaderIs(SUBACK, 0, 0, 0);
    Whole(Header(CONNACK, 0, 0, 0), [sessionPresent % 2, rc], 32, [sessionPresent, rc]);
    var codes: seq<int> := [code];
    assert S.EncodeCodes(codes) == [code];
    Whole(Header(SUBACK, 0, 0, 0), EncodeInt(id) + S.EncodeCodes(codes), 144, [id / 256, id % 256, code]);
  }
}
