/** MQTTSubscribeClient.c and MQTTSubscribeServer.c: SUBSCRIBE with its list of filters, and SUBACK. */
module SubscribeCodec {
  import opened Bytes
  import opened FixedHeader
  import opened RemainingLength

  datatype Entry = Entry(filter: seq<byte>, qos: int)
  {
    /** `writeMQTTString` then `writeChar`. */
    function Encoding(): seq<byte> {
      EncodeString(filter) + [qos % 256]
    }

    predicate Legal() {
      |filter| < 65536 && -128 <= qos < 128
    }
  }

  function EncodeEntries(es: seq<Entry>): seq<byte> {
    if es == [] then [] else es[0].Encoding() + EncodeEntries(es[1..])
  }

  /** The list loop of `MQTTDeserialize_subscribe` over the bytes still to read: whether it got to the
      end, and the entries stored. */
  function TakeEntries(s: seq<byte>, room: nat): (bool, seq<Entry>)
    decreases |s|
  {
    if s == [] then (true, [])
    else if room == 0 then (false, [])
    else match TakeEntry(s)
      case None => (false, [])
      case Some((e, rest)) =>
        var (ok, es) := TakeEntries(rest, room - 1);
        (ok, [e] + es)
  }

  function TakeEntry(s: seq<byte>): (r: Option<(Entry, seq<byte>)>)
    ensures r.Some? ==> |r.value.1| < |s|
  {
    match TakeString(s)
    case None => None
    case Some((filter, rest)) =>
      if rest == [] then None else Some((Entry(filter, CharAt(rest, 0)), rest[1..]))
  }

  predicate AllLegal(es: seq<Entry>) {
    es == [] || (es[0].Legal() && AllLegal(es[1..]))
  }

  datatype Subscribe = Subscribe(dup: nat, id: ushort, entries: seq<Entry>)
  {
    function Body(): seq<byte> {
      EncodeInt(id) + EncodeEntries(entries)
    }

    predicate Legal() {
      dup < 2 && |Body()| <= MAX_REMAINING_LENGTH && AllLegal(entries)
    }

    function Encoding(): seq<byte> {
      Frame(Header(SUBSCRIBE, dup, 1, 0), Body())
    }
  }

  /** The scalar out-parameters of `MQTTDeserialize_subscribe`. */
  datatype ListHead = ListHead(dup: nat, id: ushort, count: nat)

  function DecodeSubscribe(b: seq<byte>, maxcount: nat, prev: ListHead): (int, ListHead, seq<Entry>) {
    var h := Peek(b, 0);
    if Kind(h) != SUBSCRIBE then (READ_ERROR, prev, [])
    else
      var (n, len) := Decode(b, 1);
      var (ok, es) := TakeEntries(if len < 2 then [] else BodyOf(b)[2..], maxcount);
      (if ok then 1 else READ_ERROR, ListHead(Dup(h), Int16At(b, 1 + n), |es|), es)
  }

  // ---- what the return code 1 is worth ----

  /** The entries announced by the remaining length all fit, in the packet and in the room for them. */
  predicate EntriesFit(b: seq<byte>, maxcount: nat) {
    TakeEntries(if Decode(b, 1).1 < 2 then [] else BodyOf(b)[2..], maxcount).0
  }

  /** "1 is success", which is a packet id and entries that fit, holds of a SUBSCRIBE exactly when there are two
      bytes for the id. */
  lemma SubscribeSuccessIsReal(b: seq<byte>, maxcount: nat, prev: ListHead)
    requires Kind(Peek(b, 0)) == SUBSCRIBE
    ensures var len := Decode(b, 1).1;
      (DecodeSubscribe(b, maxcount, prev).0 == 1 ==> len >= 2 && EntriesFit(b, maxcount)) <==> len >= 2
  {
  }

  /** An empty SUBSCRIBE: "success", with the id from the bytes after the packet. */
  lemma EmptySubscribeReportsSuccess(maxcount: nat, prev: ListHead)
    ensures DecodeSubscribe([130, 0, 7, 9], maxcount, prev) == (1, ListHead(0, 1801, 0), [])
  {
    var b := [130, 0, 7, 9];
    assert Decode(b, 1) == (1, 0) && Int16At(b, 2) == 1801;
  }

  // ---- round trip ----

  lemma EntryRoundTrip(e: Entry, rest: seq<byte>)
    requires e.Legal()
    ensures TakeEntry(e.Encoding() + rest) == Some((e, rest))
  {
    TakeStringRoundTrip(e.filter, [e.qos % 256] + rest);
    assert e.Encoding() + rest == EncodeString(e.filter) + ([e.qos % 256] + rest);
  }

  lemma EntriesCons(e: Entry, rest: seq<byte>, room: nat, ok: bool, es: seq<Entry>)
    requires e.Legal() && room > 0 && TakeEntries(rest, room - 1) == (ok, es)
    ensures TakeEntries(e.Encoding() + rest, room) == (ok, [e] + es)
  {
    EntryRoundTrip(e, rest);
  }

  lemma {:induction false} EntriesRoundTrip(es: seq<Entry>, room: nat)
    requires AllLegal(es) && |es| <= room
    ensures TakeEntries(EncodeEntries(es), room) == (true, es)
  {
    if es != [] {
      EntriesRoundTrip(es[1..], room - 1);
      EntriesCons(es[0], EncodeEntries(es[1..]), room, true, es[1..]);
      assert es == [es[0]] + es[1..];
    }
  }

  lemma SubscribeRoundTrip(s: Subscribe, b: seq<byte>, maxcount: nat, prev: ListHead)
    requires s.Legal() && |s.entries| <= maxcount && At(b, 0, s.Encoding())
    ensures DecodeSubscribe(b, maxcount, prev) == (1, ListHead(s.dup, s.id, |s.entries|), s.entries)
  {
    SubscribeRead(s, b, maxcount, prev);
    EntriesRoundTrip(s.entries, maxcount);
  }

  /** A list longer than the room is refused after exactly the entries that fit. */
  lemma SubscribeOverflow(s: Subscribe, b: seq<byte>, maxcount: nat, prev: ListHead)
    requires s.Legal() && |s.entries| > maxcount && At(b, 0, s.Encoding())
    ensures DecodeSubscribe(b, maxcount, prev) ==
      (READ_ERROR, ListHead(s.dup, s.id, maxcount), s.entries[..maxcount])
  {
    SubscribeRead(s, b, maxcount, prev);
    TooManyEntries(s.entries, maxcount);
  }

  lemma SubscribeRead(s: Subscribe, b: seq<byte>, maxcount: nat, prev: ListHead)
    requires s.Legal() && At(b, 0, s.Encoding())
    ensures var (ok, es) := TakeEntries(EncodeEntries(s.entries), maxcount);
      DecodeSubscribe(b, maxcount, prev) ==
        (if ok then 1 else READ_ERROR, ListHead(s.dup, s.id, |es|), es)
  {
    HeaderFields(SUBSCRIBE, s.dup, 1, 0);
    IdFrame(b, Header(SUBSCRIBE, s.dup, 1, 0), s.id, EncodeEntries(s.entries));
    DecodeSubscribeParts(b, maxcount, prev, Peek(b, 0), EncodeEntries(s.entries));
  }

  lemma DecodeSubscribeParts(b: seq<byte>, maxcount: nat, prev: ListHead, h: byte, rest: seq<byte>)
    requires Peek(b, 0) == h && Kind(h) == SUBSCRIBE
    requires Decode(b, 1).1 == 2 + |rest| && BodyOf(b)[2..] == rest
    ensures var (ok, es) := TakeEntries(rest, maxcount);
      DecodeSubscribe(b, maxcount, prev) ==
        (if ok then 1 else READ_ERROR, ListHead(Dup(h), Int16At(b, 1 + Decode(b, 1).0), |es|), es)
  {
  }

  lemma {:induction false} TooManyEntries(es: seq<Entry>, room: nat)
    requires AllLegal(es) && |es| > room
    ensures TakeEntries(EncodeEntries(es), room) == (false, es[..room])
  {
    if room == 0 {
      assert |EncodeEntries(es)| >= |es[0].Encoding()| > 0;
    } else {
      TooManyEntries(es[1..], room - 1);
      EntriesCons(es[0], EncodeEntries(es[1..]), room, false, es[1..][..room - 1]);
      FrontCons(es, room);
    }
  }

  lemma FrontCons<T>(s: seq<T>, n: nat)
    requires 0 < n <= |s|
    ensures s[..n] == [s[0]] + s[1..][..n - 1]
  {
  }

  // ---- SUBACK ----

  function EncodeCodes(codes: seq<int>): (f: seq<byte>)
    ensures |f| == |codes|
  {
    if codes == [] then [] else [codes[0] % 256] + EncodeCodes(codes[1..])
  }

  predicate AreChars(codes: seq<int>) {
    forall i :: 0 <= i < |codes| ==> -128 <= codes[i] < 128
  }

  function EncodeSuback(id: ushort, codes: seq<int>): seq<byte> {
    Frame(Header(SUBACK, 0, 0, 0), EncodeInt(id) + EncodeCodes(codes))
  }

  /** The list loop of `MQTTDeserialize_suback`; its test lets one code more than `maxcount` through. */
  function TakeCodes(s: seq<byte>, room: nat): (r: (bool, seq<int>))
    ensures |r.1| <= room
  {
    if s == [] then (true, [])
    else if room == 0 then (false, [])
    else
      var (ok, codes) := TakeCodes(s[1..], room - 1);
      (ok, [CharAt(s, 0)] + codes)
  }

  datatype SubackOut = SubackOut(id: ushort, count: nat)

  function DecodeSuback(b: seq<byte>, maxcount: nat, prev: SubackOut): (int, SubackOut, seq<int>) {
    if Kind(Peek(b, 0)) != SUBACK then (0, prev, [])
    else
      var (n, len) := Decode(b, 1);
      if len < 2 then (n, prev, [])
      else
        var (ok, codes) := TakeCodes(BodyOf(b)[2..], maxcount + 1);
        var rc: int := if ok then 1 else -1;
        (rc, SubackOut(Int16At(b, 1 + n), |codes|), codes)
  }

  lemma {:induction false} CodesRoundTrip(codes: seq<int>, room: nat)
    requires AreChars(codes) && |codes| <= room
    ensures TakeCodes(EncodeCodes(codes), room) == (true, codes)
  {
    if codes != [] {
      CodesRoundTrip(codes[1..], room - 1);
      CodesCons(codes[0], EncodeCodes(codes[1..]), room);
      assert codes == [codes[0]] + codes[1..];
    }
  }

  lemma CodesCons(c: int, rest: seq<byte>, room: nat)
    requires -128 <= c < 128 && room > 0
    ensures var (ok, codes) := TakeCodes(rest, room - 1);
      TakeCodes([c % 256] + rest, room) == (ok, [c] + codes)
  {
  }

  lemma SubackRoundTrip(id: ushort, codes: seq<int>, b: seq<byte>, maxcount: nat, prev: SubackOut)
    requires AreChars(codes) && |codes| <= maxcount + 1
    requires 2 + |codes| <= MAX_REMAINING_LENGTH
    requires At(b, 0, EncodeSuback(id, codes))
    ensures DecodeSuback(b, maxcount, prev) == (1, SubackOut(id, |codes|), codes)
  {
    CodesRoundTrip(codes, maxcount + 1);
    SubackRead(id, EncodeCodes(codes), codes, b, maxcount, prev);
  }

  lemma SubackRead(id: ushort, rest: seq<byte>, codes: seq<int>, b: seq<byte>, maxcount: nat, prev: SubackOut)
    requires 2 + |rest| <= MAX_REMAINING_LENGTH
    requires At(b, 0, Frame(Header(SUBACK, 0, 0, 0), EncodeInt(id) + rest))
    requires TakeCodes(rest, maxcount + 1) == (true, codes)
    ensures DecodeSuback(b, maxcount, prev) == (1, SubackOut(id, |codes|), codes)
  {
    HeaderFields(SUBACK, 0, 0, 0);
    SubackFrameRead(id, rest, codes, b, maxcount, prev, Header(SUBACK, 0, 0, 0));
  }

  lemma SubackFrameRead(id: ushort, rest: seq<byte>, codes: seq<int>, b: seq<byte>, maxcount: nat, prev: SubackOut,
      h: byte)
    requires Kind(h) == SUBACK && 2 + |rest| <= MAX_REMAINING_LENGTH && At(b, 0, Frame(h, EncodeInt(id) + rest))
    requires TakeCodes(rest, maxcount + 1) == (true, codes)
    ensures DecodeSuback(b, maxcount, prev) == (1, SubackOut(id, |codes|), codes)
  {
    IdFrame(b, h, id, rest);
    DecodeSubackParts(b, maxcount, prev, h, rest, codes);
  }

  lemma DecodeSubackParts(b: seq<byte>, maxcount: nat, prev: SubackOut, h: byte, rest: seq<byte>, codes: seq<int>)
    requires Peek(b, 0) == h && Kind(h) == SUBACK
    requires Decode(b, 1).1 == 2 + |rest| && BodyOf(b)[2..] == rest
    requires TakeCodes(rest, maxcount + 1) == (true, codes)
    ensures DecodeSuback(b, maxcount, prev) == (1, SubackOut(Int16At(b, 1 + Decode(b, 1).0), |codes|), codes)
  {
  }

  /** "1 is success" holds of a SUBACK exactly when two bytes follow the length or the length field has
      more than one byte. */
  lemma SubackSuccessIsReal(b: seq<byte>, maxcount: nat, prev: SubackOut)
    requires Kind(Peek(b, 0)) == SUBACK
    ensures var (n, len) := Decode(b, 1);
      var whole := len >= 2 && TakeCodes(BodyOf(b)[2..], maxcount + 1).0;
      (DecodeSuback(b, maxcount, prev).0 == 1 ==> whole) <==> len >= 2 || n > 1
    ensures Decode(b, 1).1 < 2 ==> DecodeSuback(b, maxcount, prev).1 == prev
  {
  }

  /** An empty SUBACK is "successfully" read, and grants nothing. */
  lemma EmptySubackReportsSuccess(maxcount: nat, prev: SubackOut)
    ensures DecodeSuback([144, 0], maxcount, prev) == (1, prev, [])
  {
  }

  lemma {:induction false} CodesAreChars(s: seq<byte>, room: nat)
    ensures AreChars(TakeCodes(s, room).1)
  {
    if s != [] && room > 0 { CodesAreChars(s[1..], room - 1); }
  }

  /** Whatever the bytes, no code read is 0x80: all of them are between -128 and 127. */
  lemma NoCodeIsFailure(b: seq<byte>, maxcount: nat, prev: SubackOut)
    ensures AreChars(DecodeSuback(b, maxcount, prev).2)
  {
    if Decode(b, 1).1 >= 2 { CodesAreChars(BodyOf(b)[2..], maxcount + 1); }
  }

  /** The bytes of `codes` as `char`s. */
  function Signed(codes: seq<int>): (r: seq<int>)
    ensures |r| == |codes|
  {
    if codes == [] then []
    else
      var last := codes[|codes| - 1];
      Signed(codes[..|codes| - 1]) + [if last < 128 then last else last - 256]
  }

  predicate AreBytes(codes: seq<int>) {
    forall i :: 0 <= i < |codes| ==> 0 <= codes[i] < 256
  }

  lemma {:induction false} SignedIs(codes: seq<int>)
    requires AreBytes(codes)
    ensures forall i :: 0 <= i < |codes| ==> Signed(codes)[i] == if codes[i] < 128 then codes[i] else codes[i] - 256
  {
    if codes != [] { SignedIs(codes[..|codes| - 1]); }
  }

  lemma {:induction false} SameBytes(x: seq<int>, y: seq<int>)
    requires |x| == |y| && forall i :: 0 <= i < |x| ==> x[i] % 256 == y[i] % 256
    ensures EncodeCodes(x) == EncodeCodes(y)
  {
    if x != [] {
      assert forall i :: 0 <= i < |x| - 1 ==> x[1..][i] == x[i + 1] && y[1..][i] == y[i + 1];
      SameBytes(x[1..], y[1..]);
    }
  }

  lemma SubackReadsSigned(id: ushort, codes: seq<int>, b: seq<byte>, maxcount: nat, prev: SubackOut)
    requires AreBytes(codes) && |codes| <= maxcount + 1 && 2 + |codes| <= MAX_REMAINING_LENGTH
    requires At(b, 0, EncodeSuback(id, codes))
    ensures DecodeSuback(b, maxcount, prev) == (1, SubackOut(id, |codes|), Signed(codes))
  {
    SignedOnWire(id, codes);
    SubackReadsAs(id, codes, Signed(codes), b, maxcount, prev);
  }

  lemma SignedOnWire(id: ushort, codes: seq<int>)
    requires AreBytes(codes)
    ensures AreChars(Signed(codes)) && EncodeSuback(id, codes) == EncodeSuback(id, Signed(codes))
  {
    SignedIs(codes);
    SameBytes(codes, Signed(codes));
    SameCodes(id, codes, Signed(codes));
  }

  lemma SubackReadsAs(id: ushort, codes: seq<int>, chars: seq<int>, b: seq<byte>, maxcount: nat, prev: SubackOut)
    requires AreChars(chars) && |chars| == |codes| <= maxcount + 1 && 2 + |codes| <= MAX_REMAINING_LENGTH
    requires EncodeSuback(id, codes) == EncodeSuback(id, chars) && At(b, 0, EncodeSuback(id, codes))
    ensures DecodeSuback(b, maxcount, prev) == (1, SubackOut(id, |chars|), chars)
  {
    SubackRoundTrip(id, chars, b, maxcount, prev);
  }

  lemma SameCodes(id: ushort, x: seq<int>, y: seq<int>)
    requires EncodeCodes(x) == EncodeCodes(y)
    ensures EncodeSuback(id, x) == EncodeSuback(id, y)
  {
  }

  /** Return codes come back as they were sent exactly when every one is below 128, so never the failure
      code 0x80 of section 3.9.3. */
  lemma CodesComeBackExactly(id: ushort, codes: seq<int>, b: seq<byte>, maxcount: nat, prev: SubackOut)
    requires AreBytes(codes) && |codes| <= maxcount + 1 && 2 + |codes| <= MAX_REMAINING_LENGTH
    requires At(b, 0, EncodeSuback(id, codes))
    ensures DecodeSuback(b, maxcount, prev).2 == codes <==> forall i :: 0 <= i < |codes| ==> codes[i] < 128
  {
    SubackReadsSigned(id, codes, b, maxcount, prev);
    SignedIs(codes);
    assert (forall i :: 0 <= i < |codes| ==> Signed(codes)[i] == codes[i]) <==> Signed(codes) == codes;
  }

  /** The failure code 0x80 of section 3.9.3 is read back as -128, so a test against 0x80 never sees it. */
  lemma FailureCodeIsNegative(id: ushort, b: seq<byte>, prev: SubackOut)
    requires At(b, 0, EncodeSuback(id, [0x80]))
    ensures DecodeSuback(b, 1, prev) == (1, SubackOut(id, 1), [-128])
  {
    SubackReadsSigned(id, [0x80], b, 1, prev);
    SignedIs([0x80]);
    assert Signed([0x80]) == [-128];
  }

  // ---- the functions over buffers ----

  /** Entries as the two parallel arrays of the C interface. */
  function Zip(filters: seq<MqttString>, qos: seq<int>): (es: seq<Entry>)
    requires |filters| == |qos|
    ensures |es| == |filters|
  {
    seq(|filters|, i requires 0 <= i < |filters| => Entry(filters[i].Content(), qos[i]))
  }

  lemma {:induction false} EntriesSplit(es: seq<Entry>, i: nat)
    requires i < |es|
    ensures EncodeEntries(es[i..]) == es[i].Encoding() + EncodeEntries(es[i + 1..])
  {
  }

  /** `MQTTSerialize_subscribeLength`. */
  method SubscribeLength(filters: seq<MqttString>, qos: seq<int>) returns (len: nat)
    requires |filters| == |qos|
    ensures len == 2 + |EncodeEntries(Zip(filters, qos))|
  {
    ghost var es := Zip(filters, qos);
    len := 2;
    assert es[0..] == es;
    for i := 0 to |filters|
      invariant len + |EncodeEntries(es[i..])| == 2 + |EncodeEntries(es)|
    {
      EntriesSplit(es, i);
      len := len + 2 + |filters[i].Content()| + 1;
    }
  }

  method SerializeSubscribe(buf: array<byte>, buflen: nat, dup: nat, id: ushort, filters: seq<MqttString>,
      qos: seq<int>)
    returns (rc: int)
    requires buflen <= buf.Length && |filters| == |qos|
    requires |Subscribe(dup, id, Zip(filters, qos)).Body()| <= MAX_REMAINING_LENGTH
    modifies buf
    ensures var s := Subscribe(dup, id, Zip(filters, qos));
      && (PacketLen(|s.Body()|) > buflen ==> rc == BUFFER_TOO_SHORT && buf[..] == old(buf[..]))
      && (PacketLen(|s.Body()|) <= buflen ==>
        && rc == FrameSize(|s.Body()|) <= buflen
        && buf[..rc] == s.Encoding()
        && forall i :: rc <= i < buf.Length ==> buf[i] == old(buf[i]))
    ensures rc > 0 ==> buf[0] == 130 + 8 * (dup % 2)
  {
    HeaderByte(SUBSCRIBE, dup, 1, 0);
    ghost var s := Subscribe(dup, id, Zip(filters, qos));
    var remLen := SubscribeLength(filters, qos);
    if PacketLen(remLen) > buflen { return BUFFER_TOO_SHORT; }
    PacketLenIsSafe(remLen);
    var ptr := WriteHeader(buf, Header(SUBSCRIBE, dup, 1, 0), remLen);
    ptr := WriteInt(buf, ptr, id);
    ptr := WriteEntries(buf, ptr, filters, qos);
    FrameJoin(buf[..ptr], Header(SUBSCRIBE, dup, 1, 0), EncodeInt(id), EncodeEntries(s.entries));
    FrameStarts(buf[..ptr], Header(SUBSCRIBE, dup, 1, 0), EncodeInt(id) + EncodeEntries(s.entries));
    rc := ptr;
  }

  method WriteEntries(buf: array<byte>, start: nat, filters: seq<MqttString>, qos: seq<int>) returns (ptr: nat)
    requires |filters| == |qos|
    requires start + |EncodeEntries(Zip(filters, qos))| <= buf.Length
    modifies buf
    ensures ptr == start + |EncodeEntries(Zip(filters, qos))|
    ensures buf[..ptr] == old(buf[..start]) + EncodeEntries(Zip(filters, qos))
    ensures forall i :: ptr <= i < buf.Length ==> buf[i] == old(buf[i])
  {
    ghost var es := Zip(filters, qos);
    ghost var done: seq<byte> := [];
    ptr := start;
    assert es[0..] == es;
    for i := 0 to |filters|
      invariant done + EncodeEntries(es[i..]) == EncodeEntries(es)
      invariant ptr == start + |done| <= buf.Length
      invariant buf[..ptr] == old(buf[..start]) + done
      invariant forall k :: ptr <= k < buf.Length ==> buf[k] == old(buf[k])
    {
      EntriesSplit(es, i);
      ghost var e := es[i].Encoding();
      ptr := WriteEntry(buf, ptr, filters[i], qos[i]);
      Joined(old(buf[..start]), done, e);
      Joined(done, e, EncodeEntries(es[i + 1..]));
      done := done + e;
    }
  }

  method WriteEntry(buf: array<byte>, start: nat, filter: MqttString, qos: int) returns (ptr: nat)
    requires start + 3 + |filter.Content()| <= buf.Length
    modifies buf
    ensures ptr == start + 3 + |filter.Content()|
    ensures buf[..ptr] == old(buf[..start]) + Entry(filter.Content(), qos).Encoding()
    ensures forall i :: ptr <= i < buf.Length ==> buf[i] == old(buf[i])
  {
    ptr := WriteString(buf, start, filter);
    ptr := WriteChar(buf, ptr, qos);
    assert buf[..ptr] == old(buf[..start]) + (EncodeString(filter.Content()) + [qos % 256]);
  }

  method DeserializeSubscribe(buf: array<byte>, maxcount: nat, filters: array<seq<byte>>, qos: array<int>,
      prev: ListHead)
    returns (rc: int, head: ListHead)
    requires maxcount <= filters.Length && maxcount <= qos.Length
    modifies filters, qos
    ensures (rc, head) == (DecodeSubscribe(buf[..], maxcount, prev).0, DecodeSubscribe(buf[..], maxcount, prev).1)
    ensures var es := DecodeSubscribe(buf[..], maxcount, prev).2;
      |es| <= maxcount && Stored(filters[..], qos[..], es)
  {
    var b := buf[..];
    var h := Peek(b, 0);
    if Kind(h) != SUBSCRIBE { return READ_ERROR, prev; }
    var n, len := PacketDecodeBuf(buf, 1);
    BodyTail(b, n, len);
    var ok, count := ReadEntries(buf, 1 + n + 2, 1 + n + len, maxcount, filters, qos);
    head := ListHead(Dup(h), Int16At(b, 1 + n), count);
    rc := if ok then 1 else READ_ERROR;
  }

  method ReadEntry(buf: array<byte>, cur: nat, end: int, filters: array<seq<byte>>, qos: array<int>, count: nat)
    returns (ok: bool, next: nat)
    requires cur < end && count < filters.Length && count < qos.Length
    modifies filters, qos
    ensures TakeEntry(Rest(buf[..], cur, end)) ==
      if ok then Some((Entry(filters[count], qos[count]), Rest(buf[..], next, end))) else None
    ensures ok ==> next > cur
    ensures forall k :: 0 <= k < count ==> filters[k] == old(filters[k]) && qos[k] == old(qos[k])
  {
    hide Bytes.TakeString, Bytes.StringAt, CharAt;
    var b := buf[..];
    var filter;
    ok, filter, next := ReadString(buf, cur, end);
    if !ok { return; }
    filters[count] := filter;
    if next >= end { return false, next; }
    CharAtCursor(b, next, end);
    qos[count] := CharAt(b, next);
    return true, next + 1;
  }

  /** The list loop with the bytes and the room left and the entries stored so far. */
  predicate Reading(s: seq<byte>, room: nat, done: seq<Entry>, ok: bool, all: seq<Entry>) {
    var (o, es) := TakeEntries(s, room);
    o == ok && all == done + es
  }

  lemma EntriesNext(s: seq<byte>, room: nat, done: seq<Entry>, ok: bool, all: seq<Entry>, e: Entry, rest: seq<byte>)
    requires s != [] && room > 0 && Reading(s, room, done, ok, all) && TakeEntry(s) == Some((e, rest))
    ensures Reading(rest, room - 1, done + [e], ok, all)
  {
  }

  lemma EntriesStop(s: seq<byte>, room: nat, done: seq<Entry>, ok: bool, all: seq<Entry>)
    requires s != [] && Reading(s, room, done, ok, all) && (room == 0 || TakeEntry(s).None?)
    ensures !ok && all == done
  {
  }

  lemma ReadingEnds(done: seq<Entry>, room: nat, ok: bool, all: seq<Entry>)
    requires Reading([], room, done, ok, all)
    ensures ok && all == done
  {
  }

  /** The entries stored in the two arrays. */
  predicate Stored(filters: seq<seq<byte>>, qos: seq<int>, es: seq<Entry>) {
    |es| <= |filters| && |es| <= |qos| && forall k :: 0 <= k < |es| ==> Entry(filters[k], qos[k]) == es[k]
  }

  method ReadEntries(buf: array<byte>, start: nat, end: int, maxcount: nat, filters: array<seq<byte>>, qos: array<int>)
    returns (ok: bool, count: nat)
    requires maxcount <= filters.Length && maxcount <= qos.Length
    modifies filters, qos
    ensures var (ok', es) := TakeEntries(Rest(buf[..], start, end), maxcount);
      ok == ok' && count == |es| <= maxcount && Stored(filters[..], qos[..], es)
  {
    ghost var (ok', es) := TakeEntries(Rest(buf[..], start, end), maxcount);
    ok, count := ReadEntryList(buf, start, end, maxcount, filters, qos, ok', es);
  }

  method ReadNextEntry(buf: array<byte>, cur: nat, end: int, filters: array<seq<byte>>, qos: array<int>, count: nat,
      ghost done: seq<Entry>, ghost s: seq<byte>)
    returns (ok: bool, next: nat, ghost e: Entry)
    requires cur < end && count < filters.Length && count < qos.Length && count == |done|
    requires s == Rest(buf[..], cur, end) && Stored(filters[..], qos[..], done)
    modifies filters, qos
    ensures s != [] && TakeEntry(s) == if ok then Some((e, Rest(buf[..], next, end))) else None
    ensures Stored(filters[..], qos[..], if ok then done + [e] else done)
    ensures ok ==> next > cur
  {
    ok, next := ReadEntry(buf, cur, end, filters, qos, count);
    e := Entry(filters[count], qos[count]);
  }

  /** One turn of the list loop. */
  method EntryTurn(buf: array<byte>, cur: nat, end: int, room: nat, filters: array<seq<byte>>, qos: array<int>,
      count: nat, ghost done: seq<Entry>, ghost ok': bool, ghost all: seq<Entry>, ghost b: seq<byte>)
    returns (more: bool, next: nat, ghost done': seq<Entry>)
    requires cur < end && count + room <= filters.Length && count + room <= qos.Length && count == |done|
    requires buf[..] == b && Reading(Rest(b, cur, end), room, done, ok', all) && Stored(filters[..], qos[..], done)
    modifies filters, qos
    ensures more ==> room > 0 && next > cur && |done'| == count + 1
    ensures more ==> Reading(Rest(b, next, end), room - 1, done', ok', all)
    ensures !more ==> !ok' && all == done' && |done'| == count
    ensures Stored(filters[..], qos[..], done') && buf[..] == b
  {
    ghost var s := Rest(b, cur, end);
    more, next, done' := false, cur, done;
    if room > 0 {
      ghost var e;
      more, next, e := ReadNextEntry(buf, cur, end, filters, qos, count, done, s);
      if more {
        EntriesNext(s, room, done, ok', all, e, Rest(b, next, end));
        done' := done + [e];
      }
    }
    if !more { EntriesStop(s, room, done, ok', all); }
  }

  method ReadEntryList(buf: array<byte>, start: nat, end: int, maxcount: nat, filters: array<seq<byte>>,
      qos: array<int>, ghost ok': bool, ghost all: seq<Entry>)
    returns (ok: bool, count: nat)
    requires maxcount <= filters.Length && maxcount <= qos.Length
    requires Reading(Rest(buf[..], start, end), maxcount, [], ok', all)
    modifies filters, qos
    ensures ok == ok' && count == |all| <= maxcount && Stored(filters[..], qos[..], all)
  {
    ghost var done: seq<Entry>, b := [], buf[..];
    var cur, more := start, true;
    count := 0;
    while more && cur < end
      invariant count == |done| <= maxcount && Stored(filters[..], qos[..], done) && buf[..] == b
      invariant more ==> Reading(Rest(b, cur, end), maxcount - count, done, ok', all)
      invariant !more ==> !ok' && all == done
      decreases more, end - cur
    {
      more, cur, done := EntryTurn(buf, cur, end, maxcount - count, filters, qos, count, done, ok', all, b);
      if more { count := count + 1; }
    }
    if more { ReadingEnds(done, maxcount - count, ok', all); }
    ok := more;
  }

  method SerializeSuback(buf: array<byte>, buflen: nat, id: ushort, codes: seq<int>) returns (rc: int)
    requires buflen <= buf.Length
    requires buflen < 2 + |codes| || FrameSize(2 + |codes|) <= buf.Length
    modifies buf
    ensures buflen < 2 + |codes| ==> rc == BUFFER_TOO_SHORT && buf[..] == old(buf[..])
    ensures buflen >= 2 + |codes| ==>
      && rc == FrameSize(2 + |codes|)
      && buf[..rc] == EncodeSuback(id, codes)
      && forall i :: rc <= i < buf.Length ==> buf[i] == old(buf[i])
  {
    if buflen < 2 + |codes| { return BUFFER_TOO_SHORT; }
    var h := Header(SUBACK, 0, 0, 0);
    var ptr := WriteHeader(buf, h, 2 + |codes|);
    ptr := WriteInt(buf, ptr, id);
    ghost var front := buf[..ptr];
    var start := ptr;
    assert codes[0..] == codes;
    for i := 0 to |codes|
      invariant ptr == start + i
      invariant buf[..ptr] + EncodeCodes(codes[i..]) == front + EncodeCodes(codes)
      invariant forall k :: ptr <= k < buf.Length ==> buf[k] == old(buf[k])
    {
      ptr := WriteChar(buf, ptr, codes[i]);
      assert codes[i..][1..] == codes[i + 1..];
    }
    FrameJoin(buf[..ptr], h, EncodeInt(id), EncodeCodes(codes));
    rc := ptr;
  }

  method DeserializeSuback(buf: array<byte>, maxcount: nat, granted: array<int>, prev: SubackOut)
    returns (rc: int, out: SubackOut)
    requires |DecodeSuback(buf[..], maxcount, prev).2| <= granted.Length
    modifies granted
    ensures (rc, out) == (DecodeSuback(buf[..], maxcount, prev).0, DecodeSuback(buf[..], maxcount, prev).1)
    ensures var codes := DecodeSuback(buf[..], maxcount, prev).2;
      granted[..|codes|] == codes && forall k :: |codes| <= k < granted.Length ==> granted[k] == old(granted[k])
  {
    out := prev;
    if Kind(Peek(buf[..], 0)) != SUBACK { return 0, out; }
    var n, len := PacketDecodeBuf(buf, 1);
    if len < 2 { return n, out; }
    var id := Int16At(buf[..], 1 + n);
    BodyTail(buf[..], n, len);
    var ok, count := ReadCodes(buf, 1 + n + 2, 1 + n + len, maxcount, granted);
    out := SubackOut(id, count);
    rc := if ok then 1 else -1;
  }

  lemma OneCode(b: seq<byte>, cur: nat, end: int, n: nat)
    requires cur < end
    ensures TakeCodes(Rest(b, cur, end), n) ==
      if n == 0 then (false, [])
      else
        var (ok, codes) := TakeCodes(Rest(b, cur + 1, end), n - 1);
        (ok, [CharAt(b, cur)] + codes)
  {
    CharAtCursor(b, cur, end);
  }

  lemma NoCode(b: seq<byte>, cur: nat, end: int, n: nat)
    requires cur >= end
    ensures TakeCodes(Rest(b, cur, end), n) == (true, [])
  {
  }

  method ReadCodes(buf: array<byte>, start: nat, end: int, maxcount: nat, granted: array<int>)
    returns (ok: bool, count: nat)
    requires |TakeCodes(Rest(buf[..], start, end), maxcount + 1).1| <= granted.Length
    modifies granted
    ensures var (ok', codes) := TakeCodes(Rest(buf[..], start, end), maxcount + 1);
      && ok == ok' && count == |codes| && granted[..count] == codes
      && forall k :: count <= k < granted.Length ==> granted[k] == old(granted[k])
  {
    hide TakeCodes, CharAt, Bytes.Rest;
    var b := buf[..];
    ghost var (ok', all) := TakeCodes(Rest(b, start, end), maxcount + 1);
    var cur := start;
    count := 0;
    while cur < end
      invariant count <= |all| && count <= maxcount + 1
      invariant var (o, codes) := TakeCodes(Rest(b, cur, end), maxcount + 1 - count);
        o == ok' && all == granted[..count] + codes
      invariant forall k :: count <= k < granted.Length ==> granted[k] == old(granted[k])
      decreases end - cur
    {
      OneCode(b, cur, end, maxcount + 1 - count);
      if count > maxcount { return false, count; }
      granted[count] := CharAt(b, cur);
      assert granted[..count + 1] == granted[..count] + [CharAt(b, cur)];
      cur := cur + 1;
      count := count + 1;
    }
    NoCode(b, cur, end, maxcount + 1 - count);
    ok := true;
  }
}
