/** MQTTUnsubscribeClient.c and MQTTUnsubscribeServer.c: UNSUBSCRIBE with its list of filters. */
module UnsubscribeCodec {
  import opened Bytes
  import opened FixedHeader
  import opened RemainingLength

  function EncodeFilters(fs: seq<seq<byte>>): seq<byte> {
    if fs == [] then [] else EncodeString(fs[0]) + EncodeFilters(fs[1..])
  }

  /** The list loop of `MQTTDeserialize_unsubscribe`, which has no limit on the number of filters. */
  function TakeFilters(s: seq<byte>): (bool, seq<seq<byte>>)
    decreases |s|
  {
    if s == [] then (true, [])
    else match TakeString(s)
      case None => (false, [])
      case Some((f, rest)) =>
        var (ok, fs) := TakeFilters(rest);
        (ok, [f] + fs)
  }

  predicate AllLegal(fs: seq<seq<byte>>) {
    fs == [] || (|fs[0]| < 65536 && AllLegal(fs[1..]))
  }

  datatype Unsubscribe = Unsubscribe(dup: nat, id: ushort, filters: seq<seq<byte>>)
  {
    function Body(): seq<byte> {
      EncodeInt(id) + EncodeFilters(filters)
    }

    predicate Legal() {
      dup < 2 && |Body()| <= MAX_REMAINING_LENGTH && AllLegal(filters)
    }

    function Encoding(): seq<byte> {
      Frame(Header(UNSUBSCRIBE, dup, 1, 0), Body())
    }
  }

  datatype ListHead = ListHead(dup: nat, id: ushort, count: nat)

  /** A filter that does not fit makes the code return the number of length bytes. */
  function DecodeUnsubscribe(b: seq<byte>, prev: ListHead): (int, ListHead, seq<seq<byte>>) {
    var h := Peek(b, 0);
    if Kind(h) != UNSUBSCRIBE then (0, prev, [])
    else
      var (n, len) := Decode(b, 1);
      var (ok, fs) := TakeFilters(if len < 2 then [] else BodyOf(b)[2..]);
      (if ok then 1 else n, ListHead(Dup(h), Int16At(b, 1 + n), |fs|), fs)
  }

  /** The filters announced by the remaining length all fit. */
  predicate FiltersFit(b: seq<byte>) {
    var (n, len) := Decode(b, 1);
    TakeFilters(if len < 2 then [] else BodyOf(b)[2..]).0
  }

  /** "1 is success", which is a packet id and filters that fit, holds of an UNSUBSCRIBE exactly when there are two
      bytes for the id, and the filters fit or the length field has more than one byte. */
  lemma UnsubscribeSuccessIsReal(b: seq<byte>, prev: ListHead)
    requires Kind(Peek(b, 0)) == UNSUBSCRIBE
    ensures var (n, len) := Decode(b, 1);
      (DecodeUnsubscribe(b, prev).0 == 1 ==> len >= 2 && FiltersFit(b)) <==> len >= 2 && (FiltersFit(b) || n > 1)
  {
    DecodeFromCounts(b, 1, 0);
  }

  /** An empty UNSUBSCRIBE: "success", with the id from the bytes after the packet. */
  lemma EmptyUnsubscribeReportsSuccess(prev: ListHead)
    ensures DecodeUnsubscribe([162, 0, 7, 9], prev) == (1, ListHead(0, 1801, 0), [])
  {
    var b := [162, 0, 7, 9];
    assert Decode(b, 1) == (1, 0) && Int16At(b, 2) == 1801;
  }

  /** One byte where a filter should be: "success", with no filter at all. */
  lemma CutFilterReportsSuccess(id: byte, prev: ListHead)
    ensures DecodeUnsubscribe([162, 3, 0, id, 1], prev) == (1, ListHead(0, id, 0), [])
  {
    var b := [162, 3, 0, id, 1];
    assert Decode(b, 1) == (1, 3);
    assert BodyOf(b)[2..] == [1];
  }

  lemma FiltersCons(f: seq<byte>, rest: seq<byte>)
    requires |f| < 65536
    ensures var (ok, fs) := TakeFilters(rest);
      TakeFilters(EncodeString(f) + rest) == (ok, [f] + fs)
  {
    TakeStringRoundTrip(f, rest);
  }

  lemma {:induction false} FiltersRoundTrip(fs: seq<seq<byte>>)
    requires AllLegal(fs)
    ensures TakeFilters(EncodeFilters(fs)) == (true, fs)
  {
    if fs != [] {
      FiltersRoundTrip(fs[1..]);
      FiltersCons(fs[0], EncodeFilters(fs[1..]));
      assert fs == [fs[0]] + fs[1..];
    }
  }

  lemma UnsubscribeRoundTrip(u: Unsubscribe, b: seq<byte>, prev: ListHead)
    requires u.Legal() && At(b, 0, u.Encoding())
    ensures DecodeUnsubscribe(b, prev) == (1, ListHead(u.dup, u.id, |u.filters|), u.filters)
  {
    UnsubscribeRead(u, b, prev);
    FiltersRoundTrip(u.filters);
  }

  lemma UnsubscribeRead(u: Unsubscribe, b: seq<byte>, prev: ListHead)
    requires u.Legal() && At(b, 0, u.Encoding())
    ensures var (ok, fs) := TakeFilters(EncodeFilters(u.filters));
      DecodeUnsubscribe(b, prev) == (if ok then 1 else Decode(b, 1).0, ListHead(u.dup, u.id, |fs|), fs)
  {
    HeaderFields(UNSUBSCRIBE, u.dup, 1, 0);
    IdFrame(b, Header(UNSUBSCRIBE, u.dup, 1, 0), u.id, EncodeFilters(u.filters));
  }

  // ---- the functions over buffers ----

  function Contents(filters: seq<MqttString>): (fs: seq<seq<byte>>)
    ensures |fs| == |filters|
  {
    seq(|filters|, i requires 0 <= i < |filters| => filters[i].Content())
  }

  lemma FiltersSplit(fs: seq<seq<byte>>, i: nat)
    requires i < |fs|
    ensures EncodeFilters(fs[i..]) == EncodeString(fs[i]) + EncodeFilters(fs[i + 1..])
  {
  }

  /** `MQTTSerialize_unsubscribeLength`. */
  method UnsubscribeLength(filters: seq<MqttString>) returns (len: nat)
    ensures len == 2 + |EncodeFilters(Contents(filters))|
  {
    ghost var fs := Contents(filters);
    len := 2;
    assert fs[0..] == fs;
    for i := 0 to |filters|
      invariant len + |EncodeFilters(fs[i..])| == 2 + |EncodeFilters(fs)|
    {
      FiltersSplit(fs, i);
      len := len + 2 + |filters[i].Content()|;
    }
  }

  method SerializeUnsubscribe(buf: array<byte>, buflen: nat, dup: nat, id: ushort, filters: seq<MqttString>)
    returns (rc: int)
    requires buflen <= buf.Length
    requires |Unsubscribe(dup, id, Contents(filters)).Body()| <= MAX_REMAINING_LENGTH
    modifies buf
    ensures var u := Unsubscribe(dup, id, Contents(filters));
      && (PacketLen(|u.Body()|) > buflen ==> rc == BUFFER_TOO_SHORT && buf[..] == old(buf[..]))
      && (PacketLen(|u.Body()|) <= buflen ==>
        && rc == FrameSize(|u.Body()|) <= buflen
        && buf[..rc] == u.Encoding()
        && forall i :: rc <= i < buf.Length ==> buf[i] == old(buf[i]))
    ensures rc > 0 ==> buf[0] == 162 + 8 * (dup % 2)
  {
    HeaderByte(UNSUBSCRIBE, dup, 1, 0);
    ghost var u := Unsubscribe(dup, id, Contents(filters));
    var remLen := UnsubscribeLength(filters);
    if PacketLen(remLen) > buflen { return BUFFER_TOO_SHORT; }
    PacketLenIsSafe(remLen);
    var ptr := WriteHeader(buf, Header(UNSUBSCRIBE, dup, 1, 0), remLen);
    ptr := WriteInt(buf, ptr, id);
    ptr := WriteFilters(buf, ptr, filters);
    FrameJoin(buf[..ptr], Header(UNSUBSCRIBE, dup, 1, 0), EncodeInt(id), EncodeFilters(u.filters));
    FrameStarts(buf[..ptr], Header(UNSUBSCRIBE, dup, 1, 0), EncodeInt(id) + EncodeFilters(u.filters));
    rc := ptr;
  }

  method WriteFilters(buf: array<byte>, start: nat, filters: seq<MqttString>) returns (ptr: nat)
    requires start + |EncodeFilters(Contents(filters))| <= buf.Length
    modifies buf
    ensures ptr == start + |EncodeFilters(Contents(filters))|
    ensures buf[..ptr] == old(buf[..start]) + EncodeFilters(Contents(filters))
    ensures forall i :: ptr <= i < buf.Length ==> buf[i] == old(buf[i])
  {
    ghost var fs := Contents(filters);
    ghost var done: seq<byte> := [];
    ptr := start;
    assert fs[0..] == fs;
    for i := 0 to |filters|
      invariant done + EncodeFilters(fs[i..]) == EncodeFilters(fs)
      invariant ptr == start + |done| <= buf.Length
      invariant buf[..ptr] == old(buf[..start]) + done
      invariant forall k :: ptr <= k < buf.Length ==> buf[k] == old(buf[k])
    {
      FiltersSplit(fs, i);
      ptr := WriteString(buf, ptr, filters[i]);
      ghost var e := EncodeString(fs[i]);
      Joined(old(buf[..start]), done, e);
      Joined(done, e, EncodeFilters(fs[i + 1..]));
      done := done + e;
    }
  }

  method DeserializeUnsubscribe(buf: array<byte>, filters: array<seq<byte>>, prev: ListHead)
    returns (rc: int, head: ListHead)
    requires |DecodeUnsubscribe(buf[..], prev).2| + (if FiltersFit(buf[..]) then 0 else 1) <= filters.Length
    modifies filters
    ensures (rc, head) == (DecodeUnsubscribe(buf[..], prev).0, DecodeUnsubscribe(buf[..], prev).1)
    ensures var fs := DecodeUnsubscribe(buf[..], prev).2;
      && filters[..|fs|] == fs
      && forall k :: |fs| + (if FiltersFit(buf[..]) then 0 else 1) <= k < filters.Length ==>
        filters[k] == old(filters[k])
  {
    var b := buf[..];
    var h := Peek(b, 0);
    if Kind(h) != UNSUBSCRIBE { return 0, prev; }
    var n, len := PacketDecodeBuf(buf, 1);
    BodyTail(b, n, len);
    var ok, count := ReadFilters(buf, 1 + n + 2, 1 + n + len, filters);
    head := ListHead(Dup(h), Int16At(b, 1 + n), count);
    rc := if ok then 1 else n;
  }

  method ReadFilters(buf: array<byte>, start: nat, end: int, filters: array<seq<byte>>) returns (ok: bool, count: nat)
    requires var (ok', fs) := TakeFilters(Rest(buf[..], start, end)); |fs| + (if ok' then 0 else 1) <= filters.Length
    modifies filters
    ensures var (ok', fs) := TakeFilters(Rest(buf[..], start, end));
      && ok == ok' && count == |fs| && filters[..count] == fs
      && forall k :: count + (if ok then 0 else 1) <= k < filters.Length ==> filters[k] == old(filters[k])
  {
    var b := buf[..];
    ghost var (ok', all) := TakeFilters(Rest(b, start, end));
    ghost var done: seq<seq<byte>> := [];
    var cur := start;
    count := 0;
    while cur < end
      invariant count == |done| <= |all| && buf[..] == b
      invariant filters[..count] == done
      invariant Reading(Rest(b, cur, end), done, ok', all)
      invariant forall k :: count <= k < filters.Length ==> filters[k] == old(filters[k])
      decreases end - cur
    {
      FiltersStep(Rest(b, cur, end), done, ok', all);
      var more, f, next := ReadString(buf, cur, end);
      if !more {
        filters[count] := HalfRead(filters[count], end - cur, Int16At(b, cur));
        return false, count;
      }
      filters[count] := f;
      assert filters[..count + 1] == filters[..count] + [f];
      done := done + [f];
      cur := next;
      count := count + 1;
    }
    ReadingEnds(done, ok', all);
    ok := true;
  }

  /** The list loop with the bytes left and the filters stored so far. */
  predicate Reading(s: seq<byte>, done: seq<seq<byte>>, ok: bool, all: seq<seq<byte>>) {
    var (o, fs) := TakeFilters(s);
    o == ok && all == done + fs
  }

  /** One turn of the list loop. */
  lemma FiltersStep(s: seq<byte>, done: seq<seq<byte>>, ok: bool, all: seq<seq<byte>>)
    requires s != [] && Reading(s, done, ok, all)
    ensures TakeString(s).None? ==> !ok && all == done
    ensures TakeString(s).Some? ==>
      var (f, rest) := TakeString(s).value;
      |done| < |all| && Reading(rest, done + [f], ok, all)
  {
  }

  lemma ReadingEnds(done: seq<seq<byte>>, ok: bool, all: seq<seq<byte>>)
    requires Reading([], done, ok, all)
    ensures ok && all == done
  {
  }
}
