/** Where a blocking read leaves the stream.  A read that gives nothing in the middle of the length field is
    not noticed: the part of the length that did come is taken for all of it. */
module PacketBoundaries {
  import opened Bytes
  import opened FixedHeader
  import opened RemainingLength
  import opened Transport
  import opened PacketReader
  import opened ReaderAgreement

  /** The answers to come break off the length field, of which `k` bytes were read. */
  predicate LengthCut(s: Source, k: nat)
    requires k <= MAX_LENGTH_BYTES
    decreases MAX_LENGTH_BYTES - k
  {
    k < MAX_LENGTH_BYTES &&
    var (rc, c, s') := Get(s, 1);
    rc != 1 || (c[0] >= 128 && LengthCut(s', k + 1))
  }

  /** The header byte comes, and then the length field breaks off. */
  predicate CutsLength(s: Source) {
    Get(s, 1).0 == 1 && LengthCut(Get(s, 1).2, 0)
  }

  // ---- the length field ----

  /** Another byte of the field, which stands in `d` from index 1 on. */
  lemma FieldGoesOn(s: Source, d: seq<byte>, k: nat)
    requires k < MAX_LENGTH_BYTES && 1 + k < |d| && s.data == d[1 + k..] && Get(s, 1).0 == 1
    ensures var (_, c, s') := Get(s, 1);
      c == [d[1 + k]] && s'.data == d[2 + k..] && Peek(d, 1 + k) == d[1 + k]
  {
  }

  lemma {:induction false} FieldWhole(s: Source, d: seq<byte>, k: nat)
    requires k < MAX_LENGTH_BYTES && !LengthCut(s, k) && 1 + k < |d| && s.data == d[1 + k..]
    requires DecodeFrom(d, 1 + k, k).0 <= MAX_LENGTH_BYTES && 1 + DecodeFrom(d, 1 + k, k).0 <= |d|
    ensures DecodeSource(s, k).0 == DecodeFrom(d, 1 + k, k).1
    ensures DecodeSource(s, k).1.data == d[1 + DecodeFrom(d, 1 + k, k).0..]
    decreases MAX_LENGTH_BYTES - k
  {
    FieldGoesOn(s, d, k);
    if d[1 + k] >= 128 {
      DecodeFromCounts(d, 2 + k, k + 1);
      FieldWhole(Get(s, 1).2, d, k + 1);
    }
  }

  lemma {:induction false} FieldCut(s: Source, d: seq<byte>, k: nat)
    requires k < MAX_LENGTH_BYTES && LengthCut(s, k) && 1 + k < |d| && s.data == d[1 + k..]
    requires DecodeFrom(d, 1 + k, k).0 <= MAX_LENGTH_BYTES && 1 + DecodeFrom(d, 1 + k, k).0 <= |d|
    ensures DecodeSource(s, k).0 <= DecodeFrom(d, 1 + k, k).1
    ensures |DecodeSource(s, k).1.data| > |d| - 1 - DecodeFrom(d, 1 + k, k).0
    decreases MAX_LENGTH_BYTES - k
  {
    DecodeFromCounts(d, 1 + k, k);
    if Get(s, 1).0 == 1 {
      FieldGoesOn(s, d, k);
      DecodeFromCounts(d, 2 + k, k + 1);
      FieldCut(Get(s, 1).2, d, k + 1);
    }
  }

  // ---- the whole packet ----

  /** How a read that does not break off the length field ends: nothing came, or the packet, or it is too
      long for the buffer, or its body came up short. */
  predicate OnBoundary(out: Outcome, b: seq<byte>, left: seq<byte>, h: byte, body: seq<byte>, rest: seq<byte>) {
    match out
    case NoHeader(rc) => rc <= 0 && left == Frame(h, body) + rest
    case Packet(kind) => kind == Kind(h) && At(b, 0, Frame(h, body)) && left == rest
    case _ => true
  }

  lemma BodyOnBoundary(s: Source, b: seq<byte>, h: byte, body: seq<byte>, rest: seq<byte>)
    requires |b| >= 5 && b[0] == h && |body| <= MAX_REMAINING_LENGTH && s.data == body + rest
    ensures var (out, b', s') := ReadRest(|body|, Put(b, 1, EncodeShort(|body|)), s);
      !out.NoHeader? && OnBoundary(out, b', s'.data, h, body, rest)
  {
    var b' := Put(b, 1, EncodeShort(|body|));
    HeadWritten(b, b', h, |body|, EncodeShort(|body|));
    if FrameSize(|body|) <= |b| && body == [] { EmptyFrame(b', h, body); }
    if FrameSize(|body|) <= |b| && body != [] {
      var (rc, got, s') := Get(s, |body|);
      if rc == |body| { FrameWritten(b', h, body, got); }
    }
  }

  lemma HeadWritten(b: seq<byte>, b': seq<byte>, h: byte, v: nat, field: seq<byte>)
    requires v <= MAX_REMAINING_LENGTH && |b| >= 5 && b[0] == h && field == EncodeShort(v) && b' == Put(b, 1, field)
    ensures b'[..FrameSize(v) - v] == [h] + Encode(v) && b'[0] == h
  {
    hide RemainingLength.Encode;
    HeadIs(b, h, field);
  }

  lemma HeadIs(b: seq<byte>, h: byte, field: seq<byte>)
    requires |b| >= 5 && b[0] == h && |field| <= 4
    ensures var b' := Put(b, 1, field); b'[0] == h && b'[..1 + |field|] == [h] + field
  {
    assert b[..1] == [h];
  }

  lemma EmptyFrame(b: seq<byte>, h: byte, body: seq<byte>)
    requires body == [] && FrameSize(|body|) <= |b| && b[..FrameSize(|body|) - |body|] == [h] + Encode(|body|)
    ensures At(b, 0, Frame(h, body))
  {
    assert Frame(h, body) == [h] + Encode(|body|);
  }

  lemma FrameWritten(b: seq<byte>, h: byte, body: seq<byte>, got: seq<byte>)
    requires FrameSize(|body|) <= |b| && got == body && b[0] == h
    requires b[..FrameSize(|body|) - |body|] == [h] + Encode(|body|)
    ensures var b' := Put(b, FrameSize(|body|) - |body|, got); At(b', 0, Frame(h, body)) && b'[0] == h
  {
    var n := FrameSize(|body|) - |body|;
    var b' := Put(b, n, got);
    assert b'[..n + |body|] == b[..n] + body;
  }

  /** Without a broken length field a read keeps to the boundaries; with one it never gives the whole packet. */
  lemma ReadsOnBoundary(s: Source, b: seq<byte>, h: byte, body: seq<byte>, rest: seq<byte>)
    requires |b| >= 5 && |body| <= MAX_REMAINING_LENGTH && s.data == Frame(h, body) + rest
    ensures !CutsLength(s) ==> var (out, b', s') := ReadOutcome(s, b); OnBoundary(out, b', s'.data, h, body, rest)
    ensures CutsLength(s) ==> var (out, b', s') := ReadOutcome(s, b);
      !out.NoHeader? && (out.Packet? ==> |s'.data| > |rest|)
  {
    var d := s.data;
    FrameThen(d, h, body, rest);
    var n := |Encode(|body|)|;
    EncodeSize(|body|);
    if Get(s, 1).0 == 1 {
      var s1 := Get(s, 1).2;
      assert s1.data == d[1..] && Get(s, 1).1 == [h];
      if LengthCut(s1, 0) { CutRead(s, b, d, h, body, rest); } else { WholeRead(s, b, d, h, body, rest); }
    }
  }

  /** The stream is left at a packet: at this one, of which nothing was read, or after it, with all of it in the
      buffer. */
  predicate AtBoundary(out: Outcome, b: seq<byte>, left: seq<byte>, h: byte, body: seq<byte>, rest: seq<byte>) {
    (out.NoHeader? || out.Packet?) && OnBoundary(out, b, left, h, body, rest)
  }

  /** What can be seen before the read of a client with or without a session: a broken length field gives no packet,
      and a body comes up short, or is too long, only in a session, which that ends. */
  predicate Harmless(s: Source, b: seq<byte>, session: bool)
    requires |b| >= 5
  {
    var out := ReadOutcome(s, b).0;
    (CutsLength(s) ==> !out.Packet?) && (out.ShortBody? || out.TooLong? ==> session)
  }

  /** On a stream of packets a read keeps to the boundaries of packets, or ends the session it is made in, exactly
      when it is harmless. */
  lemma ReadsWholeExactly(s: Source, b: seq<byte>, h: byte, body: seq<byte>, rest: seq<byte>, session: bool)
    requires |b| >= 5 && |body| <= MAX_REMAINING_LENGTH && s.data == Frame(h, body) + rest
    ensures var (out, b', s') := ReadOutcome(s, b);
      Harmless(s, b, session)
      <==> AtBoundary(out, b', s'.data, h, body, rest) || (session && (out.ShortBody? || out.TooLong?))
  {
    ReadsOnBoundary(s, b, h, body, rest);
  }

  lemma WholeRead(s: Source, b: seq<byte>, d: seq<byte>, h: byte, body: seq<byte>, rest: seq<byte>)
    requires |b| >= 5 && |body| <= MAX_REMAINING_LENGTH && s.data == d && d != []
    requires Decode(d, 1) == (|Encode(|body|)|, |body|) && |Encode(|body|)| <= MAX_LENGTH_BYTES
    requires 1 + |Encode(|body|)| <= |d| && d[1 + |Encode(|body|)|..] == body + rest
    requires Get(s, 1).0 == 1 && Get(s, 1).1 == [h] && Get(s, 1).2.data == d[1..] && !LengthCut(Get(s, 1).2, 0)
    ensures var (out, b', s') := ReadOutcome(s, b); OnBoundary(out, b', s'.data, h, body, rest)
  {
    var s1, b1 := Get(s, 1).2, Put(b, 0, [h]);
    DecodeFromCounts(d, 1, 0);
    FieldWhole(s1, d, 0);
    DecodeSourceBound(s1, 0);
    BodyOnBoundary(DecodeSource(s1, 0).1, b1, h, body, rest);
  }

  lemma CutRead(s: Source, b: seq<byte>, d: seq<byte>, h: byte, body: seq<byte>, rest: seq<byte>)
    requires |b| >= 5 && |body| <= MAX_REMAINING_LENGTH && s.data == d && d != []
    requires Decode(d, 1) == (|Encode(|body|)|, |body|) && |Encode(|body|)| <= MAX_LENGTH_BYTES
    requires 1 + |Encode(|body|)| <= |d| && d[1 + |Encode(|body|)|..] == body + rest
    requires Get(s, 1).0 == 1 && Get(s, 1).1 == [h] && Get(s, 1).2.data == d[1..] && LengthCut(Get(s, 1).2, 0)
    ensures var (out, b', s') := ReadOutcome(s, b); !out.NoHeader? && (out.Packet? ==> |s'.data| > |rest|)
  {
    var s1, b1 := Get(s, 1).2, Put(b, 0, [h]);
    DecodeFromCounts(d, 1, 0);
    FieldCut(s1, d, 0);
    DecodeSourceBound(s1, 0);
    var (v, s2) := DecodeSource(s1, 0);
    RestTakes(v, Put(b1, 1, EncodeShort(v)), s2);
  }

  /** The rest of a read takes no more than the length announces. */
  lemma RestTakes(v: nat, b: seq<byte>, s: Source)
    ensures var (out, b', s') := ReadRest(v, b, s);
      !out.NoHeader? && (out.Packet? ==> |s'.data| >= |s.data| - v)
  {
  }

  // ---- a network that gives a whole packet ----

  /** The answers to the three reads of a packet with at most 100 bytes after its length. */
  const GENEROUS: seq<int> := [1, 1, 100]

  lemma ShortFrame(h: byte, body: seq<byte>)
    requires |body| < 128
    ensures Frame(h, body) == [h, |body|] + body && FrameSize(|body|) == 2 + |body|
  {
    assert Encode(|body|) == [|body|];
  }

  lemma GenerousRead(h: byte, body: seq<byte>, rest: seq<byte>, gs: seq<int>, b: seq<byte>)
    requires 1 <= |body| <= 100 && |b| >= 5 && |b| >= 2 + |body|
    ensures var s := Source([h, |body|] + body + rest, GENEROUS + gs);
      var (out, b', s') := ReadOutcome(s, b);
      !CutsLength(s) && out.Packet? && s' == Source(rest, gs)
  {
    var s := Source([h, |body|] + body + rest, GENEROUS + gs);
    var s1, s2 := Source([|body|] + body + rest, [1, 100] + gs), Source(body + rest, [100] + gs);
    FirstByte(s, h, s1);
    FirstByte(s1, |body|, s2);
    assert DecodeSource(s1, 0) == (|body|, s2);
    ShortFrame(h, body);
    BodyComes(body, rest, gs, Put(Put(b, 0, [h]), 1, EncodeShort(|body|)));
  }

  lemma FirstByte(s: Source, c: byte, s': Source)
    requires s.grants == [1] + s'.grants && s.data == [c] + s'.data
    ensures Get(s, 1) == (1, [c], s')
  {
  }

  lemma BodyComes(body: seq<byte>, rest: seq<byte>, gs: seq<int>, b: seq<byte>)
    requires 1 <= |body| <= 100 && |b| >= 2 + |body| && FrameSize(|body|) == 2 + |body|
    ensures var (out, b', s') := ReadRest(|body|, b, Source(body + rest, [100] + gs));
      out.Packet? && s' == Source(rest, gs)
  {
    var s := Source(body + rest, [100] + gs);
    assert s.data[..|body|] == body && s.data[|body|..] == rest && s.grants[1..] == gs;
  }

  lemma ReadShape(s: Source, b: seq<byte>)
    requires |b| >= 5
    ensures var (out, b', _) := ReadOutcome(s, b);
      |b'| == |b| && (out.Packet? ==> out.kind == Kind(Peek(b', 0)))
  {
  }
}
