/** Cycles in which nothing fails, and histories of them over one source. */
module CalmRuns {
  import opened Bytes
  import opened FixedHeader
  import opened PublishCodec
  import opened MessageHandlers
  import opened Transport
  import opened PacketReader
  import opened PacketBoundaries
  import opened Session
  import opened InflightRetention
  import opened AckOrder
  import opened ClientHandshake

  /** The answers of a cycle in which nothing fails, at time 0. */
  function Calm(a: Alive, out: Outcome, buf: seq<byte>): Input {
    Input(out, buf, 0, 0, 4, 0, a.pingSent - 1, 0, 0, 2, 0)
  }

  /** The answers of a cycle in which nothing fails, with what `mypacketid` happens to hold. */
  predicate CalmWith(s: State, i: Input, garbage: ushort) {
    i == Calm(s.alive, i.out, i.buf).(garbage := garbage)
  }

  lemma CalmEnds(p: Part, i: Input)
    requires !p.stop && p.rc == SUCCESS && !Broken(p.es) && i.pingW == 2 && i.pingLook < p.s.alive.pingSent
    ensures !Broken(Finish(WithKeepAlive(p, i), i.Type()).es)
  {
  }

  lemma CalmPublish(s: State, i: Input, p: Publish)
    requires i == Calm(s.alive, i.out, i.buf) && p.Legal() && p.qos == 2 && Carries(i, Publishing(p))
    ensures !Broken(Cycle(s, i).es)
  {
    PublishRoundTrip(p, i.buf, Unset(i.garbage));
    CalmMessage(s, i, p.Decoded(Unset(i.garbage)));
  }

  lemma CalmMessage(s: State, i: Input, m: PublishOut)
    requires i == Calm(s.alive, i.out, i.buf) && i.out == Packet(PUBLISH) && m.qos == 2
    requires DecodePublish(i.buf, Unset(i.garbage)) == (1, m)
    ensures !Broken(Cycle(s, i).es)
  {
    var p := Handled(s, i);
    assert p.rc == SUCCESS && !p.stop && !Broken(p.es) && p.s.alive.pingSent == s.alive.pingSent;
    CalmEnds(p, i);
  }

  lemma CalmRelease(s: State, i: Input, id: ushort)
    requires i == Calm(s.alive, i.out, i.buf) && Carries(i, Acking(PUBREL, 0, id))
    ensures !Broken(Cycle(s, i).es)
  {
    AckRoundTrip(PUBREL, 0, id, i.buf, AckOut(0, 0, i.garbage));
    var p := Handled(s, i);
    assert p.rc == SUCCESS && !p.stop && !Broken(p.es) && p.s.alive.pingSent == s.alive.pingSent;
    CalmEnds(p, i);
  }

  /** A cycle that gets a packet it does nothing about. */
  lemma QuietCycle(s: State, i: Input)
    requires CalmWith(s, i, i.garbage) && i.out.Packet? && Ignored(i.out.kind)
    ensures var c := Cycle(s, i);
      && !Broken(c.es) && Handed(c.es) == [] && c.s.last == i.out.kind && c.s.readbuf == i.buf
      && c.s.table == s.table && c.s.inflight == s.inflight && c.s.clean == s.clean && c.s.connected == s.connected
  {
    var p := Handled(s, i);
    HandedOne(Received(i.out.kind, i.buf));
    HandedOne(Sent(Ping));
    assert p.s == Read(s, i) && p.es == [Received(i.out.kind, i.buf)] && p.rc == SUCCESS && !p.stop;
    CalmEnds(p, i);
    QuietEnds(p, i);
  }

  lemma QuietEnds(p: Part, i: Input)
    requires !p.stop && p.rc == SUCCESS && i.pingW == 2 && i.pingLook < p.s.alive.pingSent && Handed(p.es) == []
    ensures var q := Finish(WithKeepAlive(p, i), i.Type());
      q.s == p.s.(alive := q.s.alive, last := i.Type()) && Handed(q.es) == []
  {
    HandedOne(Sent(Ping));
    HandedConcat(p.es, KeepAlive(p.s.alive, i).1);
  }

  // ---- a history, read from one source ----

  /** After `ops` the client is in state `s`, has handed over `ms`, and `src` is left to read; no send has
      failed and no session was closed. */
  ghost predicate Reached(s0: State, src0: Source, ops: seq<Op>, s: State, src: Source, ms: seq<PublishOut>) {
    && Run(s0, ops).Some? && Run(s0, ops).value.0 == s
    && Drawn(src0, s0.readbuf, ops) == Some((src, s.readbuf))
    && !Broken(Run(s0, ops).value.1) && Handed(Run(s0, ops).value.1) == ms
  }

  lemma BrokenSplit(a: seq<Event>, b: seq<Event>)
    requires !Broken(a) && !Broken(b)
    ensures !Broken(a + b)
  {
  }

  lemma ReachedNext(s0: State, src0: Source, ops: seq<Op>, s: State, src: Source, ms: seq<PublishOut>, i: Input,
                    src': Source)
    requires Reached(s0, src0, ops, s, src, ms) && Enabled(s, Cycling(i)) && !Broken(Cycle(s, i).es)
    requires DrawOne(src, s.readbuf, Cycling(i)) == Some((src', i.buf))
    ensures Reached(s0, src0, ops + [Cycling(i)], Cycle(s, i).s, src', ms + Handed(Cycle(s, i).es))
  {
    var es, es' := Run(s0, ops).value.1, Cycle(s, i).es;
    RunExtends(s0, ops, Cycling(i));
    DrawnExtends(src0, s0.readbuf, ops, Cycling(i));
    BrokenSplit(es, es');
    HandedConcat(es, es');
    CycleSame(s, i);
  }

  /** The next cycle gets a small packet whole. */
  lemma SmallDrawn(s: State, h: byte, body: seq<byte>, rest: seq<byte>, gs: seq<int>) returns (i: Input)
    requires 1 <= |body| <= 4 && |s.readbuf| >= 6
    ensures CalmWith(s, i, 0) && Enabled(s, Cycling(i)) && i.out == Packet(Kind(h)) && At(i.buf, 0, Frame(h, body))
    ensures DrawOne(Source([h, |body|] + body + rest, GENEROUS + gs), s.readbuf, Cycling(i))
         == Some((Source(rest, gs), i.buf))
  {
    var src := Source([h, |body|] + body + rest, GENEROUS + gs);
    var (out, buf, _) := ReadOutcome(src, s.readbuf);
    i := Calm(s.alive, out, buf);
    GenerousRead(h, body, rest, gs, s.readbuf);
    ShortFrame(h, body);
    ReadsOnBoundary(src, s.readbuf, h, body, rest);
    ReadShape(src, s.readbuf);
  }
}
