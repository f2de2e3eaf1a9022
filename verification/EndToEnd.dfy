/** Incoming QoS 2 end to end (section 4.3.3 of MQTT Version 3.1.1): a sender that keeps to the protocol and
    repeats itself, a stream of packets with any other traffic in between, emptied whenever a connection ends,
    and the client of Session in a persistent session, reading that stream byte by byte.

    One thing is asked of the network: that no read leaves the client inside a packet with the connection still
    standing (`Tidy`). */
module EndToEnd {
  import opened Bytes
  import opened FixedHeader
  import opened PublishCodec
  import opened Session
  import opened RemainingLength
  import opened Transport
  import opened PacketReader
  import opened PacketBoundaries
  import opened AckOrder
  import opened ClientHandshake
  import opened Handshake
  import opened QoS2Ids

  /** What travels to the client: a PUBLISH of the `n`-th message the sender got, a PUBREL, or a packet that is
      no part of an exchange. */
  datatype Down = PubOf(id: ushort, n: nat, dup: nat) | RelOf(id: ushort) | OtherOf(h: byte, body: seq<byte>)
  {
    predicate For(i: ushort) {
      !OtherOf? && id == i
    }
  }

  /** An exchange that is under way: it is never `Idle`. */
  datatype Exchange = Exchange(phase: Phase, n: nat)

  /** `window` is how many exchanges the sender has under way at most; `handed` and `delivered` are what
      was handed to `deliverMessage` and which messages those were; `completed` is what the sender has seen
      through to PUBCOMP. */
  datatype World = World(
    window: nat, sent: seq<Publish>, exchanges: map<ushort, Exchange>, down: seq<Down>, up: seq<Outgoing>,
    client: State, handed: seq<PublishOut>, delivered: seq<nat>, completed: seq<nat>)

  datatype Move =
    | Begin(p: Publish)
    | Repeat(id: ushort)
    | Mingle(h: byte, body: seq<byte>)
    | ClientReads(i: Input, grants: seq<int>)
    | ClientElse(op: Op)
    | SenderTakes
    | Lose

  /** A packet of the other traffic: not a PUBREL, and not a PUBLISH of QoS 2. */
  predicate Ordinary(h: byte, body: seq<byte>) {
    |body| <= MAX_REMAINING_LENGTH && Kind(h) != PUBREL && (Kind(h) == PUBLISH ==> Qos(h) != 2)
  }

  function BytesOf(sent: seq<Publish>, d: Down): seq<byte> {
    match d
    case PubOf(_, n, dup) => if n < |sent| then sent[n].(dup := dup).Encoding() else []
    case RelOf(id) => EncodeAck(PUBREL, 0, id)
    case OtherOf(h, body) => Frame(h, body)
  }

  function Stream(sent: seq<Publish>, ds: seq<Down>): seq<byte> {
    if ds == [] then [] else BytesOf(sent, ds[0]) + Stream(sent, ds[1..])
  }

  /** What the client's next read is served from. */
  function SourceOf(w: World, grants: seq<int>): Source {
    Source(Stream(w.sent, w.down), grants)
  }

  /** The condition on the network, to be seen before the read. */
  predicate Tidy(w: World, grants: seq<int>)
    requires |w.client.readbuf| >= 5
  {
    Harmless(SourceOf(w, grants), w.client.readbuf, w.client.connected)
  }

  function PacketOf(w: World, d: Down): Incoming {
    match d
    case PubOf(_, n, dup) => if n < |w.sent| then Publishing(w.sent[n].(dup := dup)) else Nothing
    case RelOf(id) => Acking(PUBREL, 0, id)
    case OtherOf(_, _) => Nothing
  }

  predicate Allowed(w: World, m: Move) {
    match m
    case Begin(p) => p.Legal() && p.qos == 2 && p.id > 0 && p.id !in w.exchanges && |w.exchanges| < w.window
    case Repeat(id) => id in w.exchanges
    case Mingle(h, body) => Ordinary(h, body)
    case ClientReads(i, grants) =>
      && Enabled(w.client, Cycling(i)) && |w.client.readbuf| >= 5 && Tidy(w, grants)
      && DrawOne(SourceOf(w, grants), w.client.readbuf, Cycling(i)).Some?
    case ClientElse(op) => Enabled(w.client, op) && Aside(op) && !op.Cycling?
    case SenderTakes => w.up != []
    case Lose => true
  }

  function Repetition(id: ushort, e: Exchange): Down {
    if e.phase == AwaitRec then PubOf(id, e.n, 1) else RelOf(id)
  }

  /** The client has made a step: its answers travel up, unless the connection is over. */
  function AfterClient(w: World, s: State, es: seq<Event>): World {
    w.(client := s, handed := w.handed + Handed(es),
       down := if Broken(es) then [] else w.down, up := if Broken(es) then [] else w.up + Answers(es))
  }

  function After(w: World, m: Move): World
    requires Allowed(w, m)
  {
    match m
    case Begin(p) =>
      w.(sent := w.sent + [p], exchanges := w.exchanges[p.id := Exchange(AwaitRec, |w.sent|)],
         down := w.down + [PubOf(p.id, |w.sent|, 0)])
    case Repeat(id) => w.(down := w.down + [Repetition(id, w.exchanges[id])])
    case Mingle(h, body) => w.(down := w.down + [OtherOf(h, body)])
    case ClientReads(i, _) =>
      if !i.out.Packet? || w.down == [] then Stepped(w, Cycling(i))
      else if w.down[0].OtherOf? then Stepped(w.(down := w.down[1..]), Cycling(i))
      else Taken(w, i)
    case ClientElse(op) => Stepped(w, op)
    case SenderTakes => Replied(w)
    case Lose => w.(down := [], up := [])
  }

  function Stepped(w: World, op: Op): World {
    AfterClient(w, Session.Next(w.client, op), Events(w.client, op))
  }

  /** The client has read the packet at the head of the stream. */
  function Taken(w: World, i: Input): World
    requires w.down != []
  {
    var c, d := Cycle(w.client, i), w.down[0];
    AfterClient(w.(down := w.down[1..],
      delivered := w.delivered + if d.PubOf? && Handed(c.es) != [] then [d.n] else []), c.s, c.es)
  }

  /** The head of the stream belongs to an exchange, and this is what the cycle reads. */
  predicate Takes(w: World, i: Input) {
    && w.down != [] && !w.down[0].OtherOf?
    && Enabled(w.client, Cycling(i)) && Carries(i, PacketOf(w, w.down[0]))
  }

  function Replied(w: World): World
    requires w.up != []
  {
    OnReply(w.(up := w.up[1..]), w.up[0])
  }

  function OnReply(w: World, a: Outgoing): World {
    if !a.Ack? || a.id !in w.exchanges then w
    else
      var e := w.exchanges[a.id];
      if a.kind == PUBREC then
        w.(exchanges := w.exchanges[a.id := Exchange(AwaitComp, e.n)], down := w.down + [RelOf(a.id)])
      else if a.kind == PUBCOMP && e.phase == AwaitComp then
        w.(exchanges := w.exchanges - {a.id}, completed := w.completed + [e.n])
      else w
  }

  function Play(w: World, ms: seq<Move>): Option<World> {
    if ms == [] then Some(w)
    else
      match Play(w, ms[..|ms| - 1])
      case None => None
      case Some(before) => if Allowed(before, ms[|ms| - 1]) then Some(After(before, ms[|ms| - 1])) else None
  }

  /** Nothing under way, nothing on its way, and a client without ids in a persistent session. */
  ghost predicate Start(w: World) {
    && w.sent == [] && w.exchanges == map[] && w.down == [] && w.up == []
    && w.handed == [] && w.delivered == [] && w.completed == []
    && !w.client.clean && forall i :: 0 <= i < |w.client.table| ==> w.client.table[i] == 0
  }

  // ---- one id at a time ----

  function SignalFor(d: Down, id: ushort): seq<Signal> {
    if !d.For(id) then [] else if d.PubOf? then [Pub] else [Rel]
  }

  function DownFor(ds: seq<Down>, id: ushort): seq<Signal> {
    if ds == [] then [] else DownFor(ds[..|ds| - 1], id) + SignalFor(ds[|ds| - 1], id)
  }

  function ReplyFor(a: Outgoing, id: ushort): seq<Reply> {
    if !a.Ack? || a.id != id then [] else if a.kind == PUBREC then [Rec] else if a.kind == PUBCOMP then [Comp] else []
  }

  function UpFor(us: seq<Outgoing>, id: ushort): seq<Reply> {
    if us == [] then [] else UpFor(us[..|us| - 1], id) + ReplyFor(us[|us| - 1], id)
  }

  lemma {:induction false} DownConcat(a: seq<Down>, b: seq<Down>, id: ushort)
    ensures DownFor(a + b, id) == DownFor(a, id) + DownFor(b, id)
  {
    if b == [] {
      assert a + b == a;
    } else {
      var front, last := b[..|b| - 1], b[|b| - 1];
      DownConcat(a, front, id);
      assert (a + b)[..|a + b| - 1] == a + front && (a + b)[|a + b| - 1] == last;
      assert DownFor(b, id) == DownFor(front, id) + SignalFor(last, id);
      Joined(DownFor(a, id), DownFor(front, id), SignalFor(last, id));
    }
  }

  lemma {:induction false} UpConcat(a: seq<Outgoing>, b: seq<Outgoing>, id: ushort)
    ensures UpFor(a + b, id) == UpFor(a, id) + UpFor(b, id)
  {
    if b == [] {
      assert a + b == a;
    } else {
      var front, last := b[..|b| - 1], b[|b| - 1];
      UpConcat(a, front, id);
      assert (a + b)[..|a + b| - 1] == a + front && (a + b)[|a + b| - 1] == last;
      assert UpFor(b, id) == UpFor(front, id) + ReplyFor(last, id);
      Joined(UpFor(a, id), UpFor(front, id), ReplyFor(last, id));
    }
  }

  lemma DownOne(d: Down, id: ushort)
    ensures DownFor([d], id) == SignalFor(d, id)
  {
  }

  lemma UpOne(a: Outgoing, id: ushort)
    ensures UpFor([a], id) == ReplyFor(a, id)
  {
  }

  lemma DownTail(ds: seq<Down>, id: ushort)
    requires ds != []
    ensures DownFor(ds, id) == SignalFor(ds[0], id) + DownFor(ds[1..], id)
  {
    assert ds == [ds[0]] + ds[1..];
    DownConcat([ds[0]], ds[1..], id);
    DownOne(ds[0], id);
  }

  lemma DownHead(ds: seq<Down>, id: ushort)
    requires ds != []
    ensures ds[0].For(id) ==>
      && DownFor(ds, id) != [] && DownFor(ds, id)[1..] == DownFor(ds[1..], id)
      && DownFor(ds, id)[0] == if ds[0].PubOf? then Pub else Rel
    ensures !ds[0].For(id) ==> DownFor(ds, id) == DownFor(ds[1..], id)
  {
    DownTail(ds, id);
  }

  lemma DownAppend(ds: seq<Down>, d: Down, id: ushort)
    ensures d.For(id) ==> DownFor(ds + [d], id) == DownFor(ds, id) + [if d.PubOf? then Pub else Rel]
    ensures !d.For(id) ==> DownFor(ds + [d], id) == DownFor(ds, id)
  {
  }

  lemma UpTail(us: seq<Outgoing>, id: ushort)
    requires us != []
    ensures UpFor(us, id) == ReplyFor(us[0], id) + UpFor(us[1..], id)
  {
    assert us == [us[0]] + us[1..];
    UpConcat([us[0]], us[1..], id);
    UpOne(us[0], id);
  }

  function PhaseOf(w: World, id: ushort): Phase {
    if id in w.exchanges then w.exchanges[id].phase else Idle
  }

  predicate Holds(t: seq<ushort>, id: ushort) {
    id != 0 && id in t
  }

  function ViewOf(w: World, id: ushort): View {
    View(PhaseOf(w, id), DownFor(w.down, id), UpFor(w.up, id), Holds(w.client.table, id),
         id in w.exchanges && w.exchanges[id].n in w.delivered)
  }

  // ---- the invariant ----

  predicate Underway(w: World, id: ushort) {
    id in w.exchanges ==>
      var e := w.exchanges[id];
      && id > 0 && e.phase != Idle && e.n < |w.sent|
      && w.sent[e.n].id == id && w.sent[e.n].qos == 2 && w.sent[e.n].Legal()
  }

  /** A PUBLISH on its way is the current message of its id. */
  predicate Current(w: World, d: Down) {
    && (d.PubOf? ==> d.id in w.exchanges && w.exchanges[d.id].n == d.n && d.dup < 2)
    && (d.OtherOf? ==> Ordinary(d.h, d.body))
  }

  /** The message was handed over as it was sent. */
  predicate SameMessage(m: PublishOut, p: Publish) {
    m.topic == p.topic && m.payload == p.payload && m.id == p.id && m.qos == p.qos && m.retained == p.retained
  }

  ghost predicate Record(w: World) {
    && |w.handed| == |w.delivered|
    && forall k :: 0 <= k < |w.delivered| ==>
      w.delivered[k] < |w.sent| && SameMessage(w.handed[k], w.sent[w.delivered[k]])
  }

  predicate NoRepeats(s: seq<nat>) {
    forall j, k :: 0 <= j < k < |s| ==> s[j] != s[k]
  }

  ghost predicate Good(w: World) {
    && !w.client.clean && Distinct(w.client.table)
    && (forall id :: Underway(w, id))
    && (forall k :: 0 <= k < |w.down| ==> Current(w, w.down[k]))
    && (forall id :: Inv(ViewOf(w, id)))
    && Record(w) && NoRepeats(w.delivered)
  }

  /** The table has a place for every exchange that can be under way: there are 65535 packet ids. */
  predicate Roomy(w: World) {
    w.window <= |w.client.table| || 65535 <= |w.client.table|
  }

  /** With such a table, also: only what was handed over is acknowledged. */
  ghost predicate Ample(w: World) {
    && |w.exchanges| <= |w.client.table| && Roomy(w)
    && (forall id :: Fed(ViewOf(w, id)))
    && (forall k :: 0 <= k < |w.completed| ==> w.completed[k] in w.delivered)
  }

  // ---- the sender's moves ----

  lemma BeginView(w: World, p: Publish, id: ushort)
    requires Good(w) && Allowed(w, Begin(p))
    ensures ViewOf(After(w, Begin(p)), id) == if id == p.id then Submit(ViewOf(w, id)) else ViewOf(w, id)
  {
  }

  function FirstIds(n: nat): (ids: set<nat>)
    ensures |ids| == n && forall k: nat :: k in ids <==> 0 < k <= n
  {
    if n == 0 then {} else FirstIds(n - 1) + {n}
  }

  /** There are no more exchanges than packet ids. */
  lemma FewExchanges(w: World)
    requires forall id :: Underway(w, id)
    ensures |w.exchanges| <= 65535
  {
    var n := 65535;
    forall id | id in w.exchanges.Keys ensures id in FirstIds(n) { assert Underway(w, id); }
    SubsetSize(w.exchanges.Keys, FirstIds(n));
    KeySize(w.exchanges);
  }

  lemma BeginKeeps(w: World, p: Publish)
    requires Good(w) && Allowed(w, Begin(p))
    ensures Good(After(w, Begin(p))) && (Ample(w) ==> Ample(After(w, Begin(p))))
  {
    var w' := After(w, Begin(p));
    forall id ensures Inv(ViewOf(w', id)) && (Fed(ViewOf(w, id)) ==> Fed(ViewOf(w', id))) {
      BeginView(w, p, id);
      if id == p.id { SubmitKeeps(ViewOf(w, id)); }
    }
    forall id ensures Underway(w', id) { assert Underway(w, id); }
    FewExchanges(w');
    forall k | 0 <= k < |w'.down| ensures Current(w', w'.down[k]) { if k < |w.down| { assert Current(w, w.down[k]); } }
  }

  lemma RepeatView(w: World, i: ushort, id: ushort)
    requires Good(w) && Allowed(w, Repeat(i))
    ensures ViewOf(After(w, Repeat(i)), id) == if id == i then Resend(ViewOf(w, id)) else ViewOf(w, id)
  {
  }

  lemma RepeatKeeps(w: World, i: ushort)
    requires Good(w) && Allowed(w, Repeat(i))
    ensures Good(After(w, Repeat(i))) && (Ample(w) ==> Ample(After(w, Repeat(i))))
  {
    var w' := After(w, Repeat(i));
    forall id ensures Inv(ViewOf(w', id)) && (Fed(ViewOf(w, id)) ==> Fed(ViewOf(w', id))) {
      RepeatView(w, i, id);
      assert Underway(w, id);
      if id == i { ResendKeeps(ViewOf(w, id)); }
    }
    forall id ensures Underway(w', id) { assert Underway(w, id); }
    forall k | 0 <= k < |w'.down| ensures Current(w', w'.down[k]) { if k < |w.down| { assert Current(w, w.down[k]); } }
  }

  lemma RecView(w: World, id: ushort)
    requires Underway(w, id) && w.up != [] && w.up[0] == Ack(PUBREC, id)
    ensures ViewOf(w, id).up != [] && ViewOf(Replied(w), id) == ReadReply(ViewOf(w, id))
  {
    UpTail(w.up, id);
    RecReplied(w, id);
  }

  lemma RecReplied(w: World, id: ushort)
    requires Underway(w, id) && w.up != [] && w.up[0] == Ack(PUBREC, id)
    ensures var w' := Replied(w);
      && w'.up == w.up[1..] && w'.client == w.client && w'.delivered == w.delivered
      && PhaseOf(w', id) == (if PhaseOf(w, id) == Idle then Idle else AwaitComp)
      && DownFor(w'.down, id) == DownFor(w.down, id) + (if PhaseOf(w, id) == Idle then [] else [Rel])
      && (id in w'.exchanges <==> id in w.exchanges)
      && (id in w.exchanges ==> w'.exchanges[id].n == w.exchanges[id].n)
  {
    DownAppend(w.down, RelOf(id), id);
  }

  lemma CompView(w: World, id: ushort)
    requires w.up != [] && w.up[0] == Ack(PUBCOMP, id)
    ensures ViewOf(w, id).up != [] && ViewOf(Replied(w), id) == ReadReply(ViewOf(w, id))
  {
    UpTail(w.up, id);
    CompReplied(w, id);
  }

  lemma CompReplied(w: World, id: ushort)
    requires w.up != [] && w.up[0] == Ack(PUBCOMP, id)
    ensures var w' := Replied(w);
      && w'.up == w.up[1..] && w'.down == w.down && w'.client == w.client && w'.delivered == w.delivered
      && (PhaseOf(w, id) == AwaitComp ==> id !in w'.exchanges)
      && (PhaseOf(w, id) != AwaitComp ==> w'.exchanges == w.exchanges)
  {
  }

  lemma OtherReplyView(w: World, id: ushort)
    requires w.up != [] && ReplyFor(w.up[0], id) == []
    ensures ViewOf(Replied(w), id) == ViewOf(w, id)
  {
    UpTail(w.up, id);
    OtherReplyDown(w, id);
  }

  lemma OtherReplyDown(w: World, id: ushort)
    requires w.up != [] && ReplyFor(w.up[0], id) == []
    ensures var w' := Replied(w);
      && DownFor(w'.down, id) == DownFor(w.down, id)
      && w'.up == w.up[1..] && w'.client == w.client && w'.delivered == w.delivered
      && (id in w'.exchanges <==> id in w.exchanges) && (id in w.exchanges ==> w'.exchanges[id] == w.exchanges[id])
  {
  }

  lemma ReplyKeepsView(w: World, id: ushort)
    requires Good(w) && w.up != []
    ensures Inv(ViewOf(Replied(w), id))
    ensures Fed(ViewOf(w, id)) ==> Fed(ViewOf(Replied(w), id))
  {
    var a := w.up[0];
    assert Inv(ViewOf(w, id)) && Underway(w, id);
    if a == Ack(PUBREC, id) {
      RecView(w, id);
      ReadReplyKeeps(ViewOf(w, id));
    } else if a == Ack(PUBCOMP, id) {
      CompView(w, id);
      ReadReplyKeeps(ViewOf(w, id));
    } else {
      OtherReplyView(w, id);
    }
  }

  /** The sender sees an exchange through only when its message was handed over. */
  lemma CompletesDelivered(w: World, id: ushort)
    requires Good(w) && w.up != [] && w.up[0] == Ack(PUBCOMP, id) && PhaseOf(w, id) == AwaitComp
    requires Fed(ViewOf(w, id))
    ensures w.exchanges[id].n in w.delivered
  {
  }

  lemma ReplyKeepsDown(w: World)
    requires Good(w) && w.up != []
    ensures var w' := Replied(w); forall k :: 0 <= k < |w'.down| ==> Current(w', w'.down[k])
  {
    var w', a := Replied(w), w.up[0];
    forall k | 0 <= k < |w'.down| ensures Current(w', w'.down[k]) {
      if k < |w.down| {
        assert Current(w, w.down[k]);
        if a.Ack? && a.kind == PUBCOMP && PhaseOf(w, a.id) == AwaitComp { NoPubLeft(w, a.id, k); }
      }
    }
  }

  lemma NoPubLeft(w: World, id: ushort, k: nat)
    requires Good(w) && w.up != [] && w.up[0] == Ack(PUBCOMP, id) && PhaseOf(w, id) == AwaitComp && k < |w.down|
    ensures !(w.down[k].PubOf? && w.down[k].id == id)
  {
    assert Inv(ViewOf(w, id));
    UpTail(w.up, id);
    if w.down[k].PubOf? && w.down[k].id == id { PubInView(w.down, k); }
  }

  lemma PubInView(ds: seq<Down>, k: nat)
    requires k < |ds| && ds[k].PubOf?
    ensures Pub in DownFor(ds, ds[k].id)
  {
  }

  lemma ReplyKeeps(w: World)
    requires Good(w) && w.up != []
    ensures Good(Replied(w))
  {
    var w' := Replied(w);
    forall id ensures Inv(ViewOf(w', id)) { ReplyKeepsView(w, id); }
    forall id ensures Underway(w', id) { assert Underway(w, id); }
    ReplyKeepsDown(w);
  }

  lemma ReplyKeepsAmple(w: World)
    requires Good(w) && Ample(w) && w.up != []
    ensures Ample(Replied(w))
  {
    var w', a := Replied(w), w.up[0];
    forall id ensures Fed(ViewOf(w', id)) {
      assert Fed(ViewOf(w, id));
      ReplyKeepsView(w, id);
    }
    if a.Ack? && a.kind == PUBCOMP && PhaseOf(w, a.id) == AwaitComp {
      assert Fed(ViewOf(w, a.id));
      CompletesDelivered(w, a.id);
    }
    ReplyShrinks(w);
  }

  lemma ReplyShrinks(w: World)
    requires w.up != []
    ensures |Replied(w).exchanges| <= |w.exchanges|
  {
  }

  lemma KeySize<K, V>(m: map<K, V>)
    ensures |m.Keys| == |m|
  {
  }

  // ---- the client's moves ----

  lemma AfterClientView(w: World, s: State, es: seq<Event>, id: ushort)
    ensures var v := ViewOf(w, id);
      ViewOf(AfterClient(w, s, es), id) == v.(
        down := if Broken(es) then [] else v.down,
        up := if Broken(es) then [] else v.up + UpFor(Answers(es), id),
        held := Holds(s.table, id))
  {
    UpConcat(w.up, Answers(es), id);
  }

  lemma {:induction false} UnrelatedUp(es: seq<Event>, id: ushort)
    requires Unrelated(es)
    ensures UpFor(Answers(es), id) == []
  {
    if es != [] {
      var front, e := es[..|es| - 1], es[|es| - 1];
      UnrelatedUp(front, id);
      if e.Sent? && e.p != Ping {
        UpConcat(Answers(front), [e.p], id);
        UpOne(e.p, id);
      } else {
        assert Answers(es) == Answers(front);
      }
    }
  }

  lemma ElseView(w: World, op: Op, id: ushort)
    requires !w.client.clean && Enabled(w.client, op) && Aside(op)
    ensures var v, es := ViewOf(w, id), Events(w.client, op);
      ViewOf(Stepped(w, op), id) == if Broken(es) then v.(down := [], up := []) else v
  {
    var es := Events(w.client, op);
    AsideStep(w.client, op);
    AfterClientView(w, Session.Next(w.client, op), es, id);
    UnrelatedUp(es, id);
  }

  lemma ElseKeeps(w: World, op: Op)
    requires Good(w) && Enabled(w.client, op) && Aside(op)
    ensures Good(Stepped(w, op)) && (Ample(w) ==> Ample(Stepped(w, op)))
  {
    var w' := Stepped(w, op);
    forall id ensures Inv(ViewOf(w', id)) && (Fed(ViewOf(w, id)) ==> Fed(ViewOf(w', id))) {
      ElseView(w, op, id);
      DropKeeps(ViewOf(w, id));
    }
    AsideStep(w.client, op);
    SameSender(w, w');
  }

  /** Nothing changed that the sender's side of the invariant speaks of. */
  lemma SameSender(w: World, w': World)
    requires w'.sent == w.sent && w'.exchanges == w.exchanges
    requires forall id :: Underway(w, id)
    requires forall k :: 0 <= k < |w.down| ==> Current(w, w.down[k])
    requires w'.down == w.down || w'.down == [] || (w.down != [] && w'.down == w.down[1..])
    ensures forall id :: Underway(w', id)
    ensures forall k :: 0 <= k < |w'.down| ==> Current(w', w'.down[k])
  {
    forall id ensures Underway(w', id) { assert Underway(w, id); }
    forall k | 0 <= k < |w'.down| ensures Current(w', w'.down[k]) {
      if w'.down == w.down { assert Current(w, w.down[k]); } else { assert Current(w, w.down[k + 1]); }
    }
  }

  lemma LoseKeeps(w: World)
    requires Good(w)
    ensures Good(After(w, Lose)) && (Ample(w) ==> Ample(After(w, Lose)))
  {
    var w' := After(w, Lose);
    forall id ensures Inv(ViewOf(w', id)) && (Fed(ViewOf(w, id)) ==> Fed(ViewOf(w', id))) {
      assert ViewOf(w', id) == ViewOf(w, id).(down := [], up := []);
      DropKeeps(ViewOf(w, id));
    }
    SameSender(w, w');
  }

  // ---- the client takes a PUBLISH ----

  lemma TakenPublish(w: World, i: Input)
    requires Good(w) && Takes(w, i) && w.down[0].PubOf?
    ensures var d, c := w.down[0], Cycle(w.client, i);
      && Underway(w, d.id) && d.id in w.exchanges && w.exchanges[d.id].n == d.n && d.dup < 2
      && d.n < |w.sent| && w.sent[d.n].id == d.id
      && Handed(c.es) == (if Room(w.client, d.id) then [w.sent[d.n].(dup := d.dup).Decoded(Unset(i.garbage))] else [])
      && c.s.table == (if Room(w.client, d.id) then Use(w.client.table, d.id).1 else w.client.table)
      && !c.s.clean
      && (!Broken(c.es) ==> Answers(c.es) == [Ack(PUBREC, d.id)])
  {
    var d := w.down[0];
    assert Current(w, d) && Underway(w, d.id);
    PublishCycle(w.client, i, w.sent[d.n].(dup := d.dup));
  }

  lemma HoldsUsed(s: State, i: ushort, id: ushort)
    requires Distinct(s.table) && i > 0
    ensures var t := if Room(s, i) then Use(s.table, i).1 else s.table;
      && Distinct(t) && |t| == |s.table|
      && (Holds(t, id) <==> Holds(s.table, id) || (id == i && Room(s, i)))
  {
  }

  /** Where the world stands after the client's cycle, in terms of what the cycle did. */
  function PublishTaken(w: World, room: bool, s: State, es: seq<Event>): World
    requires w.down != [] && w.down[0].PubOf?
  {
    AfterClient(w.(down := w.down[1..], delivered := w.delivered + if room then [w.down[0].n] else []), s, es)
  }

  lemma TakesPublishIs(w: World, i: Input)
    requires Good(w) && Takes(w, i) && w.down[0].PubOf?
    ensures var c := Cycle(w.client, i);
      Taken(w, i) == PublishTaken(w, Room(w.client, w.down[0].id), c.s, c.es)
  {
    TakenPublish(w, i);
  }

  lemma DoneGrows(w: World, i: ushort, n: nat, id: ushort, room: bool)
    requires Underway(w, id) && Underway(w, i) && i in w.exchanges && w.exchanges[i].n == n
    ensures var delivered := w.delivered + if room then [n] else [];
      (id in w.exchanges && w.exchanges[id].n in delivered)
      <==> (id in w.exchanges && w.exchanges[id].n in w.delivered) || (id == i && room)
  {
  }

  /** The PUBLISH at the head of the channel is the current message of its id. */
  predicate HeadPublish(w: World, i: ushort, n: nat) {
    && w.down != [] && w.down[0].PubOf? && w.down[0].id == i && w.down[0].n == n
    && i in w.exchanges && w.exchanges[i].n == n && Underway(w, i)
  }

  lemma PublishTakenView(w: World, room: bool, s: State, es: seq<Event>, id: ushort, n: nat)
    requires HeadPublish(w, id, n) && (room ==> !Holds(w.client.table, id))
    requires !Broken(es) ==> Answers(es) == [Ack(PUBREC, id)]
    requires Holds(s.table, id) <==> Holds(w.client.table, id) || room
    ensures var v := ViewOf(w, id);
      v.down != [] && v.down[0] == Pub && ViewOf(PublishTaken(w, room, s, es), id) == ReadPub(v, room, Broken(es))
  {
    AfterClientView(w.(down := w.down[1..], delivered := w.delivered + if room then [n] else []), s, es, id);
    DownHead(w.down, id);
    UpOne(Ack(PUBREC, id), id);
    DoneGrows(w, id, n, id, room);
  }

  lemma PublishPassesView(w: World, i: ushort, n: nat, room: bool, s: State, es: seq<Event>, id: ushort)
    requires HeadPublish(w, i, n) && Underway(w, id) && id != i
    requires !Broken(es) ==> Answers(es) == [Ack(PUBREC, i)]
    requires Holds(s.table, id) <==> Holds(w.client.table, id)
    ensures var v := ViewOf(w, id);
      ViewOf(PublishTaken(w, room, s, es), id) == if Broken(es) then v.(down := [], up := []) else v
  {
    AfterClientView(w.(down := w.down[1..], delivered := w.delivered + if room then [n] else []), s, es, id);
    DownHead(w.down, id);
    UpOne(Ack(PUBREC, i), id);
    DoneGrows(w, i, n, id, room);
  }

  lemma TakesPublishKeepsView(w: World, i: Input, id: ushort)
    requires Good(w) && Takes(w, i) && w.down[0].PubOf?
    ensures var v, v', d := ViewOf(w, id), ViewOf(Taken(w, i), id), w.down[0];
      && Inv(v')
      && (Fed(v) && (id == d.id ==> Holds(w.client.table, id) || Room(w.client, id)) ==> Fed(v'))
  {
    var d, c := w.down[0], Cycle(w.client, i);
    var room := Room(w.client, d.id);
    assert Inv(ViewOf(w, id)) && Underway(w, id);
    TakenPublish(w, i);
    TakesPublishIs(w, i);
    HoldsUsed(w.client, d.id, id);
    if id == d.id {
      PublishTakenView(w, room, c.s, c.es, id, d.n);
      ReadPubKeeps(ViewOf(w, id), room, Broken(c.es));
    } else {
      PublishPassesView(w, d.id, d.n, room, c.s, c.es, id);
      DropKeeps(ViewOf(w, id));
    }
  }

  /** A message is handed over only when it was not before. */
  lemma HandedIsNew(w: World, i: Input)
    requires Good(w) && Takes(w, i) && w.down[0].PubOf? && Room(w.client, w.down[0].id)
    ensures w.down[0].n !in w.delivered
  {
    var d := w.down[0];
    assert Current(w, d) && Underway(w, d.id) && Inv(ViewOf(w, d.id));
    DownHead(w.down, d.id);
    ReadPubKeeps(ViewOf(w, d.id), true, true);
  }

  lemma RecordGrows(w: World, room: bool, s: State, es: seq<Event>, m: PublishOut)
    requires Record(w) && NoRepeats(w.delivered) && w.down != [] && w.down[0].PubOf?
    requires var n := w.down[0].n;
      n < |w.sent| && SameMessage(m, w.sent[n]) && (room ==> n !in w.delivered)
    requires Handed(es) == if room then [m] else []
    ensures Record(PublishTaken(w, room, s, es)) && NoRepeats(PublishTaken(w, room, s, es).delivered)
  {
  }

  lemma TakesPublishRecord(w: World, i: Input)
    requires Good(w) && Takes(w, i) && w.down[0].PubOf?
    ensures var w' := Taken(w, i); Record(w') && NoRepeats(w'.delivered)
  {
    TakenPublish(w, i);
    TakesPublishIs(w, i);
    var d, c := w.down[0], Cycle(w.client, i);
    if Room(w.client, d.id) { HandedIsNew(w, i); }
    RecordGrows(w, Room(w.client, d.id), c.s, c.es, w.sent[d.n].(dup := d.dup).Decoded(Unset(i.garbage)));
  }

  lemma TakesPublishKeeps(w: World, i: Input)
    requires Good(w) && Takes(w, i) && w.down[0].PubOf?
    ensures Good(Taken(w, i))
  {
    var w' := Taken(w, i);
    forall id ensures Inv(ViewOf(w', id)) { TakesPublishKeepsView(w, i, id); }
    TakenPublish(w, i);
    TakesPublishIs(w, i);
    HoldsUsed(w.client, w.down[0].id, 0);
    SameSender(w, w');
    TakesPublishRecord(w, i);
  }

  /** With a window no larger than the table there is room for every new message. */
  lemma AmpleRoom(w: World, id: ushort)
    requires Good(w) && Ample(w) && id in w.exchanges && !Holds(w.client.table, id)
    ensures Room(w.client, id)
  {
    var t := w.client.table;
    assert Underway(w, id);
    if 0 !in t {
      FullTable(t);
      forall k | k in Ids(t) ensures k in w.exchanges.Keys - {id} {
        IdsIn(t, k);
        assert Inv(ViewOf(w, k));
      }
      SubsetSize(Ids(t), w.exchanges.Keys - {id});
      KeySize(w.exchanges);
      assert false;
    }
    UseAdds(t, id);
  }

  lemma SubsetSize<T>(a: set<T>, b: set<T>)
    requires a <= b
    ensures |a| <= |b|
  {
    if a != {} {
      var x :| x in a;
      SubsetSize(a - {x}, b - {x});
    }
  }

  lemma TakesPublishKeepsAmple(w: World, i: Input)
    requires Good(w) && Ample(w) && Takes(w, i) && w.down[0].PubOf?
    ensures Ample(Taken(w, i))
  {
    var w', d := Taken(w, i), w.down[0];
    TakenPublish(w, i);
    TakesPublishIs(w, i);
    HoldsUsed(w.client, d.id, 0);
    if !Holds(w.client.table, d.id) { AmpleRoom(w, d.id); }
    forall id ensures Fed(ViewOf(w', id)) {
      assert Fed(ViewOf(w, id));
      TakesPublishKeepsView(w, i, id);
    }
  }

  // ---- the client takes a PUBREL ----

  function ReleaseTaken(w: World, s: State, es: seq<Event>): World
    requires w.down != []
  {
    AfterClient(w.(down := w.down[1..]), s, es)
  }

  lemma TakenRelease(w: World, i: Input)
    requires Good(w) && Takes(w, i) && w.down[0].RelOf?
    ensures var c, id := Cycle(w.client, i), w.down[0].id;
      && Taken(w, i) == ReleaseTaken(w, c.s, c.es)
      && Handed(c.es) == [] && !c.s.clean
      && (c.s.table == w.client.table || c.s.table == Free(w.client.table, id))
      && (!Broken(c.es) ==> c.s.table == Free(w.client.table, id) && Answers(c.es) == [Ack(PUBCOMP, id)])
  {
    ReleaseCycle(w.client, i, 0, w.down[0].id);
  }

  lemma HoldsFreed(t: seq<ushort>, t': seq<ushort>, i: ushort, id: ushort)
    requires Distinct(t) && (t' == t || t' == Free(t, i))
    ensures Distinct(t') && |t'| == |t|
    ensures Holds(t', id) <==> Holds(t, id) && !(id == i && t' == Free(t, i))
  {
  }

  lemma ReleaseTakenView(w: World, s: State, es: seq<Event>, freed: bool, id: ushort)
    requires w.down != [] && w.down[0] == RelOf(id)
    requires !Broken(es) ==> Answers(es) == [Ack(PUBCOMP, id)]
    requires Holds(s.table, id) <==> Holds(w.client.table, id) && !freed
    ensures var v := ViewOf(w, id);
      v.down != [] && v.down[0] == Rel && ViewOf(ReleaseTaken(w, s, es), id) == ReadRel(v, freed, Broken(es))
  {
    AfterClientView(w.(down := w.down[1..]), s, es, id);
    DownHead(w.down, id);
    UpOne(Ack(PUBCOMP, id), id);
  }

  lemma ReleasePassesView(w: World, s: State, es: seq<Event>, id: ushort)
    requires w.down != [] && w.down[0].RelOf? && w.down[0].id != id
    requires !Broken(es) ==> Answers(es) == [Ack(PUBCOMP, w.down[0].id)]
    requires Holds(s.table, id) <==> Holds(w.client.table, id)
    ensures var v := ViewOf(w, id);
      ViewOf(ReleaseTaken(w, s, es), id) == if Broken(es) then v.(down := [], up := []) else v
  {
    AfterClientView(w.(down := w.down[1..]), s, es, id);
    DownHead(w.down, id);
    UpOne(Ack(PUBCOMP, w.down[0].id), id);
  }

  lemma TakesReleaseKeepsView(w: World, i: Input, id: ushort)
    requires Good(w) && Takes(w, i) && w.down[0].RelOf?
    ensures var v, v' := ViewOf(w, id), ViewOf(Taken(w, i), id);
      Inv(v') && (Fed(v) ==> Fed(v'))
  {
    var d, c := w.down[0], Cycle(w.client, i);
    var freed := c.s.table == Free(w.client.table, d.id);
    assert Inv(ViewOf(w, id));
    TakenRelease(w, i);
    HoldsFreed(w.client.table, c.s.table, d.id, id);
    if id == d.id {
      ReleaseTakenView(w, c.s, c.es, freed, id);
      ReadRelKeeps(ViewOf(w, id), freed, Broken(c.es));
    } else {
      ReleasePassesView(w, c.s, c.es, id);
      DropKeeps(ViewOf(w, id));
    }
  }

  lemma TakesReleaseKeeps(w: World, i: Input)
    requires Good(w) && Takes(w, i) && w.down[0].RelOf?
    ensures Good(Taken(w, i)) && (Ample(w) ==> Ample(Taken(w, i)))
  {
    var w' := Taken(w, i);
    forall id ensures Inv(ViewOf(w', id)) && (Fed(ViewOf(w, id)) ==> Fed(ViewOf(w', id))) {
      TakesReleaseKeepsView(w, i, id);
    }
    TakenRelease(w, i);
    HoldsFreed(w.client.table, Cycle(w.client, i).s.table, w.down[0].id, 0);
    SameSender(w, w');
  }

  // ---- other traffic ----

  lemma MingleKeeps(w: World, h: byte, body: seq<byte>)
    requires Good(w) && Ordinary(h, body)
    ensures Good(After(w, Mingle(h, body))) && (Ample(w) ==> Ample(After(w, Mingle(h, body))))
  {
    var w' := After(w, Mingle(h, body));
    forall id ensures ViewOf(w', id) == ViewOf(w, id) { DownAppend(w.down, OtherOf(h, body), id); }
    forall id ensures Inv(ViewOf(w', id)) && (Fed(ViewOf(w, id)) ==> Fed(ViewOf(w', id))) {
      assert ViewOf(w', id) == ViewOf(w, id);
    }
    forall id ensures Underway(w', id) { assert Underway(w, id); }
    forall k | 0 <= k < |w'.down| ensures Current(w', w'.down[k]) { if k < |w.down| { assert Current(w, w.down[k]); } }
  }

  /** A packet of other traffic is no part of the invariant. */
  lemma DropOtherKeeps(w: World)
    requires Good(w) && w.down != [] && w.down[0].OtherOf?
    ensures var w' := w.(down := w.down[1..]); Good(w') && (Ample(w) ==> Ample(w'))
  {
    var w' := w.(down := w.down[1..]);
    forall id ensures Inv(ViewOf(w', id)) && (Fed(ViewOf(w, id)) ==> Fed(ViewOf(w', id))) {
      DownHead(w.down, id);
      assert ViewOf(w', id) == ViewOf(w, id);
    }
    SameSender(w, w');
  }

  // ---- the client reads the stream ----

  lemma HeadFrame(w: World) returns (h: byte, body: seq<byte>)
    requires w.down != [] && Current(w, w.down[0]) && (!w.down[0].OtherOf? ==> Underway(w, w.down[0].id))
    ensures BytesOf(w.sent, w.down[0]) == Frame(h, body) && |body| <= MAX_REMAINING_LENGTH
    ensures w.down[0].OtherOf? ==> h == w.down[0].h && body == w.down[0].body
    ensures !w.down[0].OtherOf? ==> Kind(h) == if w.down[0].PubOf? then PUBLISH else PUBREL
  {
    match w.down[0]
    case PubOf(_, n, dup) =>
      h, body := PublishFrame(w.sent[n].(dup := dup));
    case RelOf(id) =>
      h, body := AckFrame(PUBREL, id);
    case OtherOf(h', body') => h, body := h', body';
  }

  lemma PublishFrame(p: Publish) returns (h: byte, body: seq<byte>)
    requires p.Legal()
    ensures p.Encoding() == Frame(h, body) && Kind(h) == PUBLISH && |body| <= MAX_REMAINING_LENGTH
  {
    HeaderFields(PUBLISH, p.dup, p.qos, p.retained);
    h, body := Header(PUBLISH, p.dup, p.qos, p.retained), p.Body();
  }

  lemma AckFrame(kind: nat, id: ushort) returns (h: byte, body: seq<byte>)
    requires kind < 16
    ensures EncodeAck(kind, 0, id) == Frame(h, body) && Kind(h) == kind && body == EncodeInt(id)
    ensures kind == PUBREL ==> h == Header(kind, 0, 1, 0)
  {
    var qos := if kind == PUBREL then 1 else 0;
    HeaderFields(kind, 0, qos, 0);
    h := Header(kind, 0, qos, 0);
    body := EncodeInt(id);
  }

  lemma DrawsHead(w: World, i: Input, grants: seq<int>, h: byte, body: seq<byte>)
    requires Allowed(w, ClientReads(i, grants)) && w.down != []
    requires BytesOf(w.sent, w.down[0]) == Frame(h, body) && |body| <= MAX_REMAINING_LENGTH
    ensures i.out.Packet? ==> i.out.kind == Kind(h) && At(i.buf, 0, Frame(h, body))
  {
    ReadsOnBoundary(SourceOf(w, grants), w.client.readbuf, h, body, Stream(w.sent, w.down[1..]));
  }

  lemma DrawsNothing(w: World, i: Input, grants: seq<int>)
    requires Allowed(w, ClientReads(i, grants)) && w.down == []
    ensures !i.out.Packet?
  {
  }

  /** What the cycle got is the packet at the head of the stream. */
  lemma ReadsHead(w: World, i: Input, grants: seq<int>)
    requires Good(w) && Allowed(w, ClientReads(i, grants)) && i.out.Packet?
    ensures w.down != []
    ensures w.down[0].OtherOf? ==> Aside(Cycling(i))
    ensures !w.down[0].OtherOf? ==> Takes(w, i)
  {
    if w.down == [] { DrawsNothing(w, i, grants); }
    else {
      var d := w.down[0];
      assert Current(w, d) && (!d.OtherOf? ==> Underway(w, d.id));
      var h, body := HeadFrame(w);
      DrawsHead(w, i, grants, h, body);
      if d.OtherOf? { FrameParts(i.buf, h, body); }
    }
  }

  lemma ReadsKeeps(w: World, i: Input, grants: seq<int>)
    requires Good(w) && Allowed(w, ClientReads(i, grants))
    ensures var w' := After(w, ClientReads(i, grants)); Good(w') && (Ample(w) ==> Ample(w'))
  {
    if !i.out.Packet? {
      ElseKeeps(w, Cycling(i));
    } else {
      ReadsHead(w, i, grants);
      if w.down[0].OtherOf? {
        DropOtherKeeps(w);
        ElseKeeps(w.(down := w.down[1..]), Cycling(i));
      } else {
        TakesKeeps(w, i);
      }
    }
  }

  /** A body that comes up short, or is too long, ends the session: what is left of it is never read. */
  lemma ShortReadEnds(s: State, i: Input)
    requires s.connected && (i.out.ShortBody? || i.out.TooLong?)
    ensures Broken(Cycle(s, i).es)
  {
    assert Cycle(s, i).es[0] == Closed(s.clean);
  }

  // ---- whole plays ----

  lemma MoveKeeps(w: World, m: Move)
    requires Good(w) && Allowed(w, m)
    ensures Good(After(w, m)) && (Ample(w) ==> Ample(After(w, m)))
  {
    match m
    case Begin(p) => BeginKeeps(w, p);
    case Repeat(id) => RepeatKeeps(w, id);
    case Mingle(h, body) => MingleKeeps(w, h, body);
    case ClientReads(i, grants) => ReadsKeeps(w, i, grants);
    case ClientElse(op) => ElseKeeps(w, op);
    case SenderTakes =>
      ReplyKeeps(w);
      if Ample(w) { ReplyKeepsAmple(w); }
    case Lose => LoseKeeps(w);
  }

  lemma TakesKeeps(w: World, i: Input)
    requires Good(w) && Takes(w, i)
    ensures Good(Taken(w, i)) && (Ample(w) ==> Ample(Taken(w, i)))
  {
    if w.down[0].RelOf? {
      TakesReleaseKeeps(w, i);
    } else {
      TakesPublishKeeps(w, i);
      if Ample(w) { TakesPublishKeepsAmple(w, i); }
    }
  }

  lemma StartGood(w: World)
    requires Start(w)
    ensures Good(w) && (Roomy(w) ==> Ample(w))
  {
  }

  lemma {:induction false} PlayKeeps(w: World, ms: seq<Move>)
    requires Start(w) && Play(w, ms).Some?
    ensures Good(Play(w, ms).value)
    ensures Roomy(w) ==> Ample(Play(w, ms).value)
  {
    if ms == [] {
      StartGood(w);
    } else {
      var front := ms[..|ms| - 1];
      PlayKeeps(w, front);
      MoveKeeps(Play(w, front).value, ms[|ms| - 1]);
    }
  }

  /** At most once, on every play: no message is handed to `deliverMessage` twice, and what it gets is what
      was sent, whatever the sender's window, the traffic, and the losses of connection. */
  lemma AtMostOnce(w: World, ms: seq<Move>)
    requires Start(w) && Play(w, ms).Some?
    ensures var w' := Play(w, ms).value;
      && |w'.handed| == |w'.delivered| && NoRepeats(w'.delivered)
      && forall k :: 0 <= k < |w'.handed| ==>
        w'.delivered[k] < |w'.sent| && SameMessage(w'.handed[k], w'.sent[w'.delivered[k]])
  {
    PlayKeeps(w, ms);
  }

  /** Message `n` was handed over, as it was sent, and no second time. */
  ghost predicate HandedOnce(w: World, n: nat) {
    exists k :: 0 <= k < |w.delivered| && w.delivered[k] == n && HandedAt(w, k)
      && forall j :: 0 <= j < |w.delivered| && j != k ==> w.delivered[j] != n
  }

  predicate HandedAt(w: World, k: nat)
    requires k < |w.delivered|
  {
    k < |w.handed| && w.delivered[k] < |w.sent| && SameMessage(w.handed[k], w.sent[w.delivered[k]])
  }

  /** Exactly once by the time the sender sees PUBCOMP, when it can never have more exchanges under way than
      the client's table has places. */
  lemma ExactlyOnce(w: World, ms: seq<Move>, n: nat)
    requires Start(w) && Play(w, ms).Some? && Roomy(w)
    requires n in Play(w, ms).value.completed
    ensures HandedOnce(Play(w, ms).value, n)
  {
    PlayKeeps(w, ms);
    CompletedOnce(Play(w, ms).value, n);
  }

  lemma CompletedOnce(w: World, n: nat)
    requires Good(w) && Ample(w) && n in w.completed
    ensures HandedOnce(w, n)
  {
  }
}
