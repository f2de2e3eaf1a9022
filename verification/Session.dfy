/** What a client of MQTTClient.h remembers, and what each of its steps does to it, on values.

    `Step` gives the new state and the events of one step; `Run` a whole history of steps.  What the
    network and the clock answer is part of each step, so that a property of all runs holds for every
    network and every clock. */
module Session {
  import opened Bytes
  import opened FixedHeader
  import opened PublishCodec
  import opened MessageHandlers
  import opened PacketReader
  import opened Transport
  import QoS2Ids

  const BUFFER_OVERFLOW := -2

  /** The publish kept for sending on reconnect: `inflightMsgid`, `inflightLen`, `inflightQoS`, `pubbuf`. */
  datatype Inflight = Inflight(id: ushort, len: nat, qos: nat, pubbuf: seq<byte>)

  /** `keepAliveInterval`, `ping_outstanding` and the three timers, each as the time at which it expires. */
  datatype Alive = Alive(interval: nat, ping: bool, lastSent: int, lastReceived: int, pingSent: int)

  /** `last` is the return code of the latest cycle. */
  datatype State = State(
    table: seq<ushort>, slots: seq<Slot>, default: Option<Handler>, inflight: Inflight, readbuf: seq<byte>,
    alive: Alive, clean: bool, connected: bool, nextId: ushort, last: int)

  /** A packet handed to `sendPacket`. */
  datatype Outgoing = Ack(kind: nat, id: ushort) | Ping | Other(packet: seq<byte>)
  {
    function Bytes(): seq<byte> {
      match this
      case Ack(kind, id) => EncodeAck(kind, 0, id)
      case Ping => [Header(PINGREQ, 0, 0, 0), 0]
      case Other(packet) => packet
    }

    function Size(): (n: nat)
      ensures n == |Bytes()|
    {
      match this
      case Ack(kind, id) => 4
      case Ping => 2
      case Other(packet) => |packet|
    }
  }

  datatype HandlerCall = HandlerCall(handler: Handler, msg: PublishOut)

  /** `Cut` is a send that failed after its first `w` bytes. */
  datatype Event =
    | Received(kind: nat, buf: seq<byte>)
    | Delivered(msg: PublishOut, calls: seq<Handler>)
    | Sent(p: Outgoing)
    | Cut(p: Outgoing, w: nat)
    | Closed(clean: bool)
    | Opened

  // ---- sending ----

  /** `sendPacket` when the network lets `w` bytes through and the time is `now` when it ends. */
  function Send(a: Alive, p: Outgoing, w: nat, now: int): Alive {
    if w >= p.Size() && a.interval > 0 then a.(lastSent := now + Seconds(a.interval)) else a
  }

  function SendEvent(p: Outgoing, w: nat): Event {
    if w < p.Size() then Cut(p, w) else Sent(p)
  }

  /** The bytes of a history on the wire, in order. */
  function Wire(es: seq<Event>): seq<byte> {
    if es == [] then [] else Wire(es[..|es| - 1]) + OnWire(es[|es| - 1])
  }

  function OnWire(e: Event): seq<byte> {
    if e.Sent? then e.p.Bytes() else if e.Cut? then Slice(e.p.Bytes(), 0, e.w) else []
  }

  /** The calls made to handlers, in order. */
  function Calls(es: seq<Event>): seq<HandlerCall> {
    if es == [] then [] else Calls(es[..|es| - 1]) + CallsBy(es[|es| - 1])
  }

  function CallsBy(e: Event): seq<HandlerCall> {
    if e.Delivered? then CallEach(e.calls, e.msg) else []
  }

  function CallEach(hs: seq<Handler>, m: PublishOut): seq<HandlerCall> {
    if hs == [] then [] else CallEach(hs[..|hs| - 1], m) + [HandlerCall(hs[|hs| - 1], m)]
  }

  // ---- cycle ----

  /** The answers one cycle gets: what is read and when, the bytes of the answer and of the PINGREQ that
      go out and when, the times at which the timers are looked at, and what an uninitialised packet id
      happens to hold. */
  datatype Input = Input(
    out: Outcome, buf: seq<byte>, readAt: int, garbage: ushort, ackW: nat, ackAt: int,
    pingLook: int, sentLook: int, receivedLook: int, pingW: nat, pingAt: int)
  {
    /** The result of `readPacket`: a body that comes up short leaves the 1 of the first read. */
    function Type(): int {
      match out
      case NoHeader(rc) => rc
      case TooLong => BUFFER_OVERFLOW
      case ShortBody => 1
      case Packet(kind) => kind
    }

    function Msg(): PublishOut {
      DecodePublish(buf, Unset(garbage)).1
    }

    function AckId(): ushort {
      DecodeAck(buf, AckOut(0, 0, garbage)).1.id
    }
  }

  function Unset(id: ushort): PublishOut { PublishOut(0, 0, 0, id, [], [], 0) }

  /** The state and events after part of a cycle, the code so far, and whether the rest is skipped. */
  datatype Part = Part(s: State, es: seq<Event>, rc: int, stop: bool)

  function Read(s: State, i: Input): State {
    s.(readbuf := i.buf, alive := ReadAlive(s.alive, i.out, i.readAt))
  }

  function ReadAlive(a: Alive, out: Outcome, now: int): Alive {
    if out.Packet? then Heard(a, now) else a
  }

  /** `last_received.countdown(keepAliveInterval)`. */
  function Heard(a: Alive, now: int): Alive {
    if a.interval > 0 then a.(lastReceived := now + Seconds(a.interval)) else a
  }

  /** Sending an acknowledgement; a failed send ends the cycle. */
  function Answer(s: State, kind: nat, id: ushort, i: Input): Part {
    Part(s.(alive := Send(s.alive, Ack(kind, id), i.ackW, i.ackAt)),
         [SendEvent(Ack(kind, id), i.ackW)],
         if i.ackW < 4 then FAILURE else SUCCESS, i.ackW < 4)
  }

  function Call(s: State, m: PublishOut): Event {
    Delivered(m, Deliver(s.slots, s.default, m.topic))
  }

  /** Handing a PUBLISH on: QoS 2 only when its id is not in the table and there is room for it. */
  function Accept(s: State, m: PublishOut): (State, seq<Event>) {
    if m.qos != 2 then (s, [Call(s, m)])
    else if m.id in s.table || !QoS2Ids.Use(s.table, m.id).0 then (s, [])
    else (s.(table := QoS2Ids.Use(s.table, m.id).1), [Call(s, m)])
  }

  /** Acknowledging a PUBLISH; QoS 3 has no acknowledgement and counts as a failure. */
  function Acknowledge(s: State, m: PublishOut, i: Input): Part {
    if m.qos == 0 then Part(s, [], SUCCESS, false)
    else if m.qos == 1 then Answer(s, PUBACK, m.id, i)
    else if m.qos == 2 then Answer(s, PUBREC, m.id, i)
    else Part(s, [], FAILURE, true)
  }

  function OnPublish(s: State, i: Input): Part {
    OnMessage(s, DecodePublish(i.buf, Unset(i.garbage)).0, i.Msg(), i)
  }

  function OnMessage(s: State, code: int, m: PublishOut, i: Input): Part {
    if code != 1 then Part(s, [], SUCCESS, true)
    else
      var (s', es) := Accept(s, m);
      var a := Acknowledge(s', m, i);
      a.(es := es + a.es)
  }

  /** PUBREC is answered with PUBREL; PUBREL with PUBCOMP, and then the id is free again. */
  function OnRelease(s: State, kind: nat, i: Input): Part {
    OnId(s, kind, DecodeAck(i.buf, AckOut(0, 0, i.garbage)).0, i.AckId(), i)
  }

  function OnId(s: State, kind: nat, code: int, id: ushort, i: Input): Part {
    if code != 1 then Part(s, [], FAILURE, true)
    else
      var a := Answer(s, if kind == PUBREC then PUBREL else PUBCOMP, id, i);
      if a.stop || kind == PUBREC then a
      else a.(s := a.s.(table := QoS2Ids.Free(a.s.table, id)))
  }

  predicate Ignored(kind: int) {
    kind in [0, CONNACK, PUBACK, PUBCOMP, SUBACK, UNSUBACK]
  }

  /** The switch on the packet type. */
  function OnPacket(s: State, i: Input): Part {
    var kind := i.Type();
    if Ignored(kind) then Part(s, [], SUCCESS, false)
    else if kind == PUBLISH then OnPublish(s, i)
    else if kind == PUBREC || kind == PUBREL then OnRelease(s, kind, i)
    else if kind == PINGRESP then Part(s.(alive := s.alive.(ping := false)), [], SUCCESS, false)
    else Part(s, [], kind, true)
  }

  /** `keepalive`: the state of the timers, what is sent, and whether it succeeded. */
  function KeepAlive(a: Alive, i: Input): (Alive, seq<Event>, bool) {
    if a.interval == 0 then (a, [], true)
    else if a.ping then (a, [], i.pingLook < a.pingSent)
    else if i.sentLook < a.lastSent && i.receivedLook < a.lastReceived then (a, [], true)
    else
      var a' := Send(a, Ping, i.pingW, i.pingAt);
      if i.pingW < 2 then (a', [SendEvent(Ping, i.pingW)], false)
      else (a'.(ping := true, pingSent := i.pingAt + Seconds(a.interval)), [SendEvent(Ping, i.pingW)], true)
  }

  function WithKeepAlive(p: Part, i: Input): Part {
    if p.stop then p
    else
      var (a, es, ok) := KeepAlive(p.s.alive, i);
      Part(p.s.(alive := a), p.es + es, if ok then p.rc else FAILURE, true)
  }

  /** `cleanSession`; a handler slot keeps its callback. */
  function CleanSession(s: State): State {
    s.(slots := Clean(s.slots), inflight := s.inflight.(id := 0, qos := 0), table := Zero(s.table))
  }

  function Zero(t: seq<ushort>): (r: seq<ushort>)
    ensures |r| == |t| && forall i :: 0 <= i < |r| ==> r[i] == 0
  {
    if t == [] then [] else Zero(t[1..]) + [0]
  }

  function CloseSession(s: State): State {
    var s' := s.(alive := s.alive.(ping := false), connected := false);
    if s.clean then CleanSession(s') else s'
  }

  /** The end of a cycle: its return code, and the session closed after a failure. */
  function Finish(p: Part, kind: int): Part {
    if p.rc == SUCCESS then p.(s := p.s.(last := kind), rc := kind)
    else if p.s.connected then
      p.(s := CloseSession(p.s).(last := p.rc), es := p.es + [Closed(p.s.clean)])
    else p.(s := p.s.(last := p.rc))
  }

  function ReadEvents(i: Input): seq<Event> {
    if i.out.Packet? then [Received(i.out.kind, i.buf)] else []
  }

  /** A cycle up to its keepalive check. */
  function Handled(s: State, i: Input): Part {
    var p := OnPacket(Read(s, i), i);
    p.(es := ReadEvents(i) + p.es)
  }

  function Cycle(s: State, i: Input): Part {
    Finish(WithKeepAlive(Handled(s, i), i), i.Type())
  }

  // ---- all steps ----

  datatype Op =
    | Cycling(input: Input)
    | SetOptions(interval: nat, clean: bool)
    | Sending(packet: seq<byte>, w: nat, at: int)
    | Resending(w: nat, at: int)
    | StartReceived(at: int)
    | TakeId
    | Keep(p: Publish)
    | TakeAck(garbage: ushort)
    | Close
    | Open
    | SetDefault(h: Option<Handler>)
    | Handle(filter: seq<byte>, h: Option<Handler>)

  /** `memcpy` into `pubbuf`, and the three fields beside it. */
  function Stored(f: Inflight, p: Publish): Inflight {
    if |p.Encoding()| <= |f.pubbuf| then
      Inflight(p.id, |p.Encoding()|, p.qos, p.Encoding() + f.pubbuf[|p.Encoding()|..])
    else f
  }

  /** After the awaited acknowledgement: the slot is emptied when the id is its id. */
  function Acked(s: State, garbage: ushort): State {
    var (rc, out) := DecodeAck(s.readbuf, AckOut(0, 0, garbage));
    if rc == 1 && s.inflight.id == out.id then s.(inflight := s.inflight.(id := 0)) else s
  }

  function Next(s: State, op: Op): State {
    match op
    case Cycling(i) => Cycle(s, i).s
    case SetOptions(interval, clean) => s.(alive := s.alive.(interval := interval), clean := clean)
    case Sending(packet, w, at) => s.(alive := Send(s.alive, Other(packet), w, at))
    case Resending(w, at) => s.(alive := Send(s.alive, Other(Kept(s.inflight)), w, at))
    case StartReceived(at) => s.(alive := Heard(s.alive, at))
    case TakeId => s.(nextId := QoS2Ids.NextId(s.nextId))
    case Keep(p) => s.(inflight := Stored(s.inflight, p))
    case TakeAck(garbage) => Acked(s, garbage)
    case Close => CloseSession(s)
    case Open => s.(alive := s.alive.(ping := false), connected := true)
    case SetDefault(h) => s.(default := h)
    case Handle(f, h) => s.(slots := SetHandler(s.slots, f, h).1)
  }

  /** The bytes `connect` hands to `sendPacket` when the slot is full. */
  function Kept(f: Inflight): seq<byte> {
    Slice(f.pubbuf, 0, f.len)
  }

  function Events(s: State, op: Op): seq<Event> {
    match op
    case Cycling(i) => Cycle(s, i).es
    case Sending(packet, w, _) => [SendEvent(Other(packet), w)]
    case Resending(w, _) => [SendEvent(Other(Kept(s.inflight)), w)]
    case Close => [Closed(s.clean)]
    case Open => [Opened]
    case _ => []
  }

  /** When the code can make a step. */
  predicate Enabled(s: State, op: Op) {
    match op
    case Cycling(i) =>
      && |i.buf| == |s.readbuf| && i.ackW <= 4 && i.pingW <= 2
      && (i.out.Packet? ==> i.out.kind == Kind(Peek(i.buf, 0)))
      && (i.out.NoHeader? ==> i.out.rc <= 0)
    case Sending(packet, w, _) => w <= |packet|
    case SetOptions(_, _) => !s.connected
    case Keep(p) => !s.clean && p.Legal() && p.qos <= 2 && |p.Encoding()| <= |s.inflight.pubbuf|
    case Resending(w, _) => s.inflight.id > 0 && w <= s.inflight.len
    case TakeAck(_) =>
      && (s.last == PUBACK || s.last == PUBCOMP)
      && (!s.clean ==> s.last == if s.inflight.qos == 1 then PUBACK else PUBCOMP)
    case _ => true
  }

  /** The state and the events after a history of steps; `None` when some step is not possible. */
  function Run(s: State, ops: seq<Op>): Option<(State, seq<Event>)> {
    if ops == [] then Some((s, []))
    else
      match Run(s, ops[..|ops| - 1])
      case None => None
      case Some((before, es)) =>
        var op := ops[|ops| - 1];
        if Enabled(before, op) then Some((Next(before, op), es + Events(before, op))) else None
  }

  /** The state of a client that was just constructed. */
  ghost predicate Initial(s: State) {
    && (forall i :: 0 <= i < |s.table| ==> s.table[i] == 0)
    && (forall i :: 0 <= i < |s.slots| ==> s.slots[i].filter.None?)
    && s.inflight.id == 0 && !s.alive.ping && !s.connected && s.clean && s.nextId == 0 && s.last == 0
  }

  lemma RunExtends(s: State, ops: seq<Op>, op: Op)
    requires Run(s, ops).Some? && Enabled(Run(s, ops).value.0, op)
    ensures var (s', es) := Run(s, ops).value;
      Run(s, ops + [op]) == Some((Next(s', op), es + Events(s', op)))
  {
  }

  /** What is left of a source, and of the read buffer, when the cycles of a history have read from it one
      after the other; `None` when some cycle read something else. */
  function Drawn(src: Source, buf: seq<byte>, ops: seq<Op>): Option<(Source, seq<byte>)> {
    if ops == [] then Some((src, buf))
    else
      match Drawn(src, buf, ops[..|ops| - 1])
      case None => None
      case Some((s, b)) => DrawOne(s, b, ops[|ops| - 1])
  }

  function DrawOne(s: Source, b: seq<byte>, op: Op): Option<(Source, seq<byte>)> {
    if !op.Cycling? then Some((s, b))
    else if |b| < 5 then None
    else
      var (out, b', s') := ReadOutcome(s, b);
      if out == op.input.out && b' == op.input.buf then Some((s', b')) else None
  }

  lemma DrawnExtends(src0: Source, b: seq<byte>, ops: seq<Op>, op: Op)
    requires Drawn(src0, b, ops).Some?
    ensures var (src, b') := Drawn(src0, b, ops).value; Drawn(src0, b, ops + [op]) == DrawOne(src, b', op)
  {
    assert (ops + [op])[..|ops|] == ops;
  }

  /** The return codes of the cycles of a history, in order. */
  function Codes(s: State, ops: seq<Op>): seq<int> {
    if ops == [] then []
    else
      var n := |ops| - 1;
      Codes(s, ops[..n]) + if ops[n].Cycling? && Run(s, ops).Some? then [Run(s, ops).value.0.last] else []
  }

  lemma CodesExtend(s: State, ops: seq<Op>, op: Op)
    requires op.Cycling? && Run(s, ops + [op]).Some?
    ensures Codes(s, ops + [op]) == Codes(s, ops) + [Run(s, ops + [op]).value.0.last]
  {
    assert (ops + [op])[..|ops|] == ops;
  }
}
