/** The client of MQTTClient.c: what its calls send, deliver and return, and the contract between return codes and
    the session: whatever the network and the clock do, a FAILURE leaves no connected session. */
module CClient {
  import opened Bytes
  import opened FixedHeader
  import opened RemainingLength
  import opened PublishCodec
  import opened MessageHandlers
  import opened Transport
  import opened PacketReader
  import SubscribeCodec
  import UnsubscribeCodec
  import ConnectCodec
  import QoS2Ids
  import Effects
  import PacketBoundaries
  import Session

  const BUFFER_OVERFLOW := -2

  /** What `readPacket` makes of the end of a read: a body that comes up short is no packet at all. */
  function TypeOf(out: Outcome): int {
    match out
    case NoHeader(rc) => rc
    case TooLong => BUFFER_OVERFLOW
    case ShortBody => 0
    case Packet(kind) => kind
  }

  /** What the counts of `sendPacket`'s writes add up to, from `sent` on: one look at the timer before each write of
      `length` bytes. */
  function Count(e: Env, length: nat, sent: nat, deadline: int): (nat, Env)
    decreases |e.time.ticks|
  {
    if sent >= length then (sent, e)
    else
      var (late, t) := Look(e.time, deadline);
      var e' := Env(NextAnswers(e.grants), t);
      var rc := WriteAnswer(e.grants, length);
      if late then (sent, e.(time := t))
      else if rc < 0 then (sent, e')
      else Count(e', length, sent + rc, deadline)
  }

  /** A packet with a body of this length fits into the buffer, and `sendPacket` gets it out. */
  predicate GoesOut(length: nat, room: nat, e: Env, deadline: int) {
    PacketLen(length) <= room && Count(e, FrameSize(length), 0, deadline).0 == FrameSize(length)
  }

  /** One write that takes everything, in time, is enough. */
  lemma OneWriteSends(e: Env, length: nat, deadline: int)
    requires length > 0 && e.grants != [] && e.grants[0] >= length && !Look(e.time, deadline).0
    ensures Count(e, length, 0, deadline).0 == length
  {
  }

  /** But not a first write that takes a part, and a second one that takes everything it is asked to: the counts then
      add up to more than the length, and the send fails. */
  lemma SecondWriteOvershoots(e: Env, length: nat, k: nat, deadline: int)
    requires 0 < k < length && |e.grants| >= 2 && e.grants[0] == k && e.grants[1] >= length
    requires Early(e.time, 2, deadline)
    ensures Count(e, length, 0, deadline).0 == k + length
  {
    var t := Look(e.time, deadline).1;
    assert !Look(t, deadline).0;
    SecondCount(Env(e.grants[1..], t), length, k, deadline);
  }

  lemma SecondCount(e: Env, length: nat, k: nat, deadline: int)
    requires k < length && e.grants != [] && e.grants[0] >= length && !Look(e.time, deadline).0
    ensures Count(e, length, k, deadline).0 == k + length
  {
  }

  /** The looks of `keepalive` at its two timers: whether one has run out, and what is there afterwards. */
  function Due(e: Env, interval: nat, lastSent: int, lastReceived: int): (bool, Env) {
    if interval == 0 then (false, e)
    else
      var (due, t) := Look(e.time, lastSent);
      if due then (true, e.(time := t))
      else
        var (due', t') := Look(t, lastReceived);
        (due', e.(time := t'))
  }

  lemma DueLater(e: Env, lastSent: int, lastReceived: int)
    ensures Look(e.time, lastSent).1.now >= e.time.now
    ensures Look(Look(e.time, lastSent).1, lastReceived).1.now >= e.time.now
  {
  }

  predicate PingCounts(e: Env) {
    Count(e, 2, 0, e.time.now + 1000).0 == 2
  }

  /** The four bytes that answer a message, none for QoS 0. */
  function Acknowledgement(m: PublishOut): seq<byte> {
    if m.qos == 1 then Effects.AnswerBytes(64, m.id) else if m.qos == 2 then Effects.AnswerBytes(80, m.id) else []
  }

  /** What a packet has led to: a PUBLISH that reads well was handed to every handler for it, and nothing else to
      anyone; and when all is well (`ok`) it has been answered as it has to be.  `unset` is what the variables that the
      packet is read into held. */
  predicate Shown(kind: int, ok: bool, b: seq<byte>, slots: seq<Slot>, default: Option<Handler>, unset: PublishOut,
                  wire: seq<byte>, wire': seq<byte>, calls: seq<Session.HandlerCall>,
                  calls': seq<Session.HandlerCall>) {
    var (code, m) := DecodePublish(b, unset);
    var (rel, ack) := DecodeAck(b, AckOut(0, 0, unset.id));
    && calls <= calls'
    && (if kind == PUBLISH && code == 1 then Effects.CallsAll(calls'[|calls|..], Deliver(slots, default, m.topic), m)
        else calls' == calls)
    && (ok && kind == PUBLISH && code == 1 ==> m.qos <= 2 && wire + Acknowledgement(m) <= wire')
    && (ok && (kind == PUBREC || kind == PUBREL) ==>
      rel == 1 && wire + Effects.AnswerBytes(if kind == PUBREC then 98 else 112, ack.id) <= wire')
  }

  lemma ShownOn(kind: int, ok: bool, b: seq<byte>, slots: seq<Slot>, default: Option<Handler>, unset: PublishOut,
                wire: seq<byte>, wire': seq<byte>, wire'': seq<byte>, calls: seq<Session.HandlerCall>,
                calls': seq<Session.HandlerCall>, ok': bool)
    requires Shown(kind, ok, b, slots, default, unset, wire, wire', calls, calls')
    requires wire' <= wire'' && (ok' ==> ok)
    ensures Shown(kind, ok', b, slots, default, unset, wire, wire'', calls, calls')
  {
  }

  /** What handling a packet leads to: the end of the cycle with a code, or the keepalive check with what is then
      outside and when the send timer then runs out. */
  datatype Reaction = Ends(rc: int) | Goes(e: Env, lastSent: int)

  /** The reaction to the packet in `b`. */
  function Reacts(kind: int, b: seq<byte>, unset: PublishOut, room: nat, e: Env, lastSent: int, interval: nat,
                  deadline: int): Reaction {
    if !Expected(kind) then Ends(kind)
    else if kind == PUBLISH then
      var (code, m) := DecodePublish(b, unset);
      if code != 1 then Ends(SUCCESS)
      else if m.qos == 0 then Goes(e, lastSent)
      else if m.qos > 2 then Ends(FAILURE)
      else Answers(room, e, interval, deadline)
    else if kind == PUBREC || kind == PUBREL then
      if DecodeAck(b, AckOut(0, 0, unset.id)).0 != 1 then Ends(FAILURE) else Answers(room, e, interval, deadline)
    else Goes(e, lastSent)
  }

  /** An answer that does not go out whole ends the cycle. */
  function Answers(room: nat, e: Env, interval: nat, deadline: int): Reaction {
    var (sent, e') := Count(e, 4, 0, deadline);
    if room < 4 || sent != 4 then Ends(FAILURE) else Goes(e', e'.time.now + 1000 * interval)
  }

  /** The keepalive check fails. */
  predicate Lost(e: Env, interval: nat, lastSent: int, lastReceived: int, waiting: bool, room: nat) {
    var (due, e') := Due(e, interval, lastSent, lastReceived);
    due && (waiting || (room >= 2 && !PingCounts(e')))
  }

  /** The return code of a cycle. */
  function Returns(kind: int, x: Reaction, interval: nat, lastReceived: int, waiting: bool, room: nat): int {
    match x
    case Ends(rc) => if rc == SUCCESS then kind else rc
    case Goes(e, lastSent) => if Lost(e, interval, lastSent, lastReceived, waiting, room) then FAILURE else kind
  }

  /** A packet that nothing is done about but for the keepalive. */
  predicate Quiet(kind: int) {
    Expected(kind) && kind !in [PUBLISH, PUBREC, PUBREL]
  }

  /** The keepalive check after such a packet. */
  predicate Alive(kind: int, rc: int, e: Env, interval: nat, lastSent: int, lastReceived: int, ping: bool, room: nat,
                  wire: seq<byte>, wire': seq<byte>) {
    var (due, e') := Due(e, interval, lastSent, lastReceived);
    var waiting := ping && kind != PINGRESP;
    && rc == (if due && (waiting || (room >= 2 && !PingCounts(e'))) then FAILURE else kind)
    && (due && !waiting && room >= 2 && PingCounts(e') ==> wire' == wire + [192, 0])
    && (!due || waiting || room < 2 ==> wire' == wire)
  }

  lemma NoHeaderCode(s: Source, b: seq<byte>)
    requires |b| >= 5
    ensures var out := ReadOutcome(s, b).0; out.NoHeader? ==> out.rc <= 0
  {
  }

  class Client {
    const net: Network
    const clock: Clock
    const commandTimeout: nat
    const buf: array<byte>
    const readbuf: array<byte>
    const slots: array<Slot>
    var default: Option<Handler>
    var keepAliveInterval: nat
    var pingOutstanding: bool
    var cleansession: bool
    var isconnected: bool
    var lastSent: int
    var lastReceived: int
    var nextPacketId: ushort
    var calls: seq<Session.HandlerCall>
    /** The return codes of the cycles so far. */
    ghost var codes: seq<int>

    constructor (net: Network, clock: Clock, commandTimeout: nat, buf: array<byte>, readbuf: array<byte>,
        handlers: nat)
      requires buf != readbuf && readbuf.Length >= 5
      ensures this.net == net && this.clock == clock && this.buf == buf && this.readbuf == readbuf
      ensures Shape() && !isconnected && codes == [] && calls == [] && fresh(slots)
    {
      this.net, this.clock, this.commandTimeout, this.buf, this.readbuf := net, clock, commandTimeout, buf, readbuf;
      slots := new Slot[handlers](_ => Slot(None, None));
      default, keepAliveInterval, pingOutstanding, cleansession, isconnected := None, 0, false, false, false;
      lastSent, lastReceived, nextPacketId, calls, codes := 0, 0, 1, [], [];
    }

    predicate Shape() {
      buf != readbuf && readbuf.Length >= 5
    }

    method NextPacketId() returns (id: ushort)
      modifies this`nextPacketId
      ensures id == nextPacketId == QoS2Ids.NextId(old(nextPacketId))
    {
      nextPacketId := QoS2Ids.NextId(nextPacketId);
      id := nextPacketId;
    }

    /** The answers to the writes to come, and the clock. */
    function Outside(): Env
      reads net`writeGrants, clock
    {
      Env(net.writeGrants, clock.Value())
    }

    /** `sendPacket`: SUCCESS exactly when the counts of its writes add up to the length.  Every write asks for the
        whole length again, and what it is given beyond the packet are the bytes that come next. */
    method SendPacket(length: nat, deadline: int) returns (rc: int)
      modifies net`wire, net`writeGrants, clock, this`lastSent
      ensures var (sent, e) := Count(old(Outside()), length, 0, deadline);
        && rc == (if sent == length then SUCCESS else FAILURE) && Outside() == e
        && net.wire == old(net.wire) + Slice(buf[..], 0, sent)
      ensures lastSent == if rc == SUCCESS then clock.now + 1000 * keepAliveInterval else old(lastSent)
      ensures |clock.ticks| <= old(|clock.ticks|) && clock.now >= old(clock.now)
    {
      var sent, more := 0, true;
      ghost var all := Count(Outside(), length, 0, deadline);
      while more && sent < length
        invariant if more then Count(Outside(), length, sent, deadline) == all else (sent, Outside()) == all
        invariant net.wire == old(net.wire) + Slice(buf[..], 0, sent)
        invariant |clock.ticks| <= old(|clock.ticks|) && clock.now >= old(clock.now) && lastSent == old(lastSent)
        decreases |clock.ticks| + if more then 1 else 0
      {
        var late := clock.Expired(deadline);
        more := !late;
        if more {
          var count := WriteAnswer(net.writeGrants, length);
          net.writeGrants := NextAnswers(net.writeGrants);
          if count < 0 {
            more := false;
          } else {
            SliceJoin(buf[..], sent, count);
            Joined(old(net.wire), Slice(buf[..], 0, sent), Slice(buf[..], sent, count));
            net.wire := net.wire + Slice(buf[..], sent, count);
            sent := sent + count;
          }
        }
      }
      if sent == length {
        lastSent := clock.now + Seconds(keepAliveInterval);
        rc := SUCCESS;
      } else {
        rc := FAILURE;
      }
    }

    /** A packet that stands at the front of the buffer goes out whole on SUCCESS. */
    method SendWhole(length: nat, deadline: int, ghost packet: seq<byte>) returns (rc: int)
      requires length <= buf.Length && buf[..length] == packet
      modifies net`wire, net`writeGrants, clock, this`lastSent
      ensures rc == SUCCESS ==> net.wire == old(net.wire) + packet
      ensures old(net.wire) <= net.wire
      ensures var (sent, e) := Count(old(Outside()), length, 0, deadline);
        rc == (if sent == length then SUCCESS else FAILURE) && Outside() == e
      ensures lastSent == if rc == SUCCESS then clock.now + 1000 * keepAliveInterval else old(lastSent)
      ensures |clock.ticks| <= old(|clock.ticks|) && clock.now >= old(clock.now)
    {
      rc := SendPacket(length, deadline);
      assert Slice(buf[..], 0, length) == buf[..length];
    }

    /** An acknowledgement, in its four bytes. */
    method Reply(kind: nat, id: ushort, deadline: int) returns (rc: int)
      requires PUBACK <= kind <= PUBCOMP
      modifies buf, net`wire, net`writeGrants, clock, this`lastSent
      ensures rc == SUCCESS ==>
        net.wire == old(net.wire) + Effects.AnswerBytes(16 * kind + (if kind == PUBREL then 2 else 0), id)
      ensures old(net.wire) <= net.wire
      ensures var (sent, e) := Count(old(Outside()), 4, 0, deadline);
        && rc == (if buf.Length >= 4 && sent == 4 then SUCCESS else FAILURE)
        && Outside() == (if buf.Length >= 4 then e else old(Outside()))
      ensures lastSent == if rc == SUCCESS then clock.now + 1000 * keepAliveInterval else old(lastSent)
      ensures |clock.ticks| <= old(|clock.ticks|) && clock.now >= old(clock.now)
    {
      Effects.AckBytes(kind, id);
      var len := SerializeAck(buf, buf.Length, kind, 0, id);
      if len <= 0 { return FAILURE; }
      rc := SendWhole(len, deadline, EncodeAck(kind, 0, id));
    }

    /** `readPacket`. */
    method ReadPacket() returns (kind: int)
      requires Shape()
      modifies net`data, net`grants, readbuf, this`lastReceived
      ensures var (out, b, s) := ReadOutcome(old(net.Incoming()), old(readbuf[..]));
        && kind == TypeOf(out) && readbuf[..] == b && net.Incoming() == s
        && lastReceived == (if out.Packet? && keepAliveInterval > 0 then clock.now + 1000 * keepAliveInterval
                            else old(lastReceived))
      ensures kind > 0 ==> kind == Kind(Peek(readbuf[..], 0))
    {
      PacketBoundaries.ReadShape(net.Incoming(), readbuf[..]);
      NoHeaderCode(net.Incoming(), readbuf[..]);
      var out := ReadBlocking(net, readbuf);
      match out
      case NoHeader(rc) => kind := rc;
      case TooLong => kind := BUFFER_OVERFLOW;
      case ShortBody => kind := 0;
      case Packet(k) =>
        kind := k;
        if keepAliveInterval > 0 { lastReceived := clock.now + Seconds(keepAliveInterval); }
    }

    /** No session, no ping, and no filter left of a clean session. */
    predicate Closed()
      reads this, slots
    {
      && !isconnected && !pingOutstanding
      && (cleansession ==> forall k :: 0 <= k < slots.Length ==> slots[k].filter == None)
    }

    method CloseSession()
      modifies this`pingOutstanding, this`isconnected, slots
      ensures Closed()
      ensures slots[..] == if cleansession then Clean(old(slots[..])) else old(slots[..])
    {
      pingOutstanding := false;
      isconnected := false;
      if cleansession { ClearFilters(slots); }
    }

    /** `keepalive`: it fails exactly when one of its two timers has run out and a PINGREQ is unanswered or does not get
        out in a second; and a PINGREQ that gets out is outstanding. */
    method KeepAlive() returns (rc: int)
      requires Shape()
      modifies buf, net`wire, net`writeGrants, clock, this`lastSent, this`pingOutstanding
      ensures clock.now >= old(clock.now) && |clock.ticks| <= old(|clock.ticks|)
      ensures rc == SUCCESS || rc == FAILURE
      ensures var (due, e) := Due(old(Outside()), keepAliveInterval, old(lastSent), old(lastReceived));
        var sent := buf.Length < 2 || PingCounts(e);
        && (rc == FAILURE <==> due && (old(pingOutstanding) || !sent))
        && (pingOutstanding <==> old(pingOutstanding) || (due && sent && buf.Length >= 2))
        && (due && !old(pingOutstanding) && buf.Length >= 2 && sent ==> net.wire == old(net.wire) + [192, 0])
        && (!due || old(pingOutstanding) || buf.Length < 2 ==> net.wire == old(net.wire))
      ensures old(net.wire) <= net.wire
    {
      rc := SUCCESS;
      if keepAliveInterval == 0 { return; }
      DueLater(Outside(), lastSent, lastReceived);
      var due := clock.Expired(lastSent);
      if !due { due := clock.Expired(lastReceived); }
      if due {
        if pingOutstanding {
          rc := FAILURE;
        } else if buf.Length >= 2 {
          rc := SendPing();
          if rc == SUCCESS { pingOutstanding := true; }
        }
      }
    }

    method SendPing() returns (rc: int)
      requires buf.Length >= 2
      modifies buf, net`wire, net`writeGrants, clock, this`lastSent
      ensures rc == if PingCounts(old(Outside())) then SUCCESS else FAILURE
      ensures rc == SUCCESS ==> net.wire == old(net.wire) + [192, 0]
      ensures old(net.wire) <= net.wire && clock.now >= old(clock.now) && |clock.ticks| <= old(|clock.ticks|)
    {
      HeaderByte(PINGREQ, 0, 0, 0);
      var len := WriteHeader(buf, Header(PINGREQ, 0, 0, 0), 0);
      rc := SendWhole(len, clock.now + 1000, [192, 0]);
    }

    /** Handling a packet has come to this. */
    ghost predicate Reacted(x: Reaction, rc: int, stop: bool)
      reads this`lastSent, net`writeGrants, clock
    {
      match x
      case Ends(code) => stop && rc == code
      case Goes(e, sent) => !stop && rc == SUCCESS && Outside() == e && lastSent == sent
    }

    /** `deliverMessage`. */
    method HandOn(m: PublishOut)
      modifies this`calls
      ensures old(calls) <= calls
      ensures Effects.CallsAll(calls[|old(calls)|..], Deliver(slots[..], default, m.topic), m)
    {
      var delivered, hs := DeliverMessage(slots, default, m.topic);
      calls := calls + Session.CallEach(hs, m);
      Effects.CallEachIs(hs, m);
    }

    /** The answer to a message that asks for one. */
    method Acknowledge(m: PublishOut, deadline: int) returns (rc: int)
      requires Shape() && m.qos != 0
      modifies buf, net`wire, net`writeGrants, clock, this`lastSent
      ensures rc == SUCCESS || rc == FAILURE
      ensures |clock.ticks| <= old(|clock.ticks|) && old(net.wire) <= net.wire
      ensures rc == SUCCESS ==> m.qos <= 2 && net.wire == old(net.wire) + Acknowledgement(m)
      ensures Reacted(if m.qos > 2 then Ends(FAILURE)
                      else Answers(buf.Length, old(Outside()), keepAliveInterval, deadline), rc, rc == FAILURE)
    {
      rc := FAILURE;
      if m.qos == 1 { rc := Reply(PUBACK, m.id, deadline); }
      else if m.qos == 2 { rc := Reply(PUBREC, m.id, deadline); }
    }

    /** The PUBLISH branch of `cycle`: the handlers are called, and then the message is answered. */
    method OnPublish(deadline: int) returns (rc: int, stop: bool, ghost garbage: PublishOut)
      requires Shape()
      modifies buf, net`wire, net`writeGrants, clock, this`lastSent, this`calls
      ensures rc == SUCCESS || (rc == FAILURE && stop)
      ensures |clock.ticks| <= old(|clock.ticks|) && old(net.wire) <= net.wire && old(calls) <= calls
      ensures var (code, m) := DecodePublish(readbuf[..], garbage);
        && (code != 1 ==> rc == SUCCESS && stop && net.wire == old(net.wire) && calls == old(calls))
        && (code == 1 ==> Effects.CallsAll(calls[|old(calls)|..], Deliver(slots[..], default, m.topic), m))
        && (code == 1 ==> stop == (rc == FAILURE))
        && (code == 1 && rc == SUCCESS ==> m.qos <= 2 && net.wire == old(net.wire) + Acknowledgement(m))
      ensures Reacted(Reacts(PUBLISH, readbuf[..], garbage, buf.Length, old(Outside()), old(lastSent),
                             keepAliveInterval, deadline), rc, stop)
    {
      hide Count, DecodePublish, Deliver, Effects.CallsAll, Answers;
      rc, stop := SUCCESS, false;
      var unset: PublishOut := *;
      garbage := unset.(payloadLen := 0);
      var code, m := DeserializePublish(readbuf, unset.(payloadLen := 0));
      if code != 1 { return SUCCESS, true, garbage; }
      HandOn(m);
      if m.qos != 0 {
        rc := Acknowledge(m, deadline);
        stop := rc == FAILURE;
      }
    }

    method OnRelease(kind: int, deadline: int) returns (rc: int, ghost garbage: ushort)
      requires Shape() && (kind == PUBREC || kind == PUBREL)
      modifies buf, net`wire, net`writeGrants, clock, this`lastSent
      ensures rc == SUCCESS || rc == FAILURE
      ensures |clock.ticks| <= old(|clock.ticks|) && old(net.wire) <= net.wire
      ensures var (code, ack) := DecodeAck(readbuf[..], AckOut(0, 0, garbage));
        && (code != 1 ==> rc == FAILURE && net.wire == old(net.wire))
        && (rc == SUCCESS ==>
          net.wire == old(net.wire) + Effects.AnswerBytes(if kind == PUBREC then 98 else 112, ack.id))
      ensures forall unset: PublishOut :: unset.id == garbage ==>
        Reacted(Reacts(kind, readbuf[..], unset, buf.Length, old(Outside()), old(lastSent), keepAliveInterval,
                       deadline), rc, rc == FAILURE)
    {
      var unset: ushort := *;
      garbage := unset;
      var code, ack := DeserializeAck(readbuf, AckOut(0, 0, unset));
      if code != 1 { return FAILURE, garbage; }
      rc := Reply(if kind == PUBREC then PUBREL else PUBCOMP, ack.id, deadline);
    }

    /** The switch of `cycle`: its code, and whether the rest is skipped. */
    method OnPacket(kind: int, deadline: int) returns (rc: int, stop: bool, ghost unset: PublishOut)
      requires Shape()
      modifies buf, net`wire, net`writeGrants, clock, this`lastSent, this`pingOutstanding, this`calls
      ensures if Expected(kind) then rc == SUCCESS || rc == FAILURE else rc == kind && stop
      ensures rc == FAILURE ==> stop
      ensures Expected(kind) && kind !in [PUBLISH, PUBREC, PUBREL] ==>
        rc == SUCCESS && !stop && net.wire == old(net.wire) && Outside() == old(Outside()) && lastSent == old(lastSent)
      ensures pingOutstanding == (old(pingOutstanding) && kind != PINGRESP)
      ensures |clock.ticks| <= old(|clock.ticks|) && old(net.wire) <= net.wire && old(calls) <= calls
      ensures Shown(kind, rc == SUCCESS, readbuf[..], slots[..], default, unset, old(net.wire), net.wire,
                    old(calls), calls)
      ensures Reacted(Reacts(kind, readbuf[..], unset, buf.Length, old(Outside()), old(lastSent), keepAliveInterval,
                             deadline), rc, stop)
    {
      rc, stop := SUCCESS, false;
      var none: PublishOut := *;
      unset := none;
      if kind == PUBLISH {
        rc, stop, unset := OnPublish(deadline);
      } else if kind == PUBREC || kind == PUBREL {
        ghost var id;
        rc, id := OnRelease(kind, deadline);
        unset := none.(id := id);
        stop := rc == FAILURE;
      } else if kind == PINGRESP {
        pingOutstanding := false;
      } else if !Expected(kind) {
        rc, stop := kind, true;
      }
    }

    /** A cycle up to its end. */
    method ReadAndHandle(deadline: int) returns (kind: int, rc: int, ghost unset: PublishOut)
      requires Shape()
      modifies buf, readbuf, net, clock, this`lastReceived, this`lastSent, this`pingOutstanding, this`calls
      ensures if Expected(kind) then rc == SUCCESS || rc == FAILURE else rc == kind
      ensures var (out, b, s) := ReadOutcome(old(net.Incoming()), old(readbuf[..]));
        && kind == TypeOf(out) && readbuf[..] == b && net.Incoming() == s
        && (kind > 0 ==> kind == Kind(Peek(readbuf[..], 0)))
        && Shown(kind, rc == SUCCESS, b, slots[..], default, unset, old(net.wire), net.wire, old(calls), calls)
      ensures (if rc == SUCCESS then kind else rc) ==
        Returns(kind, Reacts(kind, readbuf[..], unset, buf.Length, old(Outside()), old(lastSent), keepAliveInterval,
                             deadline),
                keepAliveInterval, lastReceived, old(pingOutstanding) && kind != PINGRESP, buf.Length)
      ensures Quiet(kind) ==> Alive(kind, if rc == SUCCESS then kind else rc, old(Outside()), keepAliveInterval,
                                    old(lastSent), lastReceived, old(pingOutstanding), buf.Length,
                                    old(net.wire), net.wire)
      ensures |clock.ticks| <= old(|clock.ticks|) && old(net.wire) <= net.wire
    {
      hide ReadOutcome, Shown, PingCounts, Due, Reacts, Count;
      kind := ReadPacket();
      var stop;
      rc, stop, unset := OnPacket(kind, deadline);
      if !stop {
        ghost var wire := net.wire;
        var alive := KeepAlive();
        ShownOn(kind, rc == SUCCESS, readbuf[..], slots[..], default, unset, old(net.wire), wire, net.wire,
                old(calls), calls, rc == SUCCESS && alive == SUCCESS);
        if alive != SUCCESS { rc := FAILURE; }
      }
    }

    /** `cycle`: after it a session is up exactly when it was before and the code is that of an expected
        packet, or of none.  The code is that of what was read unless handling it or the keepalive failed. */
    method Cycle(deadline: int) returns (rc: int, ghost unset: PublishOut)
      requires Shape()
      modifies this, buf, readbuf, slots, net, clock
      ensures isconnected <==> old(isconnected) && Expected(rc)
      ensures codes == old(codes) + [rc] && |clock.ticks| <= old(|clock.ticks|)
      ensures Kept(old(keepAliveInterval), old(cleansession), old(nextPacketId), old(default))
      ensures var (out, b, s) := ReadOutcome(old(net.Incoming()), old(readbuf[..]));
        var kind := TypeOf(out);
        && readbuf[..] == b && net.Incoming() == s
        && (rc == kind || rc == FAILURE)
        && (!Expected(kind) ==> rc == kind)
        && (rc > 0 && Expected(rc) ==> rc == Kind(Peek(readbuf[..], 0)))
        && rc == Returns(kind, Reacts(kind, b, unset, buf.Length, old(Outside()), old(lastSent), keepAliveInterval,
                                      deadline),
                         keepAliveInterval, lastReceived, old(pingOutstanding) && kind != PINGRESP, buf.Length)
        && Shown(kind, Expected(rc), b, old(slots[..]), old(default), unset, old(net.wire), net.wire,
                 old(calls), calls)
        && (Quiet(kind) ==> Alive(kind, rc, old(Outside()), keepAliveInterval, old(lastSent), lastReceived,
                                  old(pingOutstanding), buf.Length, old(net.wire), net.wire))
      ensures old(net.wire) <= net.wire
      ensures isconnected || !old(isconnected) || !cleansession ==> slots[..] == old(slots[..])
      ensures old(isconnected) && !isconnected ==> Closed()
    {
      hide ReadOutcome, Shown, Alive, Reacts, Returns;
      var kind;
      kind, rc, unset := ReadAndHandle(deadline);
      if rc == SUCCESS {
        rc := kind;
      } else if isconnected {
        CloseSession();
      }
      codes := codes + [rc];
    }

    /** What no cycle changes. */
    predicate Kept(interval: nat, clean: bool, nextId: ushort, handler: Option<Handler>)
      reads this
    {
      keepAliveInterval == interval && cleansession == clean && nextPacketId == nextId && default == handler
    }

    /** What cycles leave: the wire has only grown, and the handlers are as they were unless a session has ended. */
    ghost predicate Steady(wire: seq<byte>, handlers: seq<Slot>, connected: bool, interval: nat, clean: bool,
                           nextId: ushort, handler: Option<Handler>)
      reads this, net`wire, slots
    {
      && wire <= net.wire && Kept(interval, clean, nextId, handler)
      && (isconnected || !connected || !clean ==> slots[..] == handlers)
    }

    /** `waitfor`: cycles until one returns the packet type, a failure or the timer's end, and no further. */
    method Waitfor(kind: int, deadline: int) returns (rc: int)
      requires Shape()
      modifies this, buf, readbuf, slots, net, clock
      ensures Since(old(codes), old(isconnected))
      ensures Steady(old(net.wire), old(slots[..]), old(isconnected), old(keepAliveInterval), old(cleansession),
                     old(nextPacketId), old(default))
      ensures rc == if |codes| == |old(codes)| then FAILURE else codes[|codes| - 1]
      ensures rc > 0 && Expected(rc) ==> rc == Kind(Peek(readbuf[..], 0))
      ensures forall k :: |old(codes)| <= k < |codes| - 1 ==> codes[k] != kind && codes[k] >= 0
      ensures rc == kind || rc < 0 || clock.now >= deadline
      ensures |codes| == |old(codes)| ==> clock.now >= deadline && lastReceived == old(lastReceived)
      ensures !Look(old(clock.Value()), deadline).0 ==> |codes| > |old(codes)|
      ensures |clock.ticks| <= old(|clock.ticks|)
    {
      hide ReadOutcome, Shown, Alive, TypeOf, Reacts, Returns;
      rc := FAILURE;
      LookIsLater(Outside(), deadline);
      var late := clock.Expired(deadline);
      while !late
        invariant Since(old(codes), old(isconnected))
        invariant Steady(old(net.wire), old(slots[..]), old(isconnected), old(keepAliveInterval), old(cleansession),
                         old(nextPacketId), old(default))
        invariant rc == if |codes| == |old(codes)| then FAILURE else codes[|codes| - 1]
        invariant |codes| == |old(codes)| ==> lastReceived == old(lastReceived)
        invariant rc > 0 && Expected(rc) ==> rc == Kind(Peek(readbuf[..], 0))
        invariant forall k :: |old(codes)| <= k < |codes| ==> codes[k] != kind && codes[k] >= 0
        invariant late ==> clock.now >= deadline
        invariant late ==> Look(old(clock.Value()), deadline).0 || |codes| > |old(codes)|
        invariant |clock.ticks| <= old(|clock.ticks|)
        decreases |clock.ticks|, !late
      {
        rc := CycleAgain(deadline, old(codes), old(isconnected), old(net.wire), old(slots[..]));
        if rc == kind || rc < 0 { return; }
        late := clock.Expired(deadline);
      }
    }

    /** Another cycle. */
    method CycleAgain(deadline: int, ghost before: seq<int>, ghost connected: bool, ghost wire: seq<byte>,
                      ghost handlers: seq<Slot>) returns (rc: int)
      requires Shape() && Since(before, connected)
      requires Steady(wire, handlers, connected, keepAliveInterval, cleansession, nextPacketId, default)
      modifies this, buf, readbuf, slots, net, clock
      ensures Since(before, connected) && codes == old(codes) + [rc]
      ensures Steady(wire, handlers, connected, old(keepAliveInterval), old(cleansession), old(nextPacketId),
                     old(default))
      ensures rc > 0 && Expected(rc) ==> rc == Kind(Peek(readbuf[..], 0))
      ensures |clock.ticks| <= old(|clock.ticks|)
    {
      hide ReadOutcome, Shown, Alive, TypeOf, Reacts, Returns;
      ghost var more := codes[|before|..];
      ghost var unset;
      rc, unset := Cycle(deadline);
      assert codes[|before|..] == more + [rc];
      AllExpectedGrows(more, rc);
    }

    /** Since the codes were `before`, only cycles happened: the session is up exactly when it was then and
        every one of them met an expected packet. */
    ghost predicate Since(before: seq<int>, connected: bool)
      reads this
    {
      && |before| <= |codes| && codes[..|before|] == before
      && (isconnected <==> connected && AllExpected(codes[|before|..]))
    }

    /** The wait for `kind` ended with it, with a failure, or with its time up. */
    ghost predicate Ended(before: seq<int>, kind: int, deadline: int)
      reads this`codes, clock
    {
      Last(before, kind) || (|codes| > |before| && codes[|codes| - 1] < 0) || clock.now >= deadline
    }

    /** The last of the cycles since then returned this. */
    ghost predicate Last(before: seq<int>, kind: int)
      reads this`codes
    {
      |codes| > |before| && codes[|codes| - 1] == kind
    }

    // ---- the API ----

    /** `MQTTYield`: it fails exactly when its last cycle did. */
    method Yield(timeout: nat) returns (rc: int)
      requires Shape()
      modifies this, buf, readbuf, slots, net, clock
      ensures rc == SUCCESS || rc == FAILURE
      ensures rc == FAILURE ==> !isconnected
      ensures Since(old(codes), old(isconnected)) && |codes| > |old(codes)|
      ensures rc == FAILURE <==> codes[|codes| - 1] < 0
      ensures rc == SUCCESS ==> clock.now >= old(clock.now) + timeout
    {
      var deadline := clock.now + timeout;
      var code, more := 0, true;
      while more
        invariant Since(old(codes), old(isconnected))
        invariant Steady(old(net.wire), old(slots[..]), old(isconnected), old(keepAliveInterval), old(cleansession),
                         old(nextPacketId), old(default))
        invariant if |codes| == |old(codes)| then more else code == codes[|codes| - 1]
        invariant more ==> code >= 0
        invariant !more && code >= 0 ==> clock.now >= deadline
        decreases |clock.ticks| + if more then 1 else 0
      {
        code := CycleAgain(deadline, old(codes), old(isconnected), old(net.wire), old(slots[..]));
        more := code >= 0;
        if more {
          var late := clock.Expired(deadline);
          more := !late;
        }
      }
      rc := if code < 0 then FAILURE else SUCCESS;
    }

    /** `MQTTDisconnect`. */
    method Disconnect() returns (rc: int)
      requires Shape()
      modifies this, buf, slots, net, clock
      ensures (rc == SUCCESS || rc == FAILURE) && Closed() && codes == old(codes) && old(net.wire) <= net.wire
      ensures rc == SUCCESS ==> net.wire == old(net.wire) + [224, 0]
      ensures rc == SUCCESS <==>
        buf.Length >= 2 && Count(old(Outside()), 2, 0, old(clock.now) + commandTimeout).0 == 2
      ensures slots[..] == if cleansession then Clean(old(slots[..])) else old(slots[..])
    {
      rc := FAILURE;
      if buf.Length >= 2 {
        HeaderByte(DISCONNECT, 0, 0, 0);
        var len := WriteHeader(buf, Header(DISCONNECT, 0, 0, 0), 0);
        rc := SendWhole(len, clock.now + commandTimeout, [224, 0]);
      }
      CloseSession();
    }

    /** Waiting for the acknowledgement of a publish. */
    method AwaitAck(qos: nat, deadline: int) returns (rc: int)
      requires Shape() && (qos == 1 || qos == 2)
      modifies this, buf, readbuf, slots, net, clock
      ensures rc == SUCCESS || rc == FAILURE
      ensures Since(old(codes), old(isconnected))
      ensures Steady(old(net.wire), old(slots[..]), old(isconnected), old(keepAliveInterval), old(cleansession),
                     old(nextPacketId), old(default))
      ensures rc == SUCCESS ==> |codes| > |old(codes)| && codes[|codes| - 1] == if qos == 1 then PUBACK else PUBCOMP
      ensures Ended(old(codes), if qos == 1 then PUBACK else PUBCOMP, deadline)
      ensures Last(old(codes), if qos == 1 then PUBACK else PUBCOMP) ==>
        (rc == SUCCESS <==> DecodeAck(readbuf[..], AckOut(0, 0, 0)).0 == 1)
    {
      var kind := if qos == 1 then PUBACK else PUBCOMP;
      rc := Waitfor(kind, deadline);
      if rc != kind { return FAILURE; }
      var garbage: ushort := *;
      var code, ack := DeserializeAck(readbuf, AckOut(0, 0, garbage));
      rc := if code == 1 then SUCCESS else FAILURE;
    }

    /** Sending a serialized publish, and waiting for the acknowledgement that it asks for. */
    method SendAndAwait(len: nat, qos: nat, deadline: int, ghost packet: seq<byte>) returns (rc: int)
      requires Shape() && qos <= 2 && len <= buf.Length && buf[..len] == packet
      modifies this, buf, readbuf, slots, net, clock
      ensures rc == SUCCESS || rc == FAILURE
      ensures Since(old(codes), old(isconnected))
      ensures Steady(old(net.wire), old(slots[..]), old(isconnected), old(keepAliveInterval), old(cleansession),
                     old(nextPacketId), old(default))
      ensures rc == SUCCESS ==> old(net.wire) + packet <= net.wire
      ensures rc == SUCCESS && qos > 0 ==> Last(old(codes), if qos == 1 then PUBACK else PUBCOMP)
      ensures Count(old(Outside()), len, 0, deadline).0 == len ==>
        if qos == 0 then rc == SUCCESS
        else
          var kind := if qos == 1 then PUBACK else PUBCOMP;
          && Ended(old(codes), kind, deadline)
          && (Last(old(codes), kind) ==> (rc == SUCCESS <==> DecodeAck(readbuf[..], AckOut(0, 0, 0)).0 == 1))
    {
      assert Since(codes, isconnected);
      hide Count, AllExpected, DecodeAck;
      rc := SendWhole(len, deadline, packet);
      if rc == SUCCESS && qos > 0 { rc := AwaitAck(qos, deadline); }
    }

    /** `MQTTPublish`: after SUCCESS the packet is on the wire, whole. */
    method Publish(topic: seq<byte>, payload: seq<byte>, id0: ushort, qos: nat, retained: nat)
      returns (rc: int, id: ushort)
      requires Shape() && qos <= 2 && |topic| + |payload| + 4 <= MAX_REMAINING_LENGTH
      modifies this, buf, readbuf, slots, net, clock
      ensures rc == SUCCESS || rc == FAILURE
      ensures rc == FAILURE ==> Closed() && (!cleansession ==> slots[..] == old(slots[..]))
      ensures id == if old(isconnected) && qos > 0 then QoS2Ids.NextId(old(nextPacketId)) else id0
      ensures rc == SUCCESS ==> old(isconnected) && Since(old(codes), true)
      ensures rc == SUCCESS ==>
        && old(net.wire) + PublishCodec.Publish(0, qos, retained, id, topic, payload).Encoding() <= net.wire
        && (isconnected || !cleansession ==> slots[..] == old(slots[..]))
      ensures rc == SUCCESS && qos > 0 ==>
        |codes| > |old(codes)| && codes[|codes| - 1] == if qos == 1 then PUBACK else PUBCOMP
      ensures var p := PublishCodec.Publish(0, qos, retained, id, topic, payload);
        var deadline := old(clock.now) + commandTimeout;
        old(isconnected) && GoesOut(p.Length(), buf.Length, old(Outside()), deadline) ==>
          if qos == 0 then rc == SUCCESS
          else
            var kind := if qos == 1 then PUBACK else PUBCOMP;
            && Ended(old(codes), kind, deadline)
            && (Last(old(codes), kind) ==> (rc == SUCCESS <==> DecodeAck(readbuf[..], AckOut(0, 0, 0)).0 == 1))
    {
      hide Count, AllExpected, Clean;
      rc, id := FAILURE, id0;
      if isconnected {
        var deadline := clock.now + commandTimeout;
        if qos > 0 { id := NextPacketId(); }
        var len := SerializePublish(buf, buf.Length, 0, qos, retained, id, CString(topic), payload);
        if len > 0 {
          rc := SendAndAwait(len, qos, deadline,
                             PublishCodec.Publish(0, qos, retained, id, topic, payload).Encoding());
        }
      }
      if rc == FAILURE { CloseSession(); }
    }

    /** What `MQTTSubscribe` does with the SUBACK: the handler goes in whenever the SUBACK is read.  The code guards
        it by asking whether the granted code is 0x80, "failure", but that code is read as -128.  There is room
        for the second code that the deserializer may store. */
    method Granted(filter: seq<byte>, h: Option<Handler>) returns (rc: int)
      modifies slots
      ensures rc == SUCCESS || rc == FAILURE
      ensures
        if Granting(readbuf[..])
        then (rc, slots[..]) == SetHandler(old(slots[..]), filter, h)
        else rc == SUCCESS && slots[..] == old(slots[..])
      ensures rc == SUCCESS && Granting(readbuf[..]) && h.Some? ==> Slot(Some(filter), h) in slots[..]
    {
      HandlerIsIn(slots[..], filter, h);
      var granted := new int[2](_ => 0);
      var code, out := SubscribeCodec.DeserializeSuback(readbuf, 1, granted, SubscribeCodec.SubackOut(0, 0));
      rc := SUCCESS;
      ghost var codes := SubscribeCodec.DecodeSuback(readbuf[..], 1, SubscribeCodec.SubackOut(0, 0)).2;
      SubscribeCodec.NoCodeIsFailure(readbuf[..], 1, SubscribeCodec.SubackOut(0, 0));
      assert codes != [] ==> granted[0] == granted[..|codes|][0];
      if code == 1 && granted[0] != 0x80 {
        rc := SetMessageHandler(slots, filter, h);
      }
    }

    /** Waiting for the acknowledgement of a subscription, and taking it. */
    method AwaitSuback(filter: seq<byte>, h: Option<Handler>, deadline: int) returns (rc: int)
      requires Shape()
      modifies this, buf, readbuf, slots, net, clock
      ensures rc == SUCCESS || rc == FAILURE
      ensures Since(old(codes), old(isconnected)) && old(net.wire) <= net.wire
      ensures Kept(old(keepAliveInterval), old(cleansession), old(nextPacketId), old(default))
      ensures Ended(old(codes), SUBACK, deadline) && (rc == SUCCESS ==> Last(old(codes), SUBACK))
      ensures rc == SUCCESS && Granting(readbuf[..]) && h.Some? ==> Slot(Some(filter), h) in slots[..]
      ensures isconnected || !old(isconnected) || !cleansession ==>
        if Last(old(codes), SUBACK) && Granting(readbuf[..])
        then (rc, slots[..]) == SetHandler(old(slots[..]), filter, h)
        else slots[..] == old(slots[..]) && rc == if Last(old(codes), SUBACK) then SUCCESS else FAILURE
      ensures rc == FAILURE && !cleansession ==> slots[..] == old(slots[..])
    {
      hide Granting, AllExpected;
      var reply := Waitfor(SUBACK, deadline);
      if reply == SUBACK { rc := Granted(filter, h); } else { rc := FAILURE; }
    }

    /** `MQTTSubscribe`: after SUCCESS the packet is on the wire, whole, SUBACK came last, and when that was read with
        code 1 the handler is bound to the filter; a table without a place for it is a failure. */
    method Subscribe(filter: seq<byte>, qos: int, h: Option<Handler>) returns (rc: int)
      requires Shape() && |filter| + 5 <= MAX_REMAINING_LENGTH
      modifies this, buf, readbuf, slots, net, clock
      ensures rc == SUCCESS || rc == FAILURE
      ensures rc == FAILURE ==> Closed() && (!cleansession ==> slots[..] == old(slots[..]))
      ensures rc == SUCCESS ==>
        old(isconnected) && Since(old(codes), true) && |codes| > |old(codes)| && codes[|codes| - 1] == SUBACK
      ensures rc == SUCCESS ==>
        old(net.wire) + SubscribePacket(QoS2Ids.NextId(old(nextPacketId)), filter, qos).Encoding() <= net.wire
      ensures rc == SUCCESS && Granting(readbuf[..]) && h.Some? ==> Slot(Some(filter), h) in slots[..]
      ensures rc == SUCCESS && (isconnected || !cleansession) ==>
        if Granting(readbuf[..]) then (rc, slots[..]) == SetHandler(old(slots[..]), filter, h)
        else slots[..] == old(slots[..])
      ensures var deadline := old(clock.now) + commandTimeout;
        old(isconnected) && GoesOut(|filter| + 5, buf.Length, old(Outside()), deadline) ==>
          && Ended(old(codes), SUBACK, deadline)
          && (Last(old(codes), SUBACK) && AllExpected(codes[|old(codes)|..]) ==>
            rc == if Granting(readbuf[..]) then SetHandler(old(slots[..]), filter, h).0 else SUCCESS)
    {
      hide Count, Granting, SetHandler, Clean, AllExpected;
      rc := FAILURE;
      if isconnected {
        var deadline := clock.now + commandTimeout;
        var id := NextPacketId();
        OneEntry(id, filter, qos);
        var len := SubscribeCodec.SerializeSubscribe(buf, buf.Length, 0, id, [CString(filter)], [qos]);
        if len > 0 {
          rc := SendWhole(len, deadline, SubscribePacket(id, filter, qos).Encoding());
          if rc == SUCCESS { rc := AwaitSuback(filter, h, deadline); }
        }
      }
      if rc == FAILURE { CloseSession(); }
    }

    /** Waiting for the acknowledgement of an unsubscription, and taking it. */
    method AwaitUnsuback(filter: seq<byte>, deadline: int) returns (rc: int)
      requires Shape()
      modifies this, buf, readbuf, slots, net, clock
      ensures rc == if Last(old(codes), UNSUBACK) then SUCCESS else FAILURE
      ensures Since(old(codes), old(isconnected)) && old(net.wire) <= net.wire && Ended(old(codes), UNSUBACK, deadline)
      ensures Kept(old(keepAliveInterval), old(cleansession), old(nextPacketId), old(default))
      ensures isconnected || !old(isconnected) || !cleansession ==>
        slots[..] == if rc == SUCCESS then SetHandler(old(slots[..]), filter, None).1 else old(slots[..])
    {
      hide AllExpected;
      var reply := Waitfor(UNSUBACK, deadline);
      if reply == UNSUBACK { Removed(filter); rc := SUCCESS; } else { rc := FAILURE; }
    }

    /** `MQTTUnsubscribe`: after SUCCESS the packet is on the wire, whole, UNSUBACK came last, and the handler for the
        filter is gone, if there was one. */
    method Unsubscribe(filter: seq<byte>) returns (rc: int)
      requires Shape() && |filter| + 4 <= MAX_REMAINING_LENGTH
      modifies this, buf, readbuf, slots, net, clock
      ensures rc == SUCCESS || rc == FAILURE
      ensures rc == FAILURE ==> Closed() && (!cleansession ==> slots[..] == old(slots[..]))
      ensures rc == SUCCESS ==>
        old(isconnected) && Since(old(codes), true) && |codes| > |old(codes)| && codes[|codes| - 1] == UNSUBACK
      ensures rc == SUCCESS ==>
        old(net.wire) + UnsubscribePacket(QoS2Ids.NextId(old(nextPacketId)), filter).Encoding() <= net.wire
      ensures rc == SUCCESS && (isconnected || !cleansession) ==>
        slots[..] == SetHandler(old(slots[..]), filter, None).1
      ensures var deadline := old(clock.now) + commandTimeout;
        old(isconnected) && GoesOut(|filter| + 4, buf.Length, old(Outside()), deadline) ==>
          Ended(old(codes), UNSUBACK, deadline) && (rc == SUCCESS <==> Last(old(codes), UNSUBACK))
    {
      hide Count, SetHandler, Clean, AllExpected;
      rc := FAILURE;
      if isconnected {
        var deadline := clock.now + commandTimeout;
        var id := NextPacketId();
        OneFilter(id, filter);
        var len := UnsubscribeCodec.SerializeUnsubscribe(buf, buf.Length, 0, id, [CString(filter)]);
        if len > 0 {
          rc := SendWhole(len, deadline, UnsubscribePacket(id, filter).Encoding());
          if rc == SUCCESS { rc := AwaitUnsuback(filter, deadline); }
        }
      }
      if rc == FAILURE { CloseSession(); }
    }

    /** `MQTTDeserialize_unsuback` takes any packet of its type for a success, so that the handler is always removed. */
    method Removed(filter: seq<byte>)
      requires Kind(Peek(readbuf[..], 0)) == UNSUBACK
      modifies slots
      ensures slots[..] == SetHandler(old(slots[..]), filter, None).1
    {
      var unset: ushort := *;
      var code, ack := DeserializeAck(readbuf, AckOut(0, 0, unset));
      if code == 1 || ack.kind == UNSUBACK {
        var removed := SetMessageHandler(slots, filter, None);
      }
    }

    /** `MQTTConnect`: the one call that may fail and leave a session up, the one it was called in.  It succeeds
        exactly when CONNACK came last and stands for an accepted connection, which also a CONNACK that is too
        short does. */
    method Connect(o: ConnectCodec.ConnectData) returns (rc: int)
      requires Shape() && (o.version == 3 || o.version == 4) && ConnectCodec.ConnectLength(o) <= MAX_REMAINING_LENGTH
      modifies this, buf, readbuf, slots, net, clock
      ensures old(isconnected) ==> rc == FAILURE && isconnected && codes == old(codes)
      ensures !old(isconnected) ==> (isconnected <==> rc == SUCCESS) && Answered(old(codes), rc)
      ensures !old(isconnected) ==> keepAliveInterval == o.keepAlive && cleansession == (o.clean != 0)
      ensures rc == SUCCESS ==> !pingOutstanding
      ensures slots[..] == old(slots[..])
      ensures !old(isconnected) && codes == old(codes) ==> lastReceived == old(clock.now) + 1000 * o.keepAlive
      ensures rc == SUCCESS ==> old(net.wire) + ConnectCodec.Encoding(o) <= net.wire
      ensures var deadline := old(clock.now) + commandTimeout;
        !old(isconnected) && GoesOut(ConnectCodec.ConnectLength(o), buf.Length, old(Outside()), deadline) ==>
          Ended(old(codes), CONNACK, deadline)
    {
      rc := FAILURE;
      if isconnected { return; }
      var deadline := clock.now + commandTimeout;
      keepAliveInterval, cleansession := o.keepAlive, o.clean != 0;
      lastReceived := clock.now + Seconds(keepAliveInterval);
      rc := SendConnect(o, deadline);
      if rc == SUCCESS { isconnected, pingOutstanding := true, false; }
    }

    /** Since the codes were `before` either no cycle was made, for CONNECT did not go out or the time was up, or
        the result is what the last one made of CONNACK. */
    ghost predicate Answered(before: seq<int>, rc: int)
      reads this, readbuf
    {
      && |before| <= |codes| && codes[..|before|] == before
      && rc == if |codes| > |before| && codes[|codes| - 1] == CONNACK
               then ConnectCodec.ConnackCode(readbuf[..]) else FAILURE
    }

    method SendConnect(o: ConnectCodec.ConnectData, deadline: int) returns (rc: int)
      requires Shape() && (o.version == 3 || o.version == 4) && ConnectCodec.ConnectLength(o) <= MAX_REMAINING_LENGTH
      requires !isconnected
      modifies this, buf, readbuf, slots, net, clock
      ensures !isconnected && Answered(old(codes), rc)
      ensures rc == SUCCESS ==> old(net.wire) + ConnectCodec.Encoding(o) <= net.wire
      ensures GoesOut(ConnectCodec.ConnectLength(o), buf.Length, old(Outside()), deadline) ==>
        Ended(old(codes), CONNACK, deadline)
      ensures slots[..] == old(slots[..])
      ensures codes == old(codes) ==> lastReceived == old(lastReceived)
      ensures Kept(old(keepAliveInterval), old(cleansession), old(nextPacketId), old(default))
    {
      hide Count, ConnectCodec.Encoding, ConnectCodec.ConnectLength;
      rc := FAILURE;
      ConnectSize(o);
      var len := ConnectCodec.SerializeConnect(buf, buf.Length, o);
      if len > 0 {
        rc := SendWhole(len, deadline, ConnectCodec.Encoding(o));
        if rc == SUCCESS { rc := AwaitConnack(deadline); }
      }
    }

    method AwaitConnack(deadline: int) returns (rc: int)
      requires Shape()
      modifies this, buf, readbuf, slots, net, clock
      ensures Since(old(codes), old(isconnected)) && Answered(old(codes), rc) && Ended(old(codes), CONNACK, deadline)
      ensures codes == old(codes) ==> lastReceived == old(lastReceived)
      ensures Steady(old(net.wire), old(slots[..]), old(isconnected), old(keepAliveInterval), old(cleansession),
                     old(nextPacketId), old(default))
    {
      rc := Waitfor(CONNACK, deadline);
      if rc != CONNACK { return FAILURE; }
      var code, out := ConnectCodec.DeserializeConnack(readbuf, ConnectCodec.ConnackOut(0, 0));
      rc := if code == 1 then out.rc else FAILURE;
    }
  }

  lemma ConnectSize(o: ConnectCodec.ConnectData)
    requires o.version == 3 || o.version == 4
    ensures |ConnectCodec.Encoding(o)| == FrameSize(ConnectCodec.ConnectLength(o))
  {
    ConnectCodec.ConnectLengthExactly(o);
  }

  /** A SUBACK that is read with code 1. */
  predicate Granting(b: seq<byte>) {
    SubscribeCodec.DecodeSuback(b, 1, SubscribeCodec.SubackOut(0, 0)).0 == 1
  }

  function SubscribePacket(id: ushort, filter: seq<byte>, qos: int): SubscribeCodec.Subscribe {
    SubscribeCodec.Subscribe(0, id, [SubscribeCodec.Entry(filter, qos)])
  }

  function UnsubscribePacket(id: ushort, filter: seq<byte>): UnsubscribeCodec.Unsubscribe {
    UnsubscribeCodec.Unsubscribe(0, id, [filter])
  }

  lemma HandlerIsIn(slots: seq<Slot>, filter: seq<byte>, h: Option<Handler>)
    ensures var (rc, slots') := SetHandler(slots, filter, h);
      rc == SUCCESS && h.Some? ==> Slot(Some(filter), h) in slots'
  {
    var i, free := FindSlot(slots, Some(filter)), FindSlot(slots, None);
    if h.Some? && i < |slots| { assert slots[i := Slot(Some(filter), h)][i] == Slot(Some(filter), h); }
    else if h.Some? && free < |slots| { assert slots[free := Slot(Some(filter), h)][free] == Slot(Some(filter), h); }
  }

  lemma OneEntry(id: ushort, filter: seq<byte>, qos: int)
    ensures SubscribeCodec.Subscribe(0, id, SubscribeCodec.Zip([CString(filter)], [qos]))
         == SubscribePacket(id, filter, qos)
    ensures |SubscribeCodec.Subscribe(0, id, SubscribeCodec.Zip([CString(filter)], [qos])).Body()| == |filter| + 5
  {
    var es := SubscribeCodec.Zip([CString(filter)], [qos]);
    assert es[0].filter == filter && |SubscribeCodec.EncodeEntries(es[1..])| == 0;
    assert |SubscribeCodec.EncodeEntries(es)| == |es[0].Encoding()|;
  }

  lemma OneFilter(id: ushort, filter: seq<byte>)
    ensures UnsubscribeCodec.Unsubscribe(0, id, UnsubscribeCodec.Contents([CString(filter)]))
         == UnsubscribePacket(id, filter)
    ensures |UnsubscribeCodec.Unsubscribe(0, id, UnsubscribeCodec.Contents([CString(filter)])).Body()| == |filter| + 4
  {
    var fs := UnsubscribeCodec.Contents([CString(filter)]);
    assert fs[0] == filter && |UnsubscribeCodec.EncodeFilters(fs[1..])| == 0;
    assert |UnsubscribeCodec.EncodeFilters(fs)| == |EncodeString(filter)|;
  }
}
