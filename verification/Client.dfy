/** The client of MQTTClient.h, method by method, against Session: every method leaves the client in the
    state that the steps it has recorded lead to, with exactly those steps' bytes on the wire and calls
    made to handlers. */
module Client {
  import opened Bytes
  import opened FixedHeader
  import opened RemainingLength
  import opened PublishCodec
  import opened MessageHandlers
  import opened Transport
  import opened PacketReader
  import opened Session
  import opened InflightRetention
  import opened Timing
  import opened Effects
  import PingTimers
  import ConnectCodec
  import QoS2Ids

  class Client {
    const net: Network
    const clock: Clock
    const commandTimeout: nat
    const sendbuf: array<byte>
    const readbuf: array<byte>
    const pubbuf: array<byte>
    const table: array<ushort>
    const slots: array<Slot>
    var default: Option<Handler>
    var keepAliveInterval: nat
    var pingOutstanding: bool
    var lastSent: int
    var lastReceived: int
    var pingSent: int
    var cleansession: bool
    var isconnected: bool
    var nextId: ushort
    var inflightMsgid: ushort
    var inflightLen: nat
    var inflightQoS: nat
    var calls: seq<HandlerCall>
    /** The return code of the latest cycle, the state at construction and the steps made since. */
    ghost var last: int
    ghost const earlier: seq<byte>
    /** What the network had to give at construction. */
    ghost const source: Source
    /** What sending and the timers met at construction, and around each step since. */
    ghost const began: Env
    ghost var moments: seq<Moment>
    ghost var origin: State
    ghost var ops: seq<Op>

    /** A client of `size`-byte buffers, `handlers` handler slots and `ids` places for QoS 2 ids. */
    constructor (net: Network, clock: Clock, commandTimeout: nat, size: nat, handlers: nat, ids: nat)
      requires size >= 5
      ensures Valid() && this.net == net && this.clock == clock && ops == [] && moments == []
      ensures fresh(sendbuf) && fresh(readbuf) && fresh(pubbuf) && fresh(table) && fresh(slots)
      ensures table.Length == ids && slots.Length == handlers
    {
      this.net, this.clock, this.commandTimeout := net, clock, commandTimeout;
      earlier, source, began := net.wire, net.Incoming(), Env(net.writeGrants, clock.Value());
      keepAliveInterval, lastSent, lastReceived, pingSent := 0, 0, 0, 0;
      default, nextId, calls, last := None, 0, [], 0;
      cleansession, inflightLen := true, 0;
      pingOutstanding, isconnected, inflightMsgid, inflightQoS := false, false, 0, 0;
      sendbuf, readbuf, pubbuf := new byte[size](_ => 0), new byte[size](_ => 0), new byte[size](_ => 0);
      table := new ushort[ids](_ => 0);
      slots := new Slot[handlers](_ => Slot(None, None));
      new;
      CloseSession();
      Commence();
    }

    /** The history begins. */
    ghost method Commence()
      requires Shape() && Initial(Now()) && net.wire == earlier && calls == [] && source == net.Incoming()
      requires began == Outside()
      modifies this`ops, this`origin, this`moments
      ensures Valid() && ops == [] && moments == []
    {
      ops, moments := [], [];
      origin := Now();
    }

    /** What the cycles of the history have read is what the network has given. */
    ghost predicate Supplied()
      reads this, net, readbuf
    {
      Drawn(source, origin.readbuf, ops) == Some((net.Incoming(), readbuf[..]))
    }

    /** The answers to the writes to come, and the clock. */
    function Outside(): Env
      reads net`writeGrants, clock
    {
      Env(net.writeGrants, clock.Value())
    }

    /** What the steps of the history have met is what network and clock had for them. */
    ghost predicate Timely()
      reads this, net`writeGrants, clock
    {
      |moments| == |ops| && Lived(origin, began, ops, moments, Outside())
    }

    /** The client is where the recorded steps lead, and so are the wire and the calls, and the steps have read
        what came in, and met the clock and the answers to their writes. */
    ghost predicate Valid()
      reads this, net, clock, readbuf, pubbuf, table, slots
    {
      && Shape() && Initial(origin)
      && Run(origin, ops).Some?
      && Run(origin, ops).value.0 == Now()
      && net.wire == earlier + Wire(Run(origin, ops).value.1)
      && calls == Calls(Run(origin, ops).value.1)
      && Supplied() && Timely()
    }

    function Timers(): Alive
      reads this
    {
      Alive(keepAliveInterval, pingOutstanding, lastSent, lastReceived, pingSent)
    }

    function InFlight(): Inflight
      reads this, pubbuf
    {
      Inflight(inflightMsgid, inflightLen, inflightQoS, pubbuf[..])
    }

    ghost function Now(): State
      reads this, readbuf, pubbuf, table, slots
    {
      State(table[..], slots[..], default, InFlight(), readbuf[..], Timers(), cleansession, isconnected, nextId, last)
    }

    predicate Shape() {
      && sendbuf != readbuf && sendbuf != pubbuf && readbuf != pubbuf
      && sendbuf.Length == readbuf.Length == pubbuf.Length >= 5
    }

    // ---- sending ----

    /** One write of the loop of `sendPacket`, and the look at the timer after it. */
    method WriteOnce(length: nat, sent: nat, deadline: int) returns (sent': nat, more: bool)
      requires sent < length <= sendbuf.Length
      modifies net`wire, net`writeGrants, clock
      ensures sent <= sent' <= length && net.wire == old(net.wire) + sendbuf[sent..sent']
      ensures var (m, e) := Push(old(Outside()), length - sent, deadline);
        if more then Push(Outside(), length - sent', deadline) == (sent + m - sent', e)
        else (sent' - sent, Outside()) == (m, e)
      ensures |clock.ticks| <= old(|clock.ticks|) && (more ==> |clock.ticks| < old(|clock.ticks|))
    {
      ghost var e := Outside();
      var rc := net.Write(sendbuf, sent, length - sent);
      if rc < 0 {
        PushFails(e, length - sent, deadline);
        return sent, false;
      }
      PushStep(e, length - sent, deadline);
      sent' := sent + rc;
      var late := clock.Expired(deadline);
      more := !late;
    }

    /** The loop of `sendPacket`: as much of the packet goes out as network and clock let through. */
    method WriteAll(length: nat, deadline: int) returns (sent: nat)
      requires length <= sendbuf.Length
      modifies net`wire, net`writeGrants, clock
      ensures sent <= length && net.wire == old(net.wire) + sendbuf[..sent]
      ensures (sent, Outside()) == Push(old(Outside()), length, deadline)
      ensures |clock.ticks| <= old(|clock.ticks|)
    {
      var more := true;
      sent := 0;
      ghost var all := Push(Outside(), length, deadline);
      while more && sent < length
        invariant sent <= length && net.wire == old(net.wire) + sendbuf[..sent]
        invariant more ==> Push(Outside(), length - sent, deadline) == (all.0 - sent, all.1)
        invariant !more ==> (sent, Outside()) == all
        invariant |clock.ticks| <= old(|clock.ticks|)
        decreases |clock.ticks|, more
      {
        ghost var was := sent;
        sent, more := WriteOnce(length, sent, deadline);
        assert sendbuf[..was] + sendbuf[was..sent] == sendbuf[..sent];
      }
    }

    /** `sendPacket`: SUCCESS exactly when network and clock let all of the packet through. */
    method SendPacket(length: nat, deadline: int, ghost p: Outgoing) returns (rc: int, ghost w: nat)
      requires length <= sendbuf.Length && sendbuf[..length] == p.Bytes()
      modifies net`wire, net`writeGrants, clock, this`lastSent
      ensures w <= length && net.wire == old(net.wire) + p.Bytes()[..w]
      ensures (w, Outside()) == Push(old(Outside()), length, deadline)
      ensures rc == if w == length then SUCCESS else FAILURE
      ensures Timers() == Send(old(Timers()), p, w, clock.now)
      ensures lastSent == if rc == SUCCESS && keepAliveInterval > 0 then clock.now + 1000 * keepAliveInterval
                          else old(lastSent)
      ensures |clock.ticks| <= old(|clock.ticks|)
    {
      var sent := WriteAll(length, deadline);
      w := sent;
      assert sendbuf[..length][..w] == sendbuf[..w];
      if sent == length {
        if keepAliveInterval > 0 { lastSent := clock.now + Seconds(keepAliveInterval); }
        rc := SUCCESS;
      } else {
        rc := FAILURE;
      }
    }

    // ---- ending a session ----

    method ZeroTable()
      modifies table
      ensures table[..] == Zero(old(table[..]))
    {
      for i := 0 to table.Length
        invariant forall j :: 0 <= j < i ==> table[j] == 0
      {
        table[i] := 0;
      }
      assert |Zero(old(table[..]))| == table.Length;
    }

    method CleanSession()
      requires Shape()
      modifies this`inflightMsgid, this`inflightQoS, table, slots
      ensures Now() == Session.CleanSession(old(Now()))
      ensures inflightMsgid == 0 && inflightQoS == 0 && forall k :: 0 <= k < table.Length ==> table[k] == 0
      ensures forall k :: 0 <= k < slots.Length ==> slots[k] == old(slots[k]).(filter := None)
    {
      ClearFilters(slots);
      inflightMsgid := 0;
      inflightQoS := 0;
      ZeroTable();
      assert readbuf[..] == old(readbuf[..]) && pubbuf[..] == old(pubbuf[..]);
    }

    method CloseSession()
      requires Shape()
      modifies this`pingOutstanding, this`isconnected, this`inflightMsgid, this`inflightQoS, table, slots
      ensures Now() == Session.CloseSession(old(Now())) && !isconnected && !pingOutstanding
      ensures cleansession ==> inflightMsgid == 0 && forall k :: 0 <= k < table.Length ==> table[k] == 0
      ensures !cleansession ==>
        InFlight() == old(InFlight()) && table[..] == old(table[..]) && slots[..] == old(slots[..])
    {
      pingOutstanding := false;
      isconnected := false;
      if cleansession { CleanSession(); }
    }

    // ---- receiving ----

    /** `readPacket`: the packet type, or how reading failed. */
    method ReadPacket() returns (kind: int, ghost i: Input)
      requires Shape()
      modifies net`data, net`grants, readbuf, this`lastReceived
      ensures var (out, b, s) := ReadOutcome(old(net.Incoming()), old(readbuf[..]));
        i.out == out && i.buf == b == readbuf[..] && net.Incoming() == s
      ensures kind == i.Type() && Now() == Read(old(Now()), i) && i.readAt == clock.now
      ensures lastReceived == if i.out.Packet? && keepAliveInterval > 0 then clock.now + 1000 * keepAliveInterval
                              else old(lastReceived)
      ensures Answerable(i)
    {
      hide PacketReader.ReadOutcome;
      var out := ReadBlocking(net, readbuf);
      OutcomeKinds(old(net.Incoming()), old(readbuf[..]));
      i := Input(out, readbuf[..], clock.now, 0, 0, 0, 0, 0, 0, 0, 0);
      match out
      case NoHeader(rc) => kind := rc;
      case TooLong => kind := BUFFER_OVERFLOW;
      case ShortBody => kind := 1;
      case Packet(k) =>
        kind := k;
        if keepAliveInterval > 0 { lastReceived := clock.now + Seconds(keepAliveInterval); }
    }

    /** Handing a message on, QoS 2 only the first time. */
    method Accept(m: PublishOut)
      modifies table, this`calls
      ensures var (s, es) := Session.Accept(old(Now()), m);
        Now() == s && calls == old(calls) + Calls(es) && Wire(es) == []
    {
      if m.qos != 2 {
        HandOn(m);
      } else {
        var free := QoS2Ids.IsQoS2MsgIdFree(table, m.id);
        if free {
          var used := QoS2Ids.UseQoS2MsgId(table, m.id);
          if used { HandOn(m); }
        }
      }
    }

    method HandOn(m: PublishOut)
      modifies this`calls
      ensures calls == old(calls) + Calls([Session.Call(old(Now()), m)]) && Wire([Session.Call(old(Now()), m)]) == []
    {
      OneEvent(Session.Call(Now(), m));
      var rc, hs := DeliverMessage(slots, default, m.topic);
      calls := calls + CallEach(hs, m);
    }

    /** Sending an acknowledgement that `sendbuf` has room for. */
    method Answer(kind: nat, id: ushort, deadline: int, ghost i: Input) returns (rc: int, ghost j: Input)
      requires Shape()
      modifies sendbuf, net`wire, net`writeGrants, clock, this`lastSent
      ensures j == i.(ackW := j.ackW, ackAt := j.ackAt) && j.ackW <= 4
      ensures SendMet(old(Outside()), 4, deadline, j.ackW, j.ackAt, Outside())
      ensures var p := Session.Answer(old(Now()), kind, id, j);
        Now() == p.s && rc == p.rc && net.wire == old(net.wire) + Wire(p.es) && Calls(p.es) == []
      ensures |clock.ticks| <= old(|clock.ticks|)
    {
      var len := SerializeAck(sendbuf, sendbuf.Length, kind, 0, id);
      ghost var w;
      rc, w := SendPacket(len, deadline, Ack(kind, id));
      j := i.(ackW := w, ackAt := clock.now);
      SendOnWire(Ack(kind, id), w);
    }

    method Acknowledge(m: PublishOut, deadline: int, ghost i: Input) returns (rc: int, ghost j: Input)
      requires Shape() && i.ackW <= 4
      modifies sendbuf, net`wire, net`writeGrants, clock, this`lastSent
      ensures j == i.(ackW := j.ackW, ackAt := j.ackAt) && j.ackW <= 4
      ensures AckMet(1 <= m.qos <= 2, old(Outside()), deadline, j, Outside())
      ensures var p := Session.Acknowledge(old(Now()), m, j);
        && Now() == p.s && rc == p.rc && (rc == FAILURE <==> p.stop)
        && net.wire == old(net.wire) + Wire(p.es) && Calls(p.es) == []
      ensures |clock.ticks| <= old(|clock.ticks|)
    {
      rc, j := SUCCESS, i;
      if m.qos == 1 {
        rc, j := Answer(PUBACK, m.id, deadline, i);
      } else if m.qos == 2 {
        rc, j := Answer(PUBREC, m.id, deadline, i);
      } else if m.qos != 0 {
        rc := FAILURE;
      }
    }

    method OnMessage(code: int, m: PublishOut, deadline: int, ghost i: Input)
      returns (rc: int, stop: bool, ghost j: Input)
      requires Shape() && i.ackW <= 4
      modifies sendbuf, table, net`wire, net`writeGrants, clock, this`lastSent, this`calls
      ensures j == i.(ackW := j.ackW, ackAt := j.ackAt) && j.ackW <= 4
      ensures AckMet(code == 1 && 1 <= m.qos <= 2, old(Outside()), deadline, j, Outside())
      ensures var p := Session.OnMessage(old(Now()), code, m, j);
        && Now() == p.s && rc == p.rc && stop == p.stop
        && net.wire == old(net.wire) + Wire(p.es) && calls == old(calls) + Calls(p.es)
      ensures |clock.ticks| <= old(|clock.ticks|)
    {
      j := i;
      if code != 1 { return SUCCESS, true, j; }
      Accept(m);
      ghost var s, es := Now(), Session.Accept(old(Now()), m).1;
      rc, j := Acknowledge(m, deadline, j);
      stop := rc == FAILURE;
      CallsThenWire(es, Session.Acknowledge(s, m, j).es);
    }

    /** The PUBLISH branch of `cycle`; `stop` is the jump to its end. */
    method OnPublish(deadline: int, ghost i: Input) returns (rc: int, stop: bool, ghost j: Input)
      requires Shape() && i.ackW <= 4 && i.buf == readbuf[..] && i.Type() == PUBLISH
      modifies sendbuf, table, net`wire, net`writeGrants, clock, this`lastSent, this`calls
      ensures j == i.(garbage := j.garbage, ackW := j.ackW, ackAt := j.ackAt) && j.ackW <= 4
      ensures AckMet(Replies(j), old(Outside()), deadline, j, Outside())
      ensures var p := Session.OnPacket(old(Now()), j);
        && Now() == p.s && rc == p.rc && stop == p.stop
        && net.wire == old(net.wire) + Wire(p.es) && calls == old(calls) + Calls(p.es)
      ensures |clock.ticks| <= old(|clock.ticks|)
    {
      var garbage: ushort := *;
      var code, m := DeserializePublish(readbuf, Unset(garbage));
      rc, stop, j := OnMessage(code, m, deadline, i.(garbage := garbage));
      PacketOfMessage(old(Now()), j, code, m);
    }

    method OnId(kind: nat, code: int, id: ushort, deadline: int, ghost i: Input) returns (rc: int, ghost j: Input)
      requires Shape() && i.ackW <= 4
      modifies sendbuf, table, net`wire, net`writeGrants, clock, this`lastSent
      ensures j == i.(ackW := j.ackW, ackAt := j.ackAt) && j.ackW <= 4
      ensures AckMet(code == 1, old(Outside()), deadline, j, Outside())
      ensures var p := Session.OnId(old(Now()), kind, code, id, j);
        && Now() == p.s && rc == p.rc && (rc == FAILURE <==> p.stop)
        && net.wire == old(net.wire) + Wire(p.es) && Calls(p.es) == []
      ensures |clock.ticks| <= old(|clock.ticks|)
    {
      j := i;
      if code != 1 { return FAILURE, j; }
      rc, j := Answer(if kind == PUBREC then PUBREL else PUBCOMP, id, deadline, j);
      if rc == FAILURE { return; }
      if kind != PUBREC { QoS2Ids.FreeQoS2MsgId(table, id); }
    }

    /** The PUBREC and PUBREL branch of `cycle`. */
    method OnRelease(kind: nat, deadline: int, ghost i: Input) returns (rc: int, ghost j: Input)
      requires Shape() && i.ackW <= 4 && i.buf == readbuf[..] && i.Type() == kind && (kind == PUBREC || kind == PUBREL)
      modifies sendbuf, table, net`wire, net`writeGrants, clock, this`lastSent
      ensures j == i.(garbage := j.garbage, ackW := j.ackW, ackAt := j.ackAt) && j.ackW <= 4
      ensures AckMet(Replies(j), old(Outside()), deadline, j, Outside())
      ensures var p := Session.OnPacket(old(Now()), j);
        && Now() == p.s && rc == p.rc && (rc == FAILURE <==> p.stop)
        && net.wire == old(net.wire) + Wire(p.es) && Calls(p.es) == []
      ensures |clock.ticks| <= old(|clock.ticks|)
    {
      var garbage: ushort := *;
      var code, ack := DeserializeAck(readbuf, AckOut(0, 0, garbage));
      rc, j := OnId(kind, code, ack.id, deadline, i.(garbage := garbage));
      PacketOfId(old(Now()), j, kind, code, ack.id);
    }

    /** The switch of `cycle` on the packet type. */
    method OnPacket(kind: int, deadline: int, ghost i: Input) returns (rc: int, stop: bool, ghost j: Input)
      requires Shape() && i.ackW <= 4 && i.buf == readbuf[..] && kind == i.Type()
      modifies sendbuf, table, net`wire, net`writeGrants, clock, this`lastSent, this`calls, this`pingOutstanding
      ensures j == i.(garbage := j.garbage, ackW := j.ackW, ackAt := j.ackAt) && j.ackW <= 4
      ensures AckMet(Replies(j), old(Outside()), deadline, j, Outside())
      ensures var p := Session.OnPacket(old(Now()), j);
        && Now() == p.s && rc == p.rc && stop == p.stop
        && net.wire == old(net.wire) + Wire(p.es) && calls == old(calls) + Calls(p.es)
      ensures |clock.ticks| <= old(|clock.ticks|)
    {
      if kind == PUBLISH {
        rc, stop, j := OnPublish(deadline, i);
      } else if kind == PUBREC || kind == PUBREL {
        rc, j := OnRelease(kind, deadline, i);
        stop := rc == FAILURE;
      } else {
        rc, stop := OnQuietPacket(kind, i);
        j := i;
      }
    }

    /** The packets that nothing is sent for. */
    method OnQuietPacket(kind: int, ghost i: Input) returns (rc: int, stop: bool)
      requires Shape() && kind == i.Type() && kind != PUBLISH && kind != PUBREC && kind != PUBREL
      modifies this`pingOutstanding
      ensures var p := Session.OnPacket(old(Now()), i);
        Now() == p.s && rc == p.rc && stop == p.stop && p.es == []
    {
      if Ignored(kind) { return SUCCESS, false; }
      if kind == PINGRESP {
        pingOutstanding := false;
        return SUCCESS, false;
      }
      return kind, true;
    }

    method SendPing(ghost i: Input) returns (rc: int, ghost j: Input)
      requires Shape() && !pingOutstanding && keepAliveInterval > 0
      modifies sendbuf, net`wire, net`writeGrants, clock, this`lastSent, this`pingOutstanding, this`pingSent
      ensures j == i.(pingW := j.pingW, pingAt := j.pingAt) && j.pingW <= 2
      ensures PingMet(old(Outside()), j, Outside())
      ensures var a := Send(old(Timers()), Ping, j.pingW, j.pingAt);
        && rc == (if j.pingW < 2 then FAILURE else SUCCESS)
        && Timers() == (if rc != SUCCESS then a
                        else a.(ping := true, pingSent := j.pingAt + Seconds(keepAliveInterval)))
        && net.wire == old(net.wire) + Wire([SendEvent(Ping, j.pingW)]) && Calls([SendEvent(Ping, j.pingW)]) == []
      ensures |clock.ticks| <= old(|clock.ticks|)
    {
      var len := WriteHeader(sendbuf, Header(PINGREQ, 0, 0, 0), 0);
      ghost var w;
      rc, w := SendPacket(len, clock.now + 1000, Ping);
      j := i.(pingW := w, pingAt := clock.now);
      SendOnWire(Ping, w);
      if rc == SUCCESS {
        pingOutstanding := true;
        pingSent := clock.now + Seconds(keepAliveInterval);
      }
    }

    method KeepAlive(ghost i: Input) returns (rc: int, ghost j: Input)
      requires Shape() && i.pingW <= 2
      modifies sendbuf, net`wire, net`writeGrants, clock, this`lastSent, this`pingOutstanding, this`pingSent
      ensures j == i.(pingLook := j.pingLook, sentLook := j.sentLook, receivedLook := j.receivedLook,
                      pingW := j.pingW, pingAt := j.pingAt) && j.pingW <= 2
      ensures CheckMet(old(Timers()), old(Outside()), j, Outside())
      ensures var (a, es, ok) := Session.KeepAlive(old(Timers()), j);
        && Timers() == a && (rc == SUCCESS <==> ok)
        && net.wire == old(net.wire) + Wire(es) && Calls(es) == []
      ensures |clock.ticks| <= old(|clock.ticks|)
    {
      j := i;
      if keepAliveInterval == 0 { return SUCCESS, j; }
      if pingOutstanding {
        var late := clock.Expired(pingSent);
        j := j.(pingLook := clock.now);
        return if late then FAILURE else SUCCESS, j;
      }
      var due := clock.Expired(lastSent);
      j := j.(sentLook := clock.now);
      if !due {
        due := clock.Expired(lastReceived);
        j := j.(receivedLook := clock.now);
      }
      if due { rc, j := SendPing(j); } else { rc := SUCCESS; }
    }

    /** Since the wire was `w` and the calls were `c`, exactly the events `es` have shown. */
    ghost predicate Logged(w: seq<byte>, c: seq<HandlerCall>, es: seq<Event>)
      reads this, net
    {
      net.wire == w + Wire(es) && calls == c + Calls(es)
    }

    /** The keepalive check. */
    method CheckNow(rc0: int, ghost i: Input, ghost p: Part, ghost w0: seq<byte>, ghost c0: seq<HandlerCall>)
      returns (rc: int, ghost j: Input)
      requires Shape() && i.pingW <= 2 && p.s == Now() && rc0 == p.rc && !p.stop && Logged(w0, c0, p.es)
      modifies sendbuf, net`wire, net`writeGrants, clock, this`lastSent, this`pingOutstanding, this`pingSent
      ensures SameButPing(i, j) && j.pingW <= 2
      ensures CheckMet(p.s.alive, old(Outside()), j, Outside())
      ensures var q := WithKeepAlive(p, j);
        Now() == q.s && rc == q.rc && Logged(w0, c0, q.es)
      ensures |clock.ticks| <= old(|clock.ticks|)
    {
      hide Transport.Push, Transport.Look, Timing.CheckMet, Session.KeepAlive;
      var k;
      k, j := KeepAlive(i);
      rc := if k != SUCCESS then FAILURE else rc0;
      LogGrows(w0, c0, p.es, Session.KeepAlive(p.s.alive, j).1);
    }

    /** The same, unless it is skipped. */
    method Check(rc0: int, stop: bool, ghost i: Input, ghost p: Part, ghost w0: seq<byte>, ghost c0: seq<HandlerCall>)
      returns (rc: int, ghost j: Input)
      requires Shape() && i.pingW <= 2 && p.s == Now() && rc0 == p.rc && stop == p.stop && Logged(w0, c0, p.es)
      modifies sendbuf, net`wire, net`writeGrants, clock, this`lastSent, this`pingOutstanding, this`pingSent
      ensures SameButPing(i, j) && j.pingW <= 2
      ensures if stop then Outside() == old(Outside()) else CheckMet(p.s.alive, old(Outside()), j, Outside())
      ensures var q := WithKeepAlive(p, j);
        Now() == q.s && rc == q.rc && Logged(w0, c0, q.es)
      ensures |clock.ticks| <= old(|clock.ticks|)
    {
      hide Transport.Push, Transport.Look, Timing.CheckMet, Session.KeepAlive;
      rc, j := rc0, i;
      if !stop { rc, j := CheckNow(rc0, i, p, w0, c0); }
    }

    /** Reading a packet and acting on it. */
    method Receive(deadline: int) returns (kind: int, rc: int, stop: bool, ghost i: Input)
      requires Shape()
      modifies sendbuf, readbuf, table, net, clock
      modifies this`lastReceived, this`lastSent, this`calls, this`pingOutstanding
      ensures Drew(old(net.Incoming()), old(readbuf[..]), i, net.Incoming())
      ensures kind == i.Type() && Answerable(i) && i.buf == readbuf[..] && i.readAt == old(clock.now)
      ensures AckMet(Replies(i), old(Outside()), deadline, i, Outside())
      ensures var p := Handled(old(Now()), i);
        Now() == p.s && rc == p.rc && stop == p.stop && Logged(old(net.wire), old(calls), p.es)
      ensures |clock.ticks| <= old(|clock.ticks|)
    {
      kind, i := ReadPacket();
      ghost var s, i0 := Now(), i;
      rc, stop, i := OnPacket(kind, deadline, i);
      ReadIsSilent(i, Session.OnPacket(s, i).es);
    }

    /** The end of `cycle`: what it returns, and the session closed after a failure. */
    method Conclude(rc0: int, kind: int, ghost p: Part) returns (rc: int)
      requires Shape() && p.s == Now() && rc0 == p.rc
      modifies this`pingOutstanding, this`isconnected, this`inflightMsgid, this`inflightQoS, this`last, table, slots
      ensures var q := Finish(p, kind);
        Now() == q.s && rc == q.rc && Wire(q.es) == Wire(p.es) && Calls(q.es) == Calls(p.es)
    {
      rc := rc0;
      if rc == SUCCESS {
        rc := kind;
      } else if isconnected {
        CloseSession();
        ClosedIsSilent(p.es, Closed(p.s.clean));
      }
      last := rc;
    }

    /** A cycle up to its end. */
    method ReceiveAndCheck(deadline: int) returns (kind: int, rc: int, ghost j: Input)
      requires Shape()
      modifies sendbuf, readbuf, table, net, clock
      modifies this`lastReceived, this`lastSent, this`calls, this`pingOutstanding, this`pingSent
      ensures Drew(old(net.Incoming()), old(readbuf[..]), j, net.Incoming())
      ensures CycleMet(old(Now()), old(Outside()), deadline, j, Outside())
      ensures Answerable(j) && j.buf == readbuf[..] && kind == j.Type() && j.readAt == old(clock.now)
      ensures var p := WithKeepAlive(Handled(old(Now()), j), j);
        Now() == p.s && rc == p.rc && Logged(old(net.wire), old(calls), p.es)
      ensures |clock.ticks| <= old(|clock.ticks|)
    {
      ghost var s, w, c, src, b, e := Now(), net.wire, calls, net.Incoming(), readbuf[..], Outside();
      var rc0, stop;
      ghost var i;
      kind, rc0, stop, i := Receive(deadline);
      ghost var between := Outside();
      rc, j := Check(rc0, stop, i, Handled(s, i), w, c);
      HandledSame(s, i, j);
      MetTogether(s, e, deadline, i, j, between, Outside());
      ReadSame(src, b, i, j, net.Incoming());
    }

    method CycleBody(deadline: int) returns (rc: int, ghost j: Input)
      requires Shape()
      modifies sendbuf, readbuf, table, slots, net, clock
      modifies this`lastReceived, this`lastSent, this`calls, this`pingOutstanding, this`pingSent
      modifies this`isconnected, this`inflightMsgid, this`inflightQoS, this`last
      ensures Drew(old(net.Incoming()), old(readbuf[..]), j, net.Incoming())
      ensures CycleMet(old(Now()), old(Outside()), deadline, j, Outside())
      ensures Answerable(j) && j.buf == readbuf[..] && j.readAt == old(clock.now)
      ensures var q := Session.Cycle(old(Now()), j);
        Now() == q.s && rc == q.rc && Logged(old(net.wire), old(calls), q.es)
      ensures |clock.ticks| <= old(|clock.ticks|)
    {
      hide Timing.CycleMet, Transport.Push, PacketReader.ReadOutcome, Session.WithKeepAlive, Session.Handled;
      hide Session.Finish, Answerable, Drew;
      ghost var s := Now();
      var kind;
      kind, rc, j := ReceiveAndCheck(deadline);
      rc := Conclude(rc, kind, WithKeepAlive(Handled(s, j), j));
    }

    /** A cycle, recorded. */
    method CycleStep(deadline: int) returns (rc: int, ghost op: Op)
      requires Valid()
      modifies sendbuf, readbuf, table, slots, net, clock, this
      ensures Valid() && origin == old(origin) && ops == old(ops) + [op] && op.Cycling?
      ensures var c := Session.Cycle(old(Now()), op.input);
        Now() == c.s && rc == c.rc && Logged(old(net.wire), old(calls), c.es)
      ensures Drew(old(net.Incoming()), old(readbuf[..]), op.input, net.Incoming()) && op.input.buf == readbuf[..]
      ensures Answerable(op.input) && op.input.readAt == old(clock.now)
      ensures CycleMet(old(Now()), old(Outside()), deadline, op.input, Outside())
      ensures moments == old(moments) + [Moment(old(Outside()), deadline, Outside())]
      ensures |clock.ticks| <= old(|clock.ticks|)
    {
      hide Timing.Lived, Timing.CycleMet, Session.Run, Transport.Push, PacketReader.ReadOutcome;
      ghost var before, e := Run(origin, ops).value, Outside();
      ghost var j;
      rc, j := CycleBody(deadline);
      op := Cycling(j);
      RunExtends(origin, ops, op);
      RecordStep(op, before.1, Session.Cycle(before.0, j).es, old(net.Incoming()), old(readbuf[..]),
                 Moment(e, deadline, Outside()));
    }

    /** `cycle`: one recorded step, on what the network gives and the clock shows.  After it a session is up exactly
        when it was before and the code is that of an expected packet, or of none.  Handlers are called exactly with
        the message that was accepted, if there was one; and what went out is an acknowledgement, or a part of it,
        and a PINGREQ, or a part of it. */
    method Cycle(deadline: int) returns (rc: int, ghost op: Op)
      requires Valid()
      modifies sendbuf, readbuf, table, slots, net, clock, this
      ensures Valid() && origin == old(origin) && rc == last && (isconnected <==> old(isconnected) && Expected(rc))
      ensures ops == old(ops) + [op] && op.Cycling? && Codes(origin, ops) == Codes(origin, old(ops)) + [rc]
      ensures var (out, b, s) := ReadOutcome(old(net.Incoming()), old(readbuf[..]));
        op.input.out == out && op.input.buf == b == readbuf[..] && net.Incoming() == s
      ensures CycleMet(old(Now()), old(Outside()), deadline, op.input, Outside())
      ensures moments == old(moments) + [Moment(old(Outside()), deadline, Outside())]
      ensures rc == Effects.Returns(op.input, Effects.Loses(old(Now()), op.input))
      ensures old(calls) <= calls
      ensures if Accepts(old(Now()), op.input)
              then CallsAll(calls[|old(calls)|..], Deliver(old(slots[..]), old(default), op.input.Msg().topic),
                            DecodePublish(readbuf[..], Unset(op.input.garbage)).1)
              else calls == old(calls)
      ensures net.wire == old(net.wire) + (ReplyPart(op.input) + PingPart(old(Now()), op.input))
      ensures keepAliveInterval == old(keepAliveInterval)
      ensures lastReceived == if op.input.out.Packet? && keepAliveInterval > 0
                              then old(clock.now) + 1000 * keepAliveInterval else old(lastReceived)
      ensures cleansession == old(cleansession)
      ensures !cleansession || !old(isconnected) ==> InFlight() == old(InFlight())
      ensures |clock.ticks| <= old(|clock.ticks|)
    {
      hide Timing.Lived, Timing.CycleMet, Session.Run, Transport.Push, Session.Drawn, PacketReader.ReadOutcome;
      hide Session.Cycle, PublishCodec.DecodePublish, MessageHandlers.Deliver, Effects.CallsAll, Effects.Pings;
      hide Effects.PingPart, Effects.ReplyPart, Effects.Accepts, Effects.Returns, Effects.Loses;
      ghost var s := Now();
      rc, op := CycleStep(deadline);
      CycleCalls(s, op.input);
      CycleWire(s, op.input);
      Effects.CycleReturns(s, op.input);
      PingTimers.CycleTimers(s, op.input);
      CycleSame(s, op.input);
      CycleConnected(s, op.input);
      CycleLast(s, op.input);
      CodesExtend(origin, old(ops), op);
    }

    /** Write a step that was just made into the history: one that reads and sends nothing. */
    ghost method Record(op: Op, es: seq<Event>, more: seq<Event>)
      requires Shape() && Initial(origin) && Run(origin, ops + [op]) == Some((Now(), es + more))
      requires Logged(earlier + Wire(es), Calls(es), more)
      requires !op.Cycling? && Supplied() && Timely() && Run(origin, ops).Some?
      requires StepMet(Run(origin, ops).value.0, Moment(Outside(), 0, Outside()), op)
      modifies this`ops, this`moments
      ensures Valid() && ops == old(ops) + [op]
    {
      RecordStep(op, es, more, net.Incoming(), readbuf[..], Moment(Outside(), 0, Outside()));
    }

    /** One that sends. */
    ghost method RecordSend(op: Op, es: seq<Event>, more: seq<Event>, m: Moment)
      requires Shape() && Initial(origin) && Run(origin, ops + [op]) == Some((Now(), es + more))
      requires Logged(earlier + Wire(es), Calls(es), more)
      requires !op.Cycling? && Supplied() && Run(origin, ops).Some?
      requires |moments| == |ops| && Lived(origin, began, ops, moments, m.before) && m.after == Outside()
      requires StepMet(Run(origin, ops).value.0, m, op)
      modifies this`ops, this`moments
      ensures Valid() && ops == old(ops) + [op] && moments == old(moments) + [m]
    {
      RecordStep(op, es, more, net.Incoming(), readbuf[..], m);
    }

    /** A step before which `src` was left to read and the read buffer was `b`, and which met `m`. */
    ghost method RecordStep(op: Op, es: seq<Event>, more: seq<Event>, src: Source, b: seq<byte>, m: Moment)
      requires Shape() && Initial(origin) && Run(origin, ops + [op]) == Some((Now(), es + more))
      requires Logged(earlier + Wire(es), Calls(es), more)
      requires Drawn(source, origin.readbuf, ops) == Some((src, b))
      requires DrawOne(src, b, op) == Some((net.Incoming(), readbuf[..]))
      requires Run(origin, ops).Some? && StepMet(Run(origin, ops).value.0, m, op)
      requires |moments| == |ops| && Lived(origin, began, ops, moments, m.before) && m.after == Outside()
      modifies this`ops, this`moments
      ensures Valid() && ops == old(ops) + [op] && moments == old(moments) + [m]
    {
      hide Timing.Lived, Timing.StepMet, Session.Run, Session.Drawn, Session.DrawOne, Session.Wire, Session.Calls;
      hide Session.Initial;
      DrawnExtends(source, origin.readbuf, ops, op);
      LivedExtends(origin, began, ops, moments, op, m, Outside());
      LogJoins(es, more);
      ops, moments := ops + [op], moments + [m];
    }

    lemma LogJoins(es: seq<Event>, more: seq<Event>)
      requires Logged(earlier + Wire(es), Calls(es), more)
      ensures net.wire == earlier + Wire(es + more) && calls == Calls(es + more)
    {
      WireConcat(es, more);
      CallsConcat(es, more);
      Joined(earlier, Wire(es), Wire(more));
    }

    /** The codes of the cycles made since the history was `before`, and what they mean for the session. */
    ghost predicate Since(before: seq<Op>, connected: bool, codes: seq<int>)
      reads this
    {
      Codes(origin, ops) == Codes(origin, before) + codes && (isconnected <==> connected && AllExpected(codes))
    }

    /** Since the history was `before` only these cycles were made, with these codes. */
    ghost predicate Cycled(before: seq<Op>, connected: bool, cycles: seq<Op>, codes: seq<int>)
      reads this
    {
      && ops == before + cycles && CyclesOnly(cycles) && |codes| == |cycles|
      && Since(before, connected, codes) && (codes != [] ==> last == codes[|codes| - 1])
    }

    /** Another cycle. */
    lemma SinceGrows(before: seq<Op>, connected: bool, codes: seq<int>, middle: seq<Op>, up: bool, rc: int)
      requires Codes(origin, middle) == Codes(origin, before) + codes && (up <==> connected && AllExpected(codes))
      requires Codes(origin, ops) == Codes(origin, middle) + [rc] && (isconnected <==> up && Expected(rc))
      ensures Since(before, connected, codes + [rc])
    {
      Joined(Codes(origin, before), codes, [rc]);
      AllExpectedGrows(codes, rc);
    }

    lemma CycledGrows(before: seq<Op>, connected: bool, cycles: seq<Op>, codes: seq<int>, middle: seq<Op>, up: bool,
                      rc: int, op: Op)
      requires middle == before + cycles && CyclesOnly(cycles) && |codes| == |cycles|
      requires Codes(origin, middle) == Codes(origin, before) + codes && (up <==> connected && AllExpected(codes))
      requires Codes(origin, ops) == Codes(origin, middle) + [rc] && (isconnected <==> up && Expected(rc))
      requires ops == middle + [op] && op.Cycling? && last == rc
      ensures Cycled(before, connected, cycles + [op], codes + [rc])
    {
      SinceGrows(before, connected, codes, middle, up, rc);
      Joined(before, cycles, [op]);
    }

    /** A look at a timer between two steps. */
    method Late(deadline: int) returns (late: bool)
      requires Valid()
      modifies clock
      ensures Valid() && (late, clock.Value()) == Look(old(clock.Value()), deadline)
      ensures |clock.ticks| <= |old(clock.ticks)| && (!late ==> |clock.ticks| < |old(clock.ticks)|)
    {
      LookIsLater(Outside(), deadline);
      ghost var e := Outside();
      late := clock.Expired(deadline);
      LivedOn(origin, began, ops, moments, e, Outside());
    }

    /** Since the moments were `before` there were these, cycles of one wait that began at `t0`. */
    ghost predicate Pausing(before: seq<Moment>, t0: Time, pace: seq<Moment>, until: int)
      reads this
    {
      moments == before + pace && Paced(t0, pace, until)
    }

    lemma PausingGrows(before: seq<Moment>, t0: Time, pace: seq<Moment>, until: int, m: Moment)
      requires moments == before + pace + [m] && Paced(t0, pace, until) && m.until == until
      requires Look(EndOf(t0, pace), until) == (false, m.before.time)
      ensures Pausing(before, t0, pace + [m], until) && EndOf(t0, pace + [m]) == m.after.time
    {
      Joined(before, pace, [m]);
      PacedOn(t0, pace, until, m);
    }

    /** A cycle that is made because the earlier ones have not ended the wait, neither for `kind` nor by failing, and
        the timer has not run out. */
    method CycleAgain(kind: int, deadline: int, ghost before: seq<Op>, ghost connected: bool, ghost cycles: seq<Op>,
                      ghost codes: seq<int>, ghost moments0: seq<Moment>, ghost t0: Time, ghost pace: seq<Moment>)
      returns (rc: int, ghost cycles': seq<Op>, ghost pace': seq<Moment>)
      requires Valid() && Cycled(before, connected, cycles, codes) && NoneEnds(kind, codes)
      requires Pausing(moments0, t0, pace, deadline) && Look(EndOf(t0, pace), deadline) == (false, clock.Value())
      modifies sendbuf, readbuf, table, slots, net, clock, this
      ensures Valid() && origin == old(origin) && Cycled(before, connected, cycles', codes + [rc])
      ensures rc != kind && rc >= 0 ==> NoneEnds(kind, codes + [rc])
      ensures Pausing(moments0, t0, pace', deadline) && |pace'| == |pace| + 1 && EndOf(t0, pace') == clock.Value()
      ensures cleansession == old(cleansession)
      ensures !cleansession || !connected ==> InFlight() == old(InFlight())
      ensures |clock.ticks| <= old(|clock.ticks|)
      ensures old(net.wire) <= net.wire
    {
      hide Timing.Lived, Session.Run, Transport.Push, Timing.CycleMet;
      ghost var op;
      ghost var middle, up, e := ops, isconnected, Outside();
      rc, op := Cycle(deadline);
      CycledGrows(before, connected, cycles, codes, middle, up, rc, op);
      PausingGrows(moments0, t0, pace, deadline, Moment(e, deadline, Outside()));
      cycles', pace' := cycles + [op], pace + [Moment(e, deadline, Outside())];
      NoneEndsGrows(kind, codes, rc);
    }

    /** `waitfor`: cycles until one returns the packet type, a failure or the timer's end, and no further. */
    method Waitfor(kind: int, deadline: int)
      returns (rc: int, ghost cycles: seq<Op>, ghost codes: seq<int>, ghost pace: seq<Moment>)
      requires Valid()
      modifies sendbuf, readbuf, table, slots, net, clock, this
      ensures Valid() && origin == old(origin) && Cycled(old(ops), old(isconnected), cycles, codes)
      ensures rc == LastOf(codes, FAILURE) && NoneEnds(kind, Front(codes))
      ensures |pace| == |codes| && moments == old(moments) + pace
      ensures Waited(old(clock.Value()), pace, deadline, codes != [] && (rc == kind || rc < 0), clock.Value())
      ensures cleansession == old(cleansession)
      ensures !cleansession || !old(isconnected) ==> InFlight() == old(InFlight())
      ensures old(net.wire) <= net.wire
    {
      hide Timing.Lived, Session.Run, Transport.Push, Transport.Look;
      rc, cycles, codes, pace := FAILURE, [], [], [];
      var late := Late(deadline);
      while !late
        invariant Valid() && origin == old(origin) && Cycled(old(ops), old(isconnected), cycles, codes)
        invariant rc == LastOf(codes, FAILURE) && NoneEnds(kind, codes)
        invariant |pace| == |codes| && Pausing(old(moments), old(clock.Value()), pace, deadline)
        invariant Look(EndOf(old(clock.Value()), pace), deadline) == (late, clock.Value())
        invariant cleansession == old(cleansession)
        invariant !cleansession || !old(isconnected) ==> InFlight() == old(InFlight())
        invariant old(net.wire) <= net.wire
        decreases |clock.ticks|, !late
      {
        rc, cycles, pace := CycleAgain(kind, deadline, old(ops), old(isconnected), cycles, codes,
                                       old(moments), old(clock.Value()), pace);
        assert Front(codes + [rc]) == codes;
        codes := codes + [rc];
        if rc == kind || rc < 0 { return; }
        late := Late(deadline);
      }
      assert NoneEnds(kind, Front(codes));
    }

    /** Cycles until one fails or the timer's end. */
    method YieldUntil(deadline: int)
      returns (rc: int, ghost cycles: seq<Op>, ghost codes: seq<int>, ghost pace: seq<Moment>)
      requires Valid()
      modifies sendbuf, readbuf, table, slots, net, clock, this
      ensures Valid() && origin == old(origin) && Cycled(old(ops), old(isconnected), cycles, codes)
      ensures rc == LastOf(codes, SUCCESS) && NoneEnds(FAILURE, Front(codes))
      ensures |pace| == |codes| && moments == old(moments) + pace
      ensures Waited(old(clock.Value()), pace, deadline, rc < 0, clock.Value())
      ensures old(net.wire) <= net.wire
    {
      hide Timing.Lived, Session.Run, Transport.Push, Transport.Look;
      rc, cycles, codes, pace := SUCCESS, [], [], [];
      var late := Late(deadline);
      while !late
        invariant Valid() && origin == old(origin) && Cycled(old(ops), old(isconnected), cycles, codes)
        invariant rc == LastOf(codes, SUCCESS) && NoneEnds(FAILURE, codes)
        invariant |pace| == |codes| && Pausing(old(moments), old(clock.Value()), pace, deadline)
        invariant Look(EndOf(old(clock.Value()), pace), deadline) == (late, clock.Value())
        invariant old(net.wire) <= net.wire
        decreases |clock.ticks|, !late
      {
        rc, cycles, pace := CycleAgain(FAILURE, deadline, old(ops), old(isconnected), cycles, codes,
                                       old(moments), old(clock.Value()), pace);
        assert Front(codes + [rc]) == codes;
        codes := codes + [rc];
        if rc < 0 { return; }
        late := Late(deadline);
      }
      assert NoneEnds(FAILURE, Front(codes));
    }

    /** `yield`: it fails exactly when its last cycle did, and goes on until then or until the timer's end; whatever it
        returns the session is up exactly when it was before and every cycle met an expected packet. */
    method Yield(timeout: nat)
      returns (rc: int, ghost cycles: seq<Op>, ghost codes: seq<int>, ghost pace: seq<Moment>)
      requires Valid()
      modifies sendbuf, readbuf, table, slots, net, clock, this
      ensures Valid() && origin == old(origin) && Cycled(old(ops), old(isconnected), cycles, codes)
      ensures rc == (if LastOf(codes, SUCCESS) < 0 then FAILURE else SUCCESS) && NoneEnds(FAILURE, Front(codes))
      ensures |pace| == |codes| && moments == old(moments) + pace
      ensures Waited(old(clock.Value()), pace, old(clock.now) + timeout, rc == FAILURE, clock.Value())
    {
      hide Timing.Lived, Timing.Waited, Session.Run, Session.Codes, Transport.Push, Transport.Look, NoneEnds, LastOf;
      rc, cycles, codes, pace := YieldUntil(clock.now + timeout);
      rc := if rc < 0 then FAILURE else SUCCESS;
    }

    // ---- the steps of the API ----

    /** A recorded `sendPacket` of what is in `sendbuf`. */
    method Transmit(length: nat, deadline: int, ghost packet: seq<byte>) returns (rc: int, ghost op: Op)
      requires Valid() && length <= sendbuf.Length && sendbuf[..length] == packet
      modifies net`wire, net`writeGrants, clock, this`lastSent, this`ops, this`moments
      ensures Valid() && ops == old(ops) + [op] && op.Sending? && op.packet == packet && op.w <= |packet|
      ensures net.wire == old(net.wire) + packet[..op.w]
      ensures SendMet(old(Outside()), |packet|, deadline, op.w, op.at, Outside())
      ensures moments == old(moments) + [Moment(old(Outside()), deadline, Outside())]
      ensures rc == if op.w == |packet| then SUCCESS else FAILURE
    {
      hide Timing.Lived, Session.Run, Transport.Push;
      ghost var before, w, e := Run(origin, ops).value, 0, Outside();
      rc, w := SendPacket(length, deadline, Other(packet));
      op := Sending(packet, w, clock.now);
      SendOnWire(Other(packet), w);
      RunSends(origin, ops, packet, w, clock.now);
      RecordSend(op, before.1, [SendEvent(Other(packet), w)], Moment(e, deadline, Outside()));
    }

    /** The same for the kept publish. */
    method Retransmit(length: nat, deadline: int) returns (rc: int, ghost op: Op)
      requires Valid() && length <= sendbuf.Length && sendbuf[..length] == Kept(InFlight())
      requires inflightMsgid > 0 && length == inflightLen
      modifies net`wire, net`writeGrants, clock, this`lastSent, this`ops, this`moments
      ensures Valid() && ops == old(ops) + [op] && op.Resending? && op.w <= length
      ensures net.wire == old(net.wire) + Kept(InFlight())[..op.w]
      ensures SendMet(old(Outside()), length, deadline, op.w, op.at, Outside())
      ensures moments == old(moments) + [Moment(old(Outside()), deadline, Outside())]
      ensures rc == if op.w == length then SUCCESS else FAILURE
    {
      hide Timing.Lived, Session.Run, Transport.Push;
      ghost var before, w, packet, e := Run(origin, ops).value, 0, Kept(InFlight()), Outside();
      rc, w := SendPacket(length, deadline, Other(packet));
      op := Resending(w, clock.now);
      SendOnWire(Other(packet), w);
      RunResends(origin, ops, w, clock.now);
      RecordSend(op, before.1, [SendEvent(Other(packet), w)], Moment(e, deadline, Outside()));
    }

    /** A recorded `closeSession`. */
    method Shut()
      requires Valid()
      modifies this`pingOutstanding, this`isconnected, this`inflightMsgid, this`inflightQoS, table, slots
      modifies this`ops, this`moments
      ensures Valid() && ops == old(ops) + [Close] && !isconnected
    {
      hide Timing.Lived, Session.Run, Transport.Push;
      ghost var before := Run(origin, ops).value;
      CloseSession();
      OneEvent(Closed(before.0.clean));
      RunExtends(origin, ops, Close);
      Record(Close, before.1, [Closed(before.0.clean)]);
    }

    /** What `publish` does with the acknowledgement it has waited for. */
    method Settle() returns (rc: int, ghost op: Op)
      requires Valid() && (last == PUBACK || last == PUBCOMP)
      requires !cleansession ==> last == if inflightQoS == 1 then PUBACK else PUBCOMP
      modifies this`inflightMsgid, this`ops, this`moments
      ensures Valid() && ops == old(ops) + [op] && op.TakeAck?
      ensures rc == if DecodeAck(readbuf[..], AckOut(0, 0, op.garbage)).0 == 1 then SUCCESS else FAILURE
    {
      hide Timing.Lived, Session.Run, Transport.Push;
      ghost var before := Run(origin, ops).value;
      var garbage: ushort := *;
      op := TakeAck(garbage);
      rc := ClearSlot(garbage);
      RunExtends(origin, ops, op);
      Record(op, before.1, []);
    }

    method ClearSlot(garbage: ushort) returns (rc: int)
      modifies this`inflightMsgid
      ensures Now() == Acked(old(Now()), garbage)
      ensures rc == if DecodeAck(readbuf[..], AckOut(0, 0, garbage)).0 == 1 then SUCCESS else FAILURE
    {
      var code, ack := DeserializeAck(readbuf, AckOut(0, 0, garbage));
      if code != 1 { return FAILURE; }
      if inflightMsgid == ack.id { inflightMsgid := 0; }
      rc := SUCCESS;
    }

    /** The acknowledgement was taken exactly when the last cycle returned its type, and then it decides. */
    ghost predicate Verdict(rc: int, qos: nat, cycles: seq<Op>, ack: seq<Op>)
      reads this, readbuf
    {
      && (ack != [] <==> cycles != [] && last == if qos == 1 then PUBACK else PUBCOMP)
      && (ack != [] && ack[0].TakeAck? ==>
        (rc == SUCCESS <==> DecodeAck(readbuf[..], AckOut(0, 0, ack[0].garbage)).0 == 1))
    }

    method AwaitAck(qos: nat, deadline: int) returns (rc: int, ghost cycles: seq<Op>, ghost ack: seq<Op>)
      requires Valid() && 1 <= qos <= 2 && (!cleansession ==> inflightQoS == qos)
      modifies sendbuf, readbuf, table, slots, net, clock, this
      ensures Valid() && origin == old(origin) && ops == old(ops) + cycles + ack
      ensures CyclesOnly(cycles) && AtMostOneAck(ack) && (!old(isconnected) ==> !isconnected)
      ensures (rc == SUCCESS || rc == FAILURE) && (rc == SUCCESS ==> ack != []) && Verdict(rc, qos, cycles, ack)
      ensures WaitEnds(cycles, AckKind(qos), last, deadline, clock.now)
      ensures old(net.wire) <= net.wire
    {
      hide Timing.Lived, Session.Run, Transport.Push;
      var kind := if qos == 1 then PUBACK else PUBCOMP;
      ghost var codes, pace;
      ghost var t0 := clock.Value();
      rc, cycles, codes, pace := Waitfor(kind, deadline);
      WaitedOut(t0, pace, deadline, codes != [] && (rc == kind || rc < 0), clock.Value());
      ack := [];
      if rc == kind {
        ghost var op;
        rc, op := Settle();
        ack := [op];
      } else {
        rc := FAILURE;
      }
    }

    /** The inner `publish` after its `sendPacket`: waiting for the acknowledgement that ends the delivery,
        and closing the session after any failure. */
    method FinishPublish(sent: int, qos: nat, deadline: int)
      returns (rc: int, ghost cycles: seq<Op>, ghost ack: seq<Op>)
      requires Valid() && (1 <= qos <= 2 && !cleansession ==> inflightQoS == qos)
      requires sent == SUCCESS || sent == FAILURE
      modifies sendbuf, readbuf, table, slots, net, clock, this
      ensures Valid() && origin == old(origin)
      ensures ops == old(ops) + cycles + ack + if rc == SUCCESS then [] else [Close]
      ensures Ending(rc, qos, cycles, ack) && (1 <= qos <= 2 ==> Verdict(rc, qos, cycles, ack))
      ensures sent == SUCCESS && 1 <= qos <= 2 ==> WaitEnds(cycles, AckKind(qos), last, deadline, clock.now)
      ensures sent != SUCCESS ==> rc == sent && cycles == [] && ack == []
      ensures sent == SUCCESS && qos == 0 ==> rc == SUCCESS
      ensures rc != SUCCESS || !old(isconnected) ==> !isconnected
      ensures old(net.wire) <= net.wire
    {
      hide Timing.Lived, Session.Run, Transport.Push, Valid;
      rc, cycles, ack := sent, [], [];
      if rc == SUCCESS && 1 <= qos <= 2 {
        rc, cycles, ack := AwaitAck(qos, deadline);
      }
      if rc != SUCCESS { Shut(); }
    }

    /** `PacketId::getNext`, recorded. */
    method TakePacketId() returns (id: ushort)
      requires Valid()
      modifies this`nextId, this`ops, this`moments
      ensures Valid() && ops == old(ops) + [TakeId] && id == nextId == QoS2Ids.NextId(old(nextId))
    {
      ghost var before := Run(origin, ops).value;
      nextId := QoS2Ids.NextId(nextId);
      id := nextId;
      RunExtends(origin, ops, TakeId);
      Record(TakeId, before.1, []);
    }

    /** `memcpy(pubbuf, sendbuf, len)` and the fields beside it. */
    method CopyToSlot(len: nat, ghost p: Publish, qos: nat, id: ushort)
      requires Shape() && len <= sendbuf.Length && sendbuf[..len] == p.Encoding() && p.qos == qos && p.id == id
      modifies pubbuf, this`inflightMsgid, this`inflightLen, this`inflightQoS
      ensures Now() == old(Now()).(inflight := Stored(old(InFlight()), p))
    {
      forall i | 0 <= i < len { pubbuf[i] := sendbuf[i]; }
      assert pubbuf[..] == sendbuf[..len] + old(pubbuf[..])[len..];
      inflightMsgid, inflightLen, inflightQoS := id, len, qos;
      assert readbuf[..] == old(readbuf[..]) && table[..] == old(table[..]) && slots[..] == old(slots[..]);
    }

    method KeepPublish(len: nat, ghost p: Publish, qos: nat, id: ushort)
      requires Valid() && len <= sendbuf.Length && sendbuf[..len] == p.Encoding() && p.qos == qos && p.id == id
      requires !cleansession && p.Legal() && qos <= 2
      modifies pubbuf, this`inflightMsgid, this`inflightLen, this`inflightQoS, this`ops, this`moments
      ensures Valid() && ops == old(ops) + [Session.Keep(p)] && inflightQoS == qos
    {
      ghost var before := Run(origin, ops).value;
      CopyToSlot(len, p, qos, id);
      RunExtends(origin, ops, Session.Keep(p));
      Record(Session.Keep(p), before.1, []);
    }

    method KeepIfPersistent(len: nat, ghost p: Publish, qos: nat, id: ushort) returns (ghost kept: seq<Op>)
      requires Valid() && len <= sendbuf.Length && sendbuf[..len] == p.Encoding() && p.qos == qos && p.id == id
      requires p.Legal() && qos <= 2
      modifies pubbuf, this`inflightMsgid, this`inflightLen, this`inflightQoS, this`ops, this`moments
      ensures Valid() && ops == old(ops) + kept && kept == if cleansession then [] else [Session.Keep(p)]
      ensures (!cleansession ==> inflightQoS == qos) && sendbuf[..len] == p.Encoding()
    {
      if !cleansession { KeepPublish(len, p, qos, id); }
      kept := if cleansession then [] else [Session.Keep(p)];
      assert ops == old(ops) + kept;
    }

    /** Keeping the serialized publish, in a persistent session, and sending it. */
    method SendPublish(len: nat, deadline: int, ghost p: Publish, qos: nat, id: ushort)
      returns (rc: int, ghost sends: seq<Op>)
      requires Valid() && len <= sendbuf.Length && sendbuf[..len] == p.Encoding() && p.qos == qos && p.id == id
      requires p.Legal() && qos <= 2
      modifies net`wire, net`writeGrants, clock, pubbuf
      modifies this`lastSent, this`inflightMsgid, this`inflightLen, this`inflightQoS, this`ops, this`moments
      ensures Valid() && ops == old(ops) + sends && Sends(sends, p, !cleansession)
      ensures !cleansession ==> inflightQoS == qos
      ensures rc == if sends[|sends| - 1].w == |p.Encoding()| then SUCCESS else FAILURE
      ensures sends[|sends| - 1].w == Push(old(Outside()), |p.Encoding()|, deadline).0 <= |p.Encoding()|
      ensures net.wire == old(net.wire) + p.Encoding()[..sends[|sends| - 1].w]
    {
      hide Timing.Lived, Session.Run, Transport.Push, Sends, Valid;
      sends := KeepIfPersistent(len, p, qos, id);
      ghost var op;
      rc, op := Transmit(len, deadline, p.Encoding());
      KeptThenSent(sends, op, p);
      sends := sends + [op];
    }

    method PublishSerialized(len: nat, deadline: int, ghost p: Publish, qos: nat, id: ushort)
      returns (rc: int, ghost sends: seq<Op>, ghost cycles: seq<Op>, ghost ack: seq<Op>)
      requires Valid() && len <= sendbuf.Length && sendbuf[..len] == p.Encoding() && p.qos == qos && p.id == id
      requires p.Legal() && qos <= 2
      modifies sendbuf, readbuf, pubbuf, table, slots, net, clock, this
      ensures Valid() && origin == old(origin) && Sends(sends, p, !old(cleansession))
      ensures ops == old(ops) + sends + cycles + ack + if rc == SUCCESS then [] else [Close]
      ensures Ending(rc, qos, cycles, ack) && (rc != SUCCESS ==> !isconnected)
      ensures if qos == 0 then rc == SUCCESS <==> sends[|sends| - 1].w == |p.Encoding()|
              else Verdict(rc, qos, cycles, ack)
      ensures InTime(sends, cycles, p, old(Outside()), last, deadline, clock.now, old(net.wire), net.wire)
    {
      hide Valid, Transport.Push;
      rc, sends := SendPublish(len, deadline, p, qos, id);
      rc, cycles, ack := FinishPublish(rc, qos, deadline);
    }

    method TakeIdFor(qos: nat, id0: ushort) returns (id: ushort)
      requires Valid() && qos <= 2
      modifies this`nextId, this`ops, this`moments
      ensures Valid() && ops == old(ops) + IdStep(qos)
      ensures id == if qos > 0 then QoS2Ids.NextId(old(nextId)) else id0
    {
      id := id0;
      if qos == 1 || qos == 2 { id := TakePacketId(); }
      assert ops == old(ops) + IdStep(qos);
    }

    method PublishWithId(topic: seq<byte>, payload: seq<byte>, id: ushort, qos: nat, retained: nat, deadline: int)
      returns (rc: int, ghost sends: seq<Op>, ghost cycles: seq<Op>, ghost ack: seq<Op>)
      requires Valid() && qos <= 2 && retained < 2 && |topic| < 65536 && |topic| + |payload| + 4 <= MAX_REMAINING_LENGTH
      modifies sendbuf, readbuf, pubbuf, table, slots, net, clock, this
      ensures Valid() && origin == old(origin)
      ensures ops == old(ops) + sends + cycles + ack + Failing(sends, rc)
      ensures Course(sendbuf.Length, PublishCodec.Publish(0, qos, retained, id, topic, payload), !old(cleansession),
                     rc, sends, cycles, ack)
      ensures rc != SUCCESS && sends != [] ==> !isconnected
      ensures qos > 0 && sends != [] ==> Verdict(rc, qos, cycles, ack)
      ensures sends != [] ==> InTime(sends, cycles, PublishCodec.Publish(0, qos, retained, id, topic, payload),
                                     old(Outside()), last, deadline, clock.now, old(net.wire), net.wire)
    {
      hide Timing.Lived, Session.Run, Transport.Push;
      ghost var p := PublishCodec.Publish(0, qos, retained, id, topic, payload);
      rc, sends, cycles, ack := FAILURE, [], [], [];
      var len := SerializePublish(sendbuf, sendbuf.Length, 0, qos, retained, id, CString(topic), payload);
      if len <= 0 { return; }
      rc, sends, cycles, ack := PublishSerialized(len, deadline, p, qos, id);
    }

    method PublishConnected(topic: seq<byte>, payload: seq<byte>, id0: ushort, qos: nat, retained: nat)
      returns (rc: int, id: ushort, ghost sends: seq<Op>, ghost cycles: seq<Op>, ghost ack: seq<Op>)
      requires Valid() && qos <= 2 && retained < 2 && |topic| < 65536 && |topic| + |payload| + 4 <= MAX_REMAINING_LENGTH
      modifies sendbuf, readbuf, pubbuf, table, slots, net, clock, this
      ensures Valid() && origin == old(origin) && id == if qos > 0 then QoS2Ids.NextId(old(nextId)) else id0
      ensures ops == old(ops) + IdStep(qos) + sends + cycles + ack + Failing(sends, rc)
      ensures var p := PublishCodec.Publish(0, qos, retained, id, topic, payload);
        && Course(sendbuf.Length, p, !old(cleansession), rc, sends, cycles, ack)
        && (sends != [] ==>
          InTime(sends, cycles, p, old(Outside()), last, old(clock.now) + commandTimeout, clock.now,
                 old(net.wire), net.wire))
      ensures rc != SUCCESS && sends != [] ==> !isconnected
      ensures qos > 0 && sends != [] ==> Verdict(rc, qos, cycles, ack)
    {
      hide Timing.Lived, Session.Run, Transport.Push, Course, InTime, Ending, Valid;
      id := TakeIdFor(qos, id0);
      var deadline := clock.now + commandTimeout;
      rc, sends, cycles, ack := PublishWithId(topic, payload, id, qos, retained, deadline);
    }

    /** The public `publish`: take an id, serialize, keep the packet in a persistent session, send it and
        wait for the acknowledgement that ends its delivery. */
    method Publish(topic: seq<byte>, payload: seq<byte>, id0: ushort, qos: nat, retained: nat)
      returns (rc: int, id: ushort, ghost sends: seq<Op>, ghost cycles: seq<Op>, ghost ack: seq<Op>)
      requires Valid() && qos <= 2 && retained < 2 && |topic| < 65536 && |topic| + |payload| + 4 <= MAX_REMAINING_LENGTH
      modifies sendbuf, readbuf, pubbuf, table, slots, net, clock, this
      ensures Valid() && origin == old(origin)
      ensures !old(isconnected) ==> rc == FAILURE && id == id0 && ops == old(ops)
      ensures old(isconnected) ==> id == if qos > 0 then QoS2Ids.NextId(old(nextId)) else id0
      ensures old(isconnected) ==> ops == old(ops) + IdStep(qos) + sends + cycles + ack + Failing(sends, rc)
      ensures old(isconnected) ==>
        var p := PublishCodec.Publish(0, qos, retained, id, topic, payload);
        && Course(sendbuf.Length, p, !old(cleansession), rc, sends, cycles, ack)
        && (sends != [] ==>
          InTime(sends, cycles, p, old(Outside()), last, old(clock.now) + commandTimeout, clock.now,
                 old(net.wire), net.wire))
        && (rc != SUCCESS && sends != [] ==> !isconnected)
        && (qos > 0 && sends != [] ==> Verdict(rc, qos, cycles, ack))
    {
      hide Timing.Lived, Session.Run, Transport.Push;
      rc, id, sends, cycles, ack := FAILURE, id0, [], [], [];
      if isconnected { rc, id, sends, cycles, ack := PublishConnected(topic, payload, id0, qos, retained); }
    }

    /** `connect`'s assignments, recorded. */
    method TakeOptions(interval: nat, clean: bool)
      requires Valid() && !isconnected
      modifies this`keepAliveInterval, this`cleansession, this`ops, this`moments
      ensures Valid() && ops == old(ops) + [SetOptions(interval, clean)]
      ensures keepAliveInterval == interval && cleansession == clean && InFlight() == old(InFlight())
    {
      hide Timing.Lived, Session.Run, Transport.Push;
      ghost var before := Run(origin, ops).value;
      keepAliveInterval, cleansession := interval, clean;
      RunExtends(origin, ops, SetOptions(interval, clean));
      Record(SetOptions(interval, clean), before.1, []);
    }

    method Countdown()
      modifies this`lastReceived
      ensures Timers() == Heard(old(Timers()), clock.now)
    {
      if keepAliveInterval > 0 { lastReceived := clock.now + Seconds(keepAliveInterval); }
    }

    method StartReceiveTimer() returns (ghost op: Op)
      requires Valid()
      modifies this`lastReceived, this`ops, this`moments
      ensures Valid() && ops == old(ops) + [op] && op.StartReceived?
      ensures lastReceived == if keepAliveInterval > 0 then clock.now + 1000 * keepAliveInterval else old(lastReceived)
    {
      hide Timing.Lived, Session.Run, Transport.Push;
      ghost var before := Run(origin, ops).value;
      Countdown();
      op := StartReceived(clock.now);
      RunExtends(origin, ops, op);
      Record(op, before.1, []);
    }

    /** The session is up. */
    method Opened()
      requires Valid()
      modifies this`isconnected, this`pingOutstanding, this`ops, this`moments
      ensures Valid() && ops == old(ops) + [Open] && isconnected && !pingOutstanding
    {
      hide Timing.Lived, Session.Run, Transport.Push;
      ghost var before := Run(origin, ops).value;
      isconnected, pingOutstanding := true, false;
      OneEvent(Event.Opened);
      RunExtends(origin, ops, Open);
      Record(Open, before.1, [Event.Opened]);
    }

    method SendConnectPacket(o: ConnectCodec.ConnectData, deadline: int) returns (rc: int, ghost sent: seq<Op>)
      requires Valid() && Connectable(o)
      modifies sendbuf, net`wire, net`writeGrants, clock, this`lastSent, this`ops, this`moments
      ensures Valid() && ops == old(ops) + sent && PacketSent(sent, o, sendbuf.Length, rc)
      ensures InFlight() == old(InFlight())
      ensures FirstWentOut(sent, old(Outside()), deadline, old(net.wire), net.wire)
    {
      hide Timing.Lived, Session.Run, Session.Drawn, Transport.Push;
      rc, sent := FAILURE, [];
      var len := ConnectCodec.SerializeConnect(sendbuf, sendbuf.Length, o);
      if len <= 0 { return; }
      ghost var op;
      rc, op := Transmit(len, deadline, ConnectCodec.Encoding(o));
      sent := [op];
    }

    method SendAndTime(o: ConnectCodec.ConnectData, deadline: int) returns (rc: int, ghost sent: seq<Op>)
      requires Valid() && Connectable(o)
      modifies sendbuf, net`wire, net`writeGrants, clock, this`lastSent, this`lastReceived, this`ops, this`moments
      ensures Valid() && ops == old(ops) + sent && ConnectSent(sent, o, sendbuf.Length, rc)
      ensures InFlight() == old(InFlight())
      ensures FirstWentOut(sent, old(Outside()), deadline, old(net.wire), net.wire)
    {
      hide Timing.Lived, Session.Run, Transport.Push, Valid;
      rc, sent := SendConnectPacket(o, deadline);
      if rc == SUCCESS {
        ghost var op;
        op := StartReceiveTimer();
        sent := sent + [op];
      }
    }

    /** Taking the options, sending CONNECT and starting the receive timer. */
    method SendConnect(o: ConnectCodec.ConnectData, deadline: int) returns (rc: int, ghost sent: seq<Op>)
      requires Valid() && !isconnected && Connectable(o)
      modifies sendbuf, net`wire, net`writeGrants, clock
      modifies this`keepAliveInterval, this`cleansession, this`lastSent, this`lastReceived, this`ops, this`moments
      ensures Valid() && ops == old(ops) + [SetOptions(o.keepAlive, o.clean != 0)] + sent
      ensures ConnectSent(sent, o, sendbuf.Length, rc)
      ensures rc == (if |sent| == 2 then SUCCESS else FAILURE) && |sent| <= 2
      ensures FirstWentOut(sent, old(Outside()), deadline, old(net.wire), net.wire)
      ensures cleansession == (o.clean != 0) && keepAliveInterval == o.keepAlive && InFlight() == old(InFlight())
    {
      hide Valid;
      TakeOptions(o.keepAlive, o.clean != 0);
      rc, sent := SendAndTime(o, deadline);
    }

    /** Waiting for CONNACK; its return code is the result. */
    method AwaitConnack(deadline: int) returns (rc: int, ghost cycles: seq<Op>)
      requires Valid()
      modifies sendbuf, readbuf, table, slots, net, clock, this
      ensures Valid() && origin == old(origin) && ops == old(ops) + cycles && CyclesOnly(cycles)
      ensures rc == ConnackResult(cycles, last, readbuf[..])
      ensures WaitEnds(cycles, CONNACK, last, deadline, clock.now)
      ensures !old(isconnected) ==> !isconnected && InFlight() == old(InFlight())
      ensures old(net.wire) <= net.wire
    {
      ghost var codes, pace;
      ghost var t0 := clock.Value();
      rc, cycles, codes, pace := Waitfor(CONNACK, deadline);
      WaitedOut(t0, pace, deadline, codes != [] && (rc == CONNACK || rc < 0), clock.Value());
      if rc == CONNACK {
        var code, out := ConnectCodec.DeserializeConnack(readbuf, ConnectCodec.ConnackOut(0, 0));
        rc := if code == 1 then out.rc else FAILURE;
      } else {
        rc := FAILURE;
      }
    }

    /** `memcpy(sendbuf, pubbuf, MAX_MQTT_PACKET_SIZE)` and sending it again. */
    method ResendKept(deadline: int) returns (rc: int, ghost op: Op)
      requires Valid() && inflightMsgid > 0
      modifies sendbuf, net`wire, net`writeGrants, clock, this`lastSent, this`ops, this`moments
      ensures Valid() && ops == old(ops) + [op] && op.Resending?
      ensures rc == if op.w == inflightLen then SUCCESS else FAILURE
      ensures op.w <= |Kept(InFlight())| && net.wire == old(net.wire) + Kept(InFlight())[..op.w]
      ensures op.w == Push(old(Outside()), inflightLen, deadline).0
    {
      SlotFits();
      forall i | 0 <= i < sendbuf.Length { sendbuf[i] := pubbuf[i]; }
      assert sendbuf[..inflightLen] == Kept(InFlight());
      rc, op := Retransmit(inflightLen, deadline);
    }

    lemma SlotFits()
      requires Valid() && inflightMsgid > 0
      ensures inflightLen <= pubbuf.Length && inflightQoS <= 2
    {
      RunSound(origin, ops);
      var p :| Holds(InFlight(), p);
    }

    /** The part of `connect` that sends the kept publish again, whatever CONNACK said: its result
        replaces the one so far. */
    method Republish(rc0: int, deadline: int) returns (rc: int, ghost more: seq<Op>)
      requires Valid() && !isconnected
      modifies sendbuf, readbuf, table, slots, net, clock, this
      ensures Valid() && origin == old(origin) && ops == old(ops) + more && !isconnected
      ensures old(inflightMsgid) > 0 ==> Republished(more, old(inflightQoS), rc)
      ensures old(inflightMsgid) == 0 ==>
        rc == rc0 && more == [] && last == old(last) && readbuf[..] == old(readbuf[..]) && Outside() == old(Outside())
      ensures old(inflightMsgid) > 0 ==>
        && more[0].w == Push(old(Outside()), old(inflightLen), deadline).0 <= |Kept(old(InFlight()))|
        && old(net.wire) + Kept(old(InFlight()))[..more[0].w] <= net.wire
      ensures old(net.wire) <= net.wire
    {
      rc, more := rc0, [];
      if inflightMsgid > 0 {
        SlotFits();
        ghost var op, cycles, ack;
        rc, op := ResendKept(deadline);
        rc, cycles, ack := FinishPublish(rc, inflightQoS, deadline);
        more := [op] + cycles + ack + if rc == SUCCESS then [] else [Close];
        PutTogether(old(ops), [op], cycles, ack, if rc == SUCCESS then [] else [Close]);
      }
    }

    /** `connect` after CONNECT went out. */
    method ConnectSentOut(deadline: int) returns (rc: int, ghost connack: seq<Op>, ghost more: seq<Op>)
      requires Valid() && !isconnected
      modifies sendbuf, readbuf, table, slots, net, clock, this
      ensures Valid() && origin == old(origin) && ops == old(ops) + connack + more && !isconnected
      ensures CyclesOnly(connack)
      ensures Settled(old(InFlight()), connack, more, rc, last, readbuf[..])
      ensures old(inflightMsgid) == 0 ==> WaitEnds(connack, CONNACK, last, deadline, clock.now)
      ensures old(net.wire) <= net.wire
    {
      rc, connack := AwaitConnack(deadline);
      rc, more := Republish(rc, deadline);
    }

    method ConnectFresh(o: ConnectCodec.ConnectData)
      returns (rc: int, ghost sent: seq<Op>, ghost connack: seq<Op>, ghost more: seq<Op>)
      requires Valid() && Connectable(o) && !isconnected
      modifies sendbuf, readbuf, table, slots, net, clock, this
      ensures Valid() && origin == old(origin) && !isconnected
      ensures ops == old(ops) + [SetOptions(o.keepAlive, o.clean != 0)] + sent + connack + more
      ensures ConnectCourse(o, sendbuf.Length, rc, sent, connack, more)
      ensures |sent| == 2 ==> Settled(old(InFlight()), connack, more, rc, last, readbuf[..])
      ensures ConnectInTime(sent, connack, old(inflightMsgid), old(Outside()), last,
                            old(clock.now) + commandTimeout, clock.now, old(net.wire), net.wire)
    {
      hide Timing.Lived, Session.Run, Transport.Push, Settled, FirstWentOut, ConnectSent, WaitEnds, Valid;
      var deadline := clock.now + commandTimeout;
      connack, more := [], [];
      ghost var e, wire := Outside(), net.wire;
      rc, sent := SendConnect(o, deadline);
      if rc == SUCCESS {
        ghost var wire' := net.wire;
        rc, connack, more := ConnectSentOut(deadline);
        StillWentOut(sent, e, deadline, wire, wire', net.wire);
      }
    }

    /** `connect`: the options, CONNECT, CONNACK, the kept publish once more, and the session is up exactly
        when the last of these succeeded. */
    method Connect(o: ConnectCodec.ConnectData)
      returns (rc: int, ghost sent: seq<Op>, ghost connack: seq<Op>, ghost more: seq<Op>)
      requires Valid() && Connectable(o)
      modifies sendbuf, readbuf, table, slots, net, clock, this
      ensures Valid() && origin == old(origin)
      ensures old(isconnected) ==> rc == FAILURE && ops == old(ops)
      ensures !old(isconnected) ==>
        && ops == old(ops) + [SetOptions(o.keepAlive, o.clean != 0)] + sent + connack + more + OpenStep(rc)
        && ConnectCourse(o, sendbuf.Length, rc, sent, connack, more)
        && (rc == SUCCESS <==> isconnected) && (rc == SUCCESS ==> !pingOutstanding)
      ensures !old(isconnected) && |sent| == 2 ==> Settled(old(InFlight()), connack, more, rc, last, readbuf[..])
      ensures !old(isconnected) ==>
        ConnectInTime(sent, connack, old(inflightMsgid), old(Outside()), last,
                      old(clock.now) + commandTimeout, clock.now, old(net.wire), net.wire)
    {
      hide Timing.Lived, Session.Run, Transport.Push;
      rc, sent, connack, more := FAILURE, [], [], [];
      if isconnected { return; }
      rc, sent, connack, more := ConnectFresh(o);
      if rc == SUCCESS { Opened(); }
    }

    method SendDisconnect(deadline: int) returns (rc: int, ghost op: Op)
      requires Valid()
      modifies sendbuf, net`wire, net`writeGrants, clock, this`lastSent, this`ops, this`moments
      ensures Valid() && ops == old(ops) + [op]
      ensures op.Sending? && op.packet == [224, 0] && op.w <= 2 && net.wire == old(net.wire) + [224, 0][..op.w]
      ensures op.w == Push(old(Outside()), |op.packet|, deadline).0
      ensures rc == if op.w == |op.packet| then SUCCESS else FAILURE
    {
      hide Timing.Lived, Session.Run, Transport.Push;
      HeaderByte(DISCONNECT, 0, 0, 0);
      var len := WriteHeader(sendbuf, Header(DISCONNECT, 0, 0, 0), 0);
      rc, op := Transmit(len, deadline, [224, 0]);
    }

    /** `disconnect`: DISCONNECT is sent, and the session closed whatever becomes of it. */
    method Disconnect() returns (rc: int, ghost op: Op)
      requires Valid()
      modifies sendbuf, net`wire, net`writeGrants, clock, table, slots, this
      ensures Valid() && origin == old(origin) && ops == old(ops) + [op] + [Close] && !isconnected
      ensures op.Sending? && op.packet == [224, 0] && op.w <= 2 && net.wire == old(net.wire) + [224, 0][..op.w]
      ensures op.w == Push(old(Outside()), |op.packet|, old(clock.now) + commandTimeout).0
      ensures rc == if op.w == |op.packet| then SUCCESS else FAILURE
    {
      hide Timing.Lived, Session.Run, Transport.Push;
      rc, op := SendDisconnect(clock.now + commandTimeout);
      Shut();
    }

    /** `setMessageHandler` on the client's table. */
    method SetTopicHandler(filter: seq<byte>, h: Option<Handler>) returns (rc: int)
      requires Valid()
      modifies slots, this`ops, this`moments
      ensures Valid() && ops == old(ops) + [Handle(filter, h)]
      ensures (rc, slots[..]) == SetHandler(old(slots[..]), filter, h)
    {
      hide Timing.Lived, Session.Run, Transport.Push;
      ghost var before := Run(origin, ops).value;
      rc := SetMessageHandler(slots, filter, h);
      assert readbuf[..] == old(readbuf[..]) && pubbuf[..] == old(pubbuf[..]) && table[..] == old(table[..]);
      RunExtends(origin, ops, Handle(filter, h));
      Record(Handle(filter, h), before.1, []);
    }

    method SetDefaultHandler(h: Option<Handler>)
      requires Valid()
      modifies this`default, this`ops, this`moments
      ensures Valid() && ops == old(ops) + [SetDefault(h)] && default == h
    {
      hide Timing.Lived, Session.Run, Transport.Push;
      ghost var before := Run(origin, ops).value;
      default := h;
      RunExtends(origin, ops, SetDefault(h));
      Record(SetDefault(h), before.1, []);
    }
  }

  lemma RunSends(s: State, ops: seq<Op>, packet: seq<byte>, w: nat, at: int)
    requires Run(s, ops).Some? && w <= |packet|
    ensures var (s', es) := Run(s, ops).value;
      Run(s, ops + [Sending(packet, w, at)])
      == Some((s'.(alive := Send(s'.alive, Other(packet), w, at)), es + [SendEvent(Other(packet), w)]))
  {
  }

  lemma RunResends(s: State, ops: seq<Op>, w: nat, at: int)
    requires Run(s, ops).Some?
    requires var s' := Run(s, ops).value.0; s'.inflight.id > 0 && w <= s'.inflight.len
    ensures var (s', es) := Run(s, ops).value;
      var p := Other(Kept(s'.inflight));
      Run(s, ops + [Resending(w, at)]) == Some((s'.(alive := Send(s'.alive, p, w, at)), es + [SendEvent(p, w)]))
  {
  }

  /** What a cycle has read, before anything is sent. */
  predicate Answerable(i: Input) {
    && i.ackW <= 4 && i.pingW <= 2
    && (i.out.Packet? ==> i.out.kind == Kind(Peek(i.buf, 0)))
    && (i.out.NoHeader? ==> i.out.rc <= 0)
  }

  lemma ClosedIsSilent(es: seq<Event>, e: Event)
    requires e.Closed? || e.Opened?
    ensures Wire(es + [e]) == Wire(es) && Calls(es + [e]) == Calls(es)
  {
  }

  lemma MessageSame(s: State, code: int, m: PublishOut, i: Input, j: Input)
    requires SameButPing(i, j)
    ensures Session.OnMessage(s, code, m, i) == Session.OnMessage(s, code, m, j)
  {
  }

  lemma IdSame(s: State, kind: nat, code: int, id: ushort, i: Input, j: Input)
    requires SameButPing(i, j)
    ensures Session.OnId(s, kind, code, id, i) == Session.OnId(s, kind, code, id, j)
  {
  }

  lemma TypeSame(i: Input, j: Input)
    requires SameButPing(i, j)
    ensures i.Type() == j.Type() && i.out == j.out && i.buf == j.buf && i.garbage == j.garbage && i.readAt == j.readAt
    ensures i.Msg() == j.Msg() && i.AckId() == j.AckId() && Replies(i) == Replies(j)
  {
  }

  lemma PacketSame(s: State, i: Input, j: Input)
    requires SameButPing(i, j)
    ensures Session.OnPacket(s, i) == Session.OnPacket(s, j) && Replies(i) == Replies(j)
  {
    hide Session.OnMessage, Session.OnId, Timing.Replies;
    TypeSame(i, j);
    if i.Type() == PUBLISH {
      MessageSame(s, DecodePublish(i.buf, Unset(i.garbage)).0, i.Msg(), i, j);
    } else if i.Type() == PUBREC || i.Type() == PUBREL {
      IdSame(s, i.Type(), DecodeAck(i.buf, AckOut(0, 0, i.garbage)).0, i.AckId(), i, j);
    }
  }

  lemma HandledSame(s: State, i: Input, j: Input)
    requires SameButPing(i, j)
    ensures Handled(s, i) == Handled(s, j) && i.Type() == j.Type()
  {
    hide Session.OnPacket, Timing.Replies;
    TypeSame(i, j);
    PacketSame(Read(s, i), i, j);
  }

  lemma MetTogether(s: State, e: Env, until: int, i: Input, j: Input, between: Env, e': Env)
    requires SameButPing(i, j) && i.readAt == e.time.now && AckMet(Replies(i), e, until, i, between)
    requires if Handled(s, i).stop then e' == between else CheckMet(Handled(s, i).s.alive, between, j, e')
    ensures CycleMet(s, e, until, j, e')
  {
    PacketSame(Read(s, i), i, j);
  }

  lemma ReadSame(src: Source, b: seq<byte>, i: Input, j: Input, src': Source)
    requires |b| >= 5 && SameButPing(i, j) && Answerable(i) && Drew(src, b, i, src') && j.pingW <= 2
    ensures Answerable(j) && Drew(src, b, j, src')
  {
  }

  lemma CycleLast(s: State, i: Input)
    ensures Session.Cycle(s, i).s.last == Session.Cycle(s, i).rc
  {
    FinishSame(WithKeepAlive(Handled(s, i), i), i.Type());
  }

  /** A cycle leaves a connected session up exactly when its code is that of an expected packet, or of none. */
  lemma CycleConnected(s: State, i: Input)
    ensures var c := Session.Cycle(s, i); c.s.connected <==> s.connected && Expected(c.rc)
  {
    OnPacketSame(Read(s, i), i);
    HandledCode(Read(s, i), i);
    EndConnected(Handled(s, i), i);
  }

  lemma HandledCode(s: State, i: Input)
    ensures var rc := Session.OnPacket(s, i).rc;
      if rc == SUCCESS then Expected(i.Type()) else rc == FAILURE || (rc == i.Type() && !Expected(rc))
  {
  }

  lemma EndConnected(p: Part, i: Input)
    requires if p.rc == SUCCESS then Expected(i.Type()) else !Expected(p.rc)
    ensures var q := Finish(WithKeepAlive(p, i), i.Type()); q.s.connected <==> p.s.connected && Expected(q.rc)
  {
  }

  /** The cycle read what the source gave. */
  predicate Drew(src: Source, b: seq<byte>, i: Input, src': Source)
    requires |b| >= 5
  {
    var (out, b', s') := ReadOutcome(src, b);
    i.out == out && i.buf == b' && src' == s'
  }

  /** The course of a publish: nothing at all when the packet does not fit, else keeping, sending, waiting. */
  predicate Course(size: nat, p: Publish, keep: bool, rc: int, sends: seq<Op>, cycles: seq<Op>, ack: seq<Op>) {
    if PacketLen(p.Length()) > size then sends == [] && cycles == [] && ack == [] && rc == FAILURE
    else
      && Sends(sends, p, keep) && Ending(rc, p.qos, cycles, ack)
      && (p.qos == 0 ==> (rc == SUCCESS <==> sends[|sends| - 1].w == |p.Encoding()|))
  }

  /** What MQTT lets a caller of `connect` pass. */
  predicate Connectable(o: ConnectCodec.ConnectData) {
    (o.version == 3 || o.version == 4) && ConnectCodec.ConnectLength(o) <= MAX_REMAINING_LENGTH
  }

  /** CONNECT goes out when it fits. */
  predicate PacketSent(sent: seq<Op>, o: ConnectCodec.ConnectData, size: nat, rc: int) {
    if PacketLen(ConnectCodec.ConnectLength(o)) > size then sent == [] && rc == FAILURE
    else
      && |sent| == 1 && sent[0].Sending? && sent[0].packet == ConnectCodec.Encoding(o)
      && rc == if sent[0].w == |sent[0].packet| then SUCCESS else FAILURE
  }

  /** And once it is out, the receive timer starts. */
  predicate ConnectSent(sent: seq<Op>, o: ConnectCodec.ConnectData, size: nat, rc: int) {
    if rc == SUCCESS then |sent| == 2 && PacketSent(sent[..1], o, size, rc) && sent[1].StartReceived?
    else PacketSent(sent, o, size, rc)
  }

  /** One resend, then the course of a publish. */
  ghost predicate Republished(more: seq<Op>, qos: nat, rc: int) {
    && more != [] && more[0].Resending?
    && exists cycles, ack :: Ending(rc, qos, cycles, ack)
         && more == [more[0]] + cycles + ack + if rc == SUCCESS then [] else [Close]
  }

  /** What the wait for CONNACK makes of these cycles: its code when it came last. */
  function ConnackResult(cycles: seq<Op>, last: int, readbuf: seq<byte>): int {
    if cycles != [] && last == CONNACK then ConnectCodec.ConnackCode(readbuf) else FAILURE
  }

  /** The result of a connect whose CONNECT went out: that of sending the kept publish again, or without one what
      CONNACK said. */
  ghost predicate Settled(f: Inflight, connack: seq<Op>, more: seq<Op>, rc: int, last: int, readbuf: seq<byte>) {
    if f.id > 0 then Republished(more, f.qos, rc) else more == [] && rc == ConnackResult(connack, last, readbuf)
  }

  function AckKind(qos: nat): nat {
    if qos == 1 then PUBACK else PUBCOMP
  }

  /** A wait ended because its last cycle returned the awaited type or failed, or because its time was up. */
  predicate WaitEnds(cycles: seq<Op>, kind: int, last: int, deadline: int, now: int) {
    (cycles != [] && (last == kind || last < 0)) || now >= deadline
  }

  /** As much of the first packet went out as network and clock let through. */
  predicate FirstWentOut(sent: seq<Op>, e: Env, deadline: int, wire: seq<byte>, wire': seq<byte>) {
    sent != [] ==>
      && sent[0].Sending? && sent[0].w == Push(e, |sent[0].packet|, deadline).0
      && sent[0].w <= |sent[0].packet| && wire + sent[0].packet[..sent[0].w] <= wire'
  }

  lemma StillWentOut(sent: seq<Op>, e: Env, deadline: int, wire: seq<byte>, wire': seq<byte>, wire'': seq<byte>)
    requires FirstWentOut(sent, e, deadline, wire, wire') && wire' <= wire''
    ensures FirstWentOut(sent, e, deadline, wire, wire'')
  {
  }

  /** As much of the PUBLISH went out as network and clock let through, and when that was all of it the wait for its
      acknowledgement ended as waits do. */
  predicate InTime(sends: seq<Op>, cycles: seq<Op>, p: Publish, e: Env, last: int, deadline: int, now: int,
                   wire: seq<byte>, wire': seq<byte>) {
    && sends != [] && sends[|sends| - 1].Sending?
    && sends[|sends| - 1].w == Push(e, |p.Encoding()|, deadline).0
    && sends[|sends| - 1].w <= |p.Encoding()| && wire + p.Encoding()[..sends[|sends| - 1].w] <= wire'
    && (1 <= p.qos <= 2 && sends[|sends| - 1].w == |p.Encoding()| ==>
      WaitEnds(cycles, AckKind(p.qos), last, deadline, now))
  }

  /** The same of CONNECT and, when no publish is kept, of the wait for CONNACK. */
  predicate ConnectInTime(sent: seq<Op>, connack: seq<Op>, kept: ushort, e: Env, last: int, deadline: int, now: int,
                          wire: seq<byte>, wire': seq<byte>) {
    && FirstWentOut(sent, e, deadline, wire, wire')
    && (|sent| == 2 && kept == 0 ==> WaitEnds(connack, CONNACK, last, deadline, now))
  }

  lemma PutTogether<T>(a: seq<T>, b: seq<T>, c: seq<T>, d: seq<T>, e: seq<T>)
    ensures a + b + c + d + e == a + (b + c + d + e)
  {
  }

  predicate ConnectCourse(o: ConnectCodec.ConnectData, size: nat, rc: int,
      sent: seq<Op>, connack: seq<Op>, more: seq<Op>) {
    && ConnectSent(sent, o, size, if |sent| == 2 then SUCCESS else FAILURE)
    && (|sent| < 2 ==> rc == FAILURE && connack == [] && more == [])
    && CyclesOnly(connack)
  }

  function OpenStep(rc: int): seq<Op> {
    if rc == SUCCESS then [Open] else []
  }

  /** A publish waits in cycles, only for QoS 1 and 2, and succeeds there only with an acknowledgement. */
  predicate Ending(rc: int, qos: nat, cycles: seq<Op>, ack: seq<Op>) {
    && CyclesOnly(cycles) && AtMostOneAck(ack)
    && (!(1 <= qos <= 2) ==> cycles == [] && ack == [])
    && (1 <= qos <= 2 && rc == SUCCESS ==> ack != [])
  }

  predicate AtMostOneAck(ops: seq<Op>) {
    ops == [] || (|ops| == 1 && ops[0].TakeAck?)
  }

  function IdStep(qos: nat): seq<Op> {
    if qos > 0 then [TakeId] else []
  }

  /** A publish that got as far as sending ends by closing the session when it fails. */
  function Failing(sends: seq<Op>, rc: int): seq<Op> {
    if sends != [] && rc != SUCCESS then [Close] else []
  }

  /** The packet is kept, when it is to be, and then handed to `sendPacket`. */
  predicate Sends(sends: seq<Op>, p: Publish, keep: bool) {
    && |sends| == (if keep then 2 else 1)
    && (keep ==> sends[0] == Session.Keep(p))
    && sends[|sends| - 1].Sending? && sends[|sends| - 1].packet == p.Encoding()
  }

  /** None of these codes ends a wait for `kind`. */
  predicate NoneEnds(kind: int, codes: seq<int>) {
    forall k :: 0 <= k < |codes| ==> codes[k] != kind && codes[k] >= 0
  }

  lemma NoneEndsGrows(kind: int, codes: seq<int>, rc: int)
    requires NoneEnds(kind, codes)
    ensures rc != kind && rc >= 0 ==> NoneEnds(kind, codes + [rc])
  {
  }

  function LastOf(codes: seq<int>, none: int): int {
    if codes == [] then none else codes[|codes| - 1]
  }

  function Front(codes: seq<int>): seq<int> {
    if codes == [] then [] else codes[..|codes| - 1]
  }

  lemma KeptThenSent(kept: seq<Op>, op: Op, p: Publish)
    requires (kept == [] || kept == [Session.Keep(p)]) && op.Sending? && op.packet == p.Encoding()
    ensures Sends(kept + [op], p, kept != []) && (kept + [op])[|kept + [op]| - 1] == op
  {
  }

  predicate CyclesOnly(ops: seq<Op>) {
    forall k :: 0 <= k < |ops| ==> ops[k].Cycling?
  }

  /** Only what the keepalive check was answered differs. */
  predicate SameButPing(i: Input, j: Input) {
    j == i.(pingLook := j.pingLook, sentLook := j.sentLook, receivedLook := j.receivedLook,
            pingW := j.pingW, pingAt := j.pingAt)
  }

  lemma PacketOfMessage(s: State, i: Input, code: int, m: PublishOut)
    requires i.Type() == PUBLISH && DecodePublish(i.buf, Unset(i.garbage)) == (code, m)
    ensures Session.OnPacket(s, i) == Session.OnMessage(s, code, m, i)
  {
  }

  lemma PacketOfId(s: State, i: Input, kind: nat, code: int, id: ushort)
    requires i.Type() == kind && (kind == PUBREC || kind == PUBREL)
    requires DecodeAck(i.buf, AckOut(0, 0, i.garbage)).0 == code && i.AckId() == id
    ensures Session.OnPacket(s, i) == Session.OnId(s, kind, code, id, i)
  {
  }

  lemma OutcomeKinds(s: Source, b: seq<byte>)
    requires |b| >= 5
    ensures var (out, b', _) := ReadOutcome(s, b);
      && (out.Packet? ==> out.kind == Kind(Peek(b', 0)))
      && (out.NoHeader? ==> out.rc <= 0)
  {
  }
}
