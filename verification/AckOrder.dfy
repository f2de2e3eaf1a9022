/** Section 4.6 of MQTT Version 3.1.1: acknowledgements go out in the order in which the packets they
    answer came in. */
module AckOrder {
  import opened Bytes
  import opened FixedHeader
  import opened PublishCodec
  import opened MessageHandlers
  import opened PacketReader
  import opened Session

  /** A packet as a conforming server sends it, or none when the read timed out; `Plain` stands for CONNACK,
      SUBACK, UNSUBACK and PINGRESP, which need no answer. */
  datatype Incoming = Nothing | Publishing(p: Publish) | Acking(kind: nat, dup: nat, id: ushort) | Plain(kind: nat)
  {
    predicate Legal() {
      match this
      case Publishing(p) => p.Legal() && p.qos <= 2
      case Acking(kind, dup, _) => PUBACK <= kind <= PUBCOMP && dup < 2
      case Plain(kind) => kind in [CONNACK, SUBACK, UNSUBACK, PINGRESP]
      case _ => true
    }

    /** The answer the protocol asks for. */
    function Image(): seq<Outgoing> {
      match this
      case Publishing(p) => if p.qos == 1 then [Ack(PUBACK, p.id)] else if p.qos == 2 then [Ack(PUBREC, p.id)] else []
      case Acking(kind, _, id) =>
        if kind == PUBREC then [Ack(PUBREL, id)] else if kind == PUBREL then [Ack(PUBCOMP, id)] else []
      case _ => []
    }
  }

  /** The cycle reads exactly this packet. */
  predicate Carries(i: Input, m: Incoming) {
    match m
    case Nothing => i.out == NoHeader(0)
    case Publishing(p) => i.out == Packet(PUBLISH) && At(i.buf, 0, p.Encoding())
    case Acking(kind, dup, id) => i.out == Packet(kind) && At(i.buf, 0, EncodeAck(kind, dup, id))
    case Plain(kind) => i.out == Packet(kind)
  }

  /** The acknowledgements among the packets that went out whole, in order. */
  function Answers(es: seq<Event>): seq<Outgoing> {
    if es == [] then [] else Answers(es[..|es| - 1]) + AnswerBy(es[|es| - 1])
  }

  function AnswerBy(e: Event): seq<Outgoing> {
    if e.Sent? && e.p != Ping then [e.p] else []
  }

  predicate NoCut(es: seq<Event>) {
    forall k :: 0 <= k < |es| ==> !es[k].Cut?
  }

  lemma {:induction false} AnswersConcat(a: seq<Event>, b: seq<Event>)
    ensures Answers(a + b) == Answers(a) + Answers(b)
  {
    if b == [] {
      assert a + b == a;
    } else {
      var front, e := b[..|b| - 1], b[|b| - 1];
      AnswersConcat(a, front);
      assert (a + b)[..|a + b| - 1] == a + front && (a + b)[|a + b| - 1] == e;
      assert Answers(b) == Answers(front) + AnswerBy(e);
      Joined(Answers(a), Answers(front), AnswerBy(e));
    }
  }

  lemma AnswersOne(e: Event)
    ensures Answers([e]) == AnswerBy(e)
  {
  }

  lemma AcceptAnswersNothing(s: State, m: PublishOut)
    ensures Answers(Accept(s, m).1) == []
  {
  }

  /** What is asked of one part of a cycle that answers with `image`. */
  ghost predicate Replies(es: seq<Event>, image: seq<Outgoing>) {
    NoCut(es) ==> Answers(es) == image
  }

  lemma SendReplies(p: Outgoing, w: nat)
    ensures Replies([SendEvent(p, w)], if p == Ping then [] else [p])
  {
  }

  lemma RepliesChain(a: seq<Event>, x: seq<Outgoing>, b: seq<Event>, y: seq<Outgoing>)
    requires Replies(a, x) && Replies(b, y)
    ensures Replies(a + b, x + y)
  {
    AnswersConcat(a, b);
    if NoCut(a + b) {
      forall k | 0 <= k < |a| ensures !a[k].Cut? { assert (a + b)[k] == a[k]; }
      forall k | 0 <= k < |b| ensures !b[k].Cut? { assert (a + b)[|a| + k] == b[k]; }
    }
  }

  lemma AcknowledgeReplies(s: State, m: PublishOut, i: Input)
    requires m.qos <= 2
    ensures Replies(Acknowledge(s, m, i).es,
      if m.qos == 1 then [Ack(PUBACK, m.id)] else if m.qos == 2 then [Ack(PUBREC, m.id)] else [])
  {
  }

  lemma OnPublishReplies(s: State, i: Input, p: Publish)
    requires p.Legal() && p.qos <= 2 && At(i.buf, 0, p.Encoding())
    ensures Replies(OnPublish(s, i).es, Publishing(p).Image())
  {
    PublishRoundTrip(p, i.buf, Unset(i.garbage));
    MsgReplies(s, i, p.Decoded(Unset(i.garbage)));
  }

  lemma MsgReplies(s: State, i: Input, m: PublishOut)
    requires DecodePublish(i.buf, Unset(i.garbage)) == (1, m) && m.qos <= 2
    ensures Replies(OnPublish(s, i).es,
      if m.qos == 1 then [Ack(PUBACK, m.id)] else if m.qos == 2 then [Ack(PUBREC, m.id)] else [])
  {
    var (s', es) := Accept(s, m);
    AcceptAnswersNothing(s, m);
    AcknowledgeReplies(s', m, i);
    RepliesChain(es, [], Acknowledge(s', m, i).es,
      if m.qos == 1 then [Ack(PUBACK, m.id)] else if m.qos == 2 then [Ack(PUBREC, m.id)] else []);
  }

  lemma OnReleaseReplies(s: State, i: Input, kind: nat, dup: nat, id: ushort)
    requires (kind == PUBREC || kind == PUBREL) && dup < 2 && At(i.buf, 0, EncodeAck(kind, dup, id))
    ensures Replies(OnRelease(s, kind, i).es, Acking(kind, dup, id).Image())
  {
    AckRoundTrip(kind, dup, id, i.buf, AckOut(0, 0, i.garbage));
    SendReplies(Ack(if kind == PUBREC then PUBREL else PUBCOMP, id), i.ackW);
  }

  lemma PublishingReplies(s: State, i: Input, p: Publish)
    requires p.Legal() && p.qos <= 2 && i.out == Packet(PUBLISH) && At(i.buf, 0, p.Encoding())
    ensures Replies(OnPacket(s, i).es, Publishing(p).Image())
  {
    OnPublishReplies(s, i, p);
  }

  lemma AckingReplies(s: State, i: Input, kind: nat, dup: nat, id: ushort)
    requires PUBACK <= kind <= PUBCOMP && dup < 2 && i.out == Packet(kind) && At(i.buf, 0, EncodeAck(kind, dup, id))
    ensures Replies(OnPacket(s, i).es, Acking(kind, dup, id).Image())
  {
    if kind == PUBREC || kind == PUBREL { OnReleaseReplies(s, i, kind, dup, id); }
  }

  lemma OnPacketReplies(s: State, i: Input, m: Incoming)
    requires m.Legal() && Carries(i, m)
    ensures Replies(OnPacket(s, i).es, m.Image())
  {
    match m
    case Publishing(p) => PublishingReplies(s, i, p);
    case Acking(kind, dup, id) => AckingReplies(s, i, kind, dup, id);
    case _ =>
  }

  lemma KeepAliveReplies(a: Alive, i: Input)
    ensures Replies(KeepAlive(a, i).1, [])
  {
  }

  lemma EndReplies(p: Part, i: Input, image: seq<Outgoing>)
    requires Replies(p.es, image)
    ensures Replies(Finish(WithKeepAlive(p, i), i.Type()).es, image)
  {
    KeepAliveReplies(p.s.alive, i);
    RepliesChain(p.es, image, KeepAlive(p.s.alive, i).1, []);
    var q := WithKeepAlive(p, i);
    AnswersOne(Closed(q.s.clean));
    RepliesChain(q.es, image, [Closed(q.s.clean)], []);
  }

  lemma CycleReplies(s: State, i: Input, m: Incoming)
    requires m.Legal() && Carries(i, m)
    ensures Replies(Cycle(s, i).es, m.Image())
  {
    var p := OnPacket(Read(s, i), i);
    OnPacketReplies(Read(s, i), i, m);
    ReadReplies(i);
    RepliesChain(ReadEvents(i), [], p.es, m.Image());
    EndReplies(p.(es := ReadEvents(i) + p.es), i, [] + m.Image());
  }

  lemma ReadReplies(i: Input)
    ensures Replies(ReadEvents(i), [])
  {
  }

  function Images(ms: seq<Incoming>): seq<Outgoing> {
    if ms == [] then [] else Images(ms[..|ms| - 1]) + ms[|ms| - 1].Image()
  }

  /** In every run of cycles over packets of a conforming peer in which no send fails, what goes out,
      PINGREQs aside, is the in-order image of what came in. */
  lemma AnswersInOrder(s: State, inputs: seq<Input>, ms: seq<Incoming>)
    requires |inputs| == |ms|
    requires forall k :: 0 <= k < |ms| ==> ms[k].Legal() && Carries(inputs[k], ms[k])
    requires Run(s, Cycles(inputs)).Some? && NoCut(Run(s, Cycles(inputs)).value.1)
    ensures Answers(Run(s, Cycles(inputs)).value.1) == Images(ms)
  {
    AnswersOfRun(s, inputs, ms);
  }

  function Cycles(inputs: seq<Input>): (ops: seq<Op>)
    ensures |ops| == |inputs|
  {
    if inputs == [] then [] else Cycles(inputs[..|inputs| - 1]) + [Cycling(inputs[|inputs| - 1])]
  }

  lemma {:induction false} AnswersOfRun(s: State, inputs: seq<Input>, ms: seq<Incoming>)
    requires |inputs| == |ms| && Run(s, Cycles(inputs)).Some?
    requires forall k :: 0 <= k < |ms| ==> ms[k].Legal() && Carries(inputs[k], ms[k])
    ensures Replies(Run(s, Cycles(inputs)).value.1, Images(ms))
  {
    if ms != [] {
      var n := |ms| - 1;
      var ops := Cycles(inputs);
      assert ops[..n] == Cycles(inputs[..n]) && ops[n] == Cycling(inputs[n]);
      AnswersOfRun(s, inputs[..n], ms[..n]);
      var (before, es) := Run(s, ops[..n]).value;
      CycleReplies(before, inputs[n], ms[n]);
      RepliesChain(es, Images(ms[..n]), Cycle(before, inputs[n]).es, ms[n].Image());
    }
  }
}
