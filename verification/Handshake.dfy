/** The QoS 2 exchange for one packet id, seen from outside: where the sender is, what travels each way,
    whether the client holds the id, and whether the current message was handed over. */
module Handshake {

  datatype Phase = Idle | AwaitRec | AwaitComp
  datatype Signal = Pub | Rel
  datatype Reply = Rec | Comp

  datatype View = View(phase: Phase, down: seq<Signal>, up: seq<Reply>, held: bool, done: bool)

  /** No `a` comes before a `b`. */
  predicate Never<T(==)>(s: seq<T>, a: T, b: T) {
    forall j, k :: 0 <= j < k < |s| && s[j] == a ==> s[k] != b
  }

  predicate Inv(v: View) {
    match v.phase
    case Idle => !v.held && Pub !in v.down && Rec !in v.up
    case AwaitRec =>
      && Never(v.down, Pub, Rel) && Never(v.up, Rec, Comp)
      && (v.held <==> v.done)
      && (v.done || Rec in v.up ==> Rel !in v.down)
    case AwaitComp =>
      && Never(v.down, Rel, Pub) && Never(v.up, Comp, Rec)
      && (v.held ==> v.done)
      && (v.held || Pub in v.down ==> Comp !in v.up)
      && (Pub in v.down && v.done ==> v.held)
  }

  /** With room for every outstanding id: nothing is acknowledged that was not handed over. */
  predicate Fed(v: View) {
    v.phase == Idle || v.done || (v.phase == AwaitRec && Rec !in v.up)
  }

  // ---- the client ----

  /** The client takes a PUBLISH, with or without room for its id; `broken` ends the connection. */
  function ReadPub(v: View, room: bool, broken: bool): View
    requires v.down != []
  {
    v.(down := if broken then [] else v.down[1..], up := if broken then [] else v.up + [Rec],
       held := v.held || room, done := v.done || (!v.held && room))
  }

  lemma ReadPubKeeps(v: View, room: bool, broken: bool)
    requires Inv(v) && v.down != [] && v.down[0] == Pub
    ensures Inv(ReadPub(v, room, broken)) && v.phase != Idle
    ensures !v.held ==> !v.done
    ensures Fed(v) && (v.held || room) ==> Fed(ReadPub(v, room, broken))
  {
  }

  /** The client takes a PUBREL; when the connection breaks the id may or may not be freed. */
  function ReadRel(v: View, freed: bool, broken: bool): View
    requires v.down != []
  {
    v.(down := if broken then [] else v.down[1..], up := if broken then [] else v.up + [Comp],
       held := v.held && !freed)
  }

  lemma ReadRelKeeps(v: View, freed: bool, broken: bool)
    requires Inv(v) && v.down != [] && v.down[0] == Rel && (!broken ==> freed)
    ensures Inv(ReadRel(v, freed, broken))
    ensures Fed(v) ==> Fed(ReadRel(v, freed, broken))
  {
  }

  lemma TailIn<T>(s: seq<T>, x: T)
    requires s != []
    ensures x in s[1..] ==> x in s
    ensures x in s && x !in s[1..] ==> s[0] == x
  {
  }

  // ---- the sender ----

  function Submit(v: View): View {
    v.(phase := AwaitRec, down := v.down + [Pub], done := false)
  }

  lemma SubmitKeeps(v: View)
    requires Inv(v) && v.phase == Idle
    ensures Inv(Submit(v)) && Fed(Submit(v))
  {
  }

  /** PUBLISH again before PUBREC, PUBREL again after it. */
  function Resend(v: View): View {
    v.(down := v.down + [if v.phase == AwaitRec then Pub else Rel])
  }

  lemma ResendKeeps(v: View)
    requires Inv(v) && v.phase != Idle
    ensures Inv(Resend(v)) && (Fed(v) ==> Fed(Resend(v)))
  {
  }

  /** A PUBREC is answered with PUBREL unless the exchange is over; a PUBCOMP ends it once PUBREC came. */
  function ReadReply(v: View): View
    requires v.up != []
  {
    var v' := v.(up := v.up[1..]);
    if v.up[0] == Rec && v.phase != Idle then v'.(phase := AwaitComp, down := v.down + [Rel])
    else if v.up[0] == Comp && v.phase == AwaitComp then v'.(phase := Idle, done := false)
    else v'
  }

  lemma ReadReplyKeeps(v: View)
    requires Inv(v) && v.up != []
    ensures Inv(ReadReply(v)) && (Fed(v) ==> Fed(ReadReply(v)))
    ensures Fed(v) && v.phase == AwaitComp ==> v.done
  {
    TailIn(v.up, Rec);
    TailIn(v.up, Comp);
  }

  // ---- the network ----

  /** The connection is lost, and everything on its way with it. */
  lemma DropKeeps(v: View)
    requires Inv(v)
    ensures Inv(v.(down := [], up := [])) && (Fed(v) ==> Fed(v.(down := [], up := [])))
  {
  }
}
