/**
 What the stack of a running program looks like: one activation above the other, each with links to
 the one below it and to the procedure it is declared in.
 */
module Activations {
  import opened StackCells
  import opened RunTimeState

  /**
   Calling: a procedure just called, which does not know its block level yet.
   Inside: a procedure with its own level.  Thunk: an implicit subroutine, working in the frame of
   the procedure that wrote the actual parameter.
   */
  datatype Kind = Calling | Inside | Thunk

  /**
   frame and base delimit the activation's frame; fp and level are the frame and level it works with;
   link is the place in the list of the activation that holds the enclosing block.
   */
  datatype Act = Act(
    frame: nat, base: nat, fp: nat, level: nat, kind: Kind, link: nat, args: nat, op: FormalOp, ret: nat)

  function CurrentFp(acts: seq<Act>): nat {
    if acts == [] then 0 else acts[|acts| - 1].fp
  }

  function CurrentBase(acts: seq<Act>): nat {
    if acts == [] then 0 else acts[|acts| - 1].base
  }

  function CurrentLevel(acts: seq<Act>): nat {
    if acts == [] then 0 else acts[|acts| - 1].level
  }

  function FormalCell(a: Act, k: nat): nat {
    a.frame + ARG + 2 * k + 1
  }

  // The frame of a above the activations in before.
  predicate FrameOk(stack: seq<Cell>, a: Act, before: seq<Act>) {
    && CurrentBase(before) + 1 + (if TakesOne(a.op) then 1 else 0) <= a.frame
    && a.frame + ARG + 2 * a.args <= a.base
    && AddressAt(stack, a.frame + FP) == CurrentFp(before)
    && AddressAt(stack, a.frame + PC) == a.ret
    && AddressAt(stack, a.frame + SP) == CurrentBase(before)
    && AddressAt(stack, a.frame + BN) == (if a.kind == Inside then a.level else 0)
  }

  // Every formal parameter knows where the procedure was called.
  predicate FormalsOk(stack: seq<Cell>, a: Act, before: seq<Act>) {
    forall k :: 0 <= k < a.args ==> AddressAt(stack, FormalCell(a, k)) == Pard(CurrentLevel(before), CurrentFp(before))
  }

  // The frame of a procedure at this level, at this place in the list.
  predicate IsFrame(acts: seq<Act>, i: nat, level: nat, fp: nat) {
    i < |acts| && acts[i].kind == Inside && acts[i].level == level && acts[i].frame == fp
  }

  predicate KindOk(stack: seq<Cell>, a: Act, before: seq<Act>) {
    && a.level < LEVELS
    && match a.kind
       case Calling => a.fp == a.frame && a.level == 0
       case Inside =>
         && a.fp == a.frame && 1 <= a.level
         && (a.level > 1 ==> IsFrame(before, a.link, a.level - 1, AddressAt(stack, a.frame + DISPLAY)))
       case Thunk =>
         && a.args == 0 && a.base == a.frame + ARG
         && if a.level == 0 then a.fp == a.frame else IsFrame(before, a.link, a.level, a.fp)
  }

  predicate ActOk(stack: seq<Cell>, a: Act, before: seq<Act>) {
    FrameOk(stack, a, before) && FormalsOk(stack, a, before) && KindOk(stack, a, before)
  }

  function Below(acts: seq<Act>): seq<Act>
    requires acts != []
  {
    acts[..|acts| - 1]
  }

  // All activations are in order, and only the last one may still be calling.
  predicate Good(stack: seq<Cell>, acts: seq<Act>)
    decreases |acts|
  {
    acts == [] ||
    (var before := Below(acts);
     && Good(stack, before) && (before != [] ==> before[|before| - 1].kind != Calling)
     && ActOk(stack, acts[|acts| - 1], before))
  }

  // The operation recorded for every activation is the one it was entered with.
  predicate OpsOk(eis: map<nat, FormalOp>, acts: seq<Act>)
    decreases |acts|
  {
    acts == [] ||
    (var a := acts[|acts| - 1];
     OpsOk(eis, Below(acts)) && a.base in eis && eis[a.base] == a.op)
  }

  // The activation whose block the display describes; -1 at the global level.
  function Environment(acts: seq<Act>): (e: int)
    ensures -1 <= e < |acts|
    decreases |acts|
  {
    if acts == [] then -1
    else
      var a := acts[|acts| - 1];
      match a.kind
      case Calling => Environment(Below(acts))
      case Inside => |acts| - 1
      case Thunk => if 0 < a.level && a.link < |acts| then a.link else -1
  }

  function EnvironmentLevel(acts: seq<Act>): nat {
    var e := Environment(acts);
    if e < 0 then 0 else acts[e].level
  }

  // display[1..level] holds the frames of the blocks around activation e.
  predicate Cached(display: seq<nat>, acts: seq<Act>, e: nat)
    decreases e
  {
    && e < |acts| && acts[e].level < |display| && display[acts[e].level] == acts[e].frame
    && (acts[e].level > 1 ==> acts[e].link < e && Cached(display, acts, acts[e].link))
  }

  // The stack and the registers are in order, whatever the display holds.
  predicate Stacked(s: State, acts: seq<Act>) {
    && |s.display| == LEVELS && Good(s.stack, acts) && OpsOk(s.eis, acts)
    && s.framePtr == CurrentFp(acts) && s.stackBase == CurrentBase(acts) <= |s.stack|
  }

  predicate Inv(s: State, acts: seq<Act>) {
    Stacked(s, acts) && (0 <= Environment(acts) ==> Cached(s.display, acts, Environment(acts)))
  }

  lemma {:induction false} GoodAt(stack: seq<Cell>, acts: seq<Act>, i: nat)
    requires Good(stack, acts) && i < |acts|
    ensures ActOk(stack, acts[i], acts[..i]) && (i < |acts| - 1 ==> acts[i].kind != Calling)
    ensures Good(stack, acts[..i]) && acts[i].base <= CurrentBase(acts)
    decreases |acts|
  {
    hide FormalsOk, KindOk;
    if i < |acts| - 1 {
      GoodAt(stack, Below(acts), i);
      assert Below(acts)[..i] == acts[..i];
    } else {
      assert acts[..i] == Below(acts);
    }
  }

  // The same links in another stack.
  predicate SameLinks(stack: seq<Cell>, other: seq<Cell>, acts: seq<Act>)
    decreases |acts|
  {
    acts == [] ||
    (var a := acts[|acts| - 1];
     && SameLinks(stack, other, Below(acts))
     && forall i :: a.frame <= i < a.frame + ARG + 2 * a.args ==> AddressAt(other, i) == AddressAt(stack, i))
  }

  lemma {:induction false} GoodStays(stack: seq<Cell>, other: seq<Cell>, acts: seq<Act>)
    requires Good(stack, acts) && SameLinks(stack, other, acts)
    ensures Good(other, acts)
    decreases |acts|
  {
    hide AddressAt;
    if acts != [] {
      GoodStays(stack, other, Below(acts));
      ActStays(stack, other, acts[|acts| - 1], Below(acts));
    }
  }

  lemma ActStays(stack: seq<Cell>, other: seq<Cell>, a: Act, before: seq<Act>)
    requires ActOk(stack, a, before)
    requires forall i :: a.frame <= i < a.frame + ARG + 2 * a.args ==> AddressAt(other, i) == AddressAt(stack, i)
    ensures ActOk(other, a, before)
  {
    hide AddressAt, Pard;
  }

  // Cells above the base do not matter.
  lemma {:induction false} PrefixLinks(stack: seq<Cell>, other: seq<Cell>, acts: seq<Act>)
    requires Good(stack, acts) && CurrentBase(acts) <= |stack| && CurrentBase(acts) <= |other|
    requires forall i :: 0 <= i < CurrentBase(acts) ==> other[i] == stack[i]
    ensures SameLinks(stack, other, acts)
    decreases |acts|
  {
    hide FormalsOk, KindOk;
    if acts != [] {
      PrefixLinks(stack, other, Below(acts));
    }
  }

  lemma {:induction false} OpsStay(stack: seq<Cell>, eis: map<nat, FormalOp>, key: nat, op: FormalOp, acts: seq<Act>)
    requires Good(stack, acts) && OpsOk(eis, acts) && CurrentBase(acts) < key
    ensures OpsOk(eis[key := op], acts)
    decreases |acts|
  {
    hide FormalsOk, KindOk;
    if acts != [] {
      OpsStay(stack, eis, key, op, Below(acts));
    }
  }

  // The display only depends on the activations up to e.
  lemma {:induction false} CachedStays(display: seq<nat>, acts: seq<Act>, other: seq<Act>, e: nat)
    requires Cached(display, acts, e) && e < |other| && acts[..e + 1] == other[..e + 1]
    ensures Cached(display, other, e)
    decreases e
  {
    assert acts[e] == acts[..e + 1][e] == other[..e + 1][e] == other[e];
    if acts[e].level > 1 {
      var l := acts[e].link;
      assert acts[..l + 1] == acts[..e + 1][..l + 1] == other[..l + 1];
      CachedStays(display, acts, other, l);
    }
  }

  // Unwinding the display from a frame of the list restores it.
  lemma {:induction false} UnwindCaches(display: seq<nat>, stack: seq<Cell>, acts: seq<Act>, e: nat)
    requires Good(stack, acts) && e < |acts| && acts[e].kind == Inside && |display| == LEVELS
    ensures acts[e].level < LEVELS && Cached(Updated(display, stack, acts[e].level, acts[e].frame), acts, e)
    decreases e
  {
    hide FormalsOk, FrameOk, AddressAt;
    GoodAt(stack, acts, e);
    var a := acts[e];
    if a.level > 1 {
      assert acts[..e][a.link] == acts[a.link];
      UnwindCaches(display[a.level := a.frame], stack, acts, a.link);
    }
  }

  // The activation of level k on the static chain of e.
  function Enclosing(acts: seq<Act>, e: nat, k: nat): (i: nat)
    requires e < |acts|
    ensures i <= e
    decreases e
  {
    if acts[e].level <= k || e <= acts[e].link then e else Enclosing(acts, acts[e].link, k)
  }

  lemma {:induction false} EnclosingFrame(display: seq<nat>, stack: seq<Cell>, acts: seq<Act>, e: nat, k: nat)
    requires Good(stack, acts) && e < |acts| && acts[e].kind == Inside && 1 <= k <= acts[e].level
    ensures var i := Enclosing(acts, e, k); IsFrame(acts, i, k, acts[i].frame)
    ensures Cached(display, acts, e) ==> k < |display| && display[k] == acts[Enclosing(acts, e, k)].frame
    decreases e
  {
    hide FormalsOk, FrameOk, AddressAt;
    GoodAt(stack, acts, e);
    if k < acts[e].level {
      assert acts[..e][acts[e].link] == acts[acts[e].link];
      EnclosingFrame(display, stack, acts, acts[e].link, k);
    }
  }
}
