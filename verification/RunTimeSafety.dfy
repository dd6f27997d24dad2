/**
 Every run of calls, entries, implicit subroutines and returns keeps the stack, the display and the
 recorded operations in order.
 */
module RunTimeSafety {
  import opened StackCells
  import opened RunTimeState
  import opened Activations

  /**
   What a program does to the stack.  Working is an order on the working cells above the base, Assign
   a store into a variable, Resume a for statement's note of where it goes on, Implicit the evaluation
   of an actual parameter given in the block of activation link (-1 at the global level).
   */
  datatype Event =
    | Working(cells: seq<Cell>)
    | Assign(place: nat, c: Cell)
    | Call(result: Cell, args: nat, target: nat)
    | Enter(level: nat)
    | Reserve(cells: seq<Cell>)
    | Resume(target: nat)
    | Implicit(link: int, op: FormalOp, target: nat)
    | EndImplicit
    | Return

  function Top(acts: seq<Act>): Act
    requires acts != []
  {
    acts[|acts| - 1]
  }

  predicate OutsideLinks(acts: seq<Act>, place: nat) {
    forall j :: 0 <= j < |acts| ==> !(acts[j].frame <= place < acts[j].frame + ARG + 2 * acts[j].args)
  }

  // What the translator and the order code see to.
  predicate Legal(s: State, acts: seq<Act>, ev: Event) {
    match ev
    case Working(cells) => true
    case Assign(place, c) => place < |s.stack| && OutsideLinks(acts, place)
    case Call(_, _, _) => acts == [] || Top(acts).kind != Calling
    case Enter(level) =>
      acts != [] && Top(acts).kind != Inside && 1 <= level < LEVELS && level <= EnvironmentLevel(acts) + 1
    case Reserve(_) => acts != [] && Top(acts).kind != Thunk
    case Resume(_) => acts != [] && Top(acts).kind == Inside
    case Implicit(link, op, _) =>
      && (acts == [] || Top(acts).kind != Calling)
      && (0 <= link ==> link < |acts| && acts[link].kind == Inside)
      && (TakesOne(op) ==> s.stackBase < |s.stack|)
    case EndImplicit => acts != [] && Top(acts).kind == Thunk && s.stackBase < |s.stack|
    case Return => acts != [] && Top(acts).kind == Inside
  }

  function LinkLevel(acts: seq<Act>, link: int): nat {
    if 0 <= link < |acts| then acts[link].level else 0
  }

  function LinkFrame(acts: seq<Act>, link: int): nat {
    if 0 <= link < |acts| then acts[link].frame else 0
  }

  // The list of activations after the event.
  function NextActs(s: State, acts: seq<Act>, ev: Event): seq<Act>
    requires Legal(s, acts, ev)
  {
    match ev
    case Working(_) => acts
    case Assign(_, _) => acts
    case Call(_, args, _) =>
      var f := |s.stack| + 1;
      acts + [Act(f, f + ARG + 2 * args, f, 0, Calling, 0, args, PushValue, s.ot)]
    case Enter(level) =>
      var a, e := Top(acts), Environment(acts);
      var link := if level > 1 && 0 <= e then Enclosing(acts, e, level - 1) else 0;
      Below(acts) + [a.(kind := Inside, level := level, fp := a.frame, link := link)]
    case Reserve(cells) => Below(acts) + [Top(acts).(base := Top(acts).base + |cells|)]
    case Resume(target) => Below(acts) + [Top(acts).(ret := target)]
    case Implicit(link, op, _) =>
      var f, level := |s.stack| + 1, LinkLevel(acts, link);
      acts + [Act(f, f + ARG, if 0 < level then LinkFrame(acts, link) else f, level, Thunk,
                  if 0 <= link then link else 0, 0, op, s.ot)]
    case EndImplicit => Below(acts)
    case Return => Below(acts)
  }

  predicate CanStep(s: State, acts: seq<Act>, ev: Event)
    requires Legal(s, acts, ev)
  {
    match ev
    case Working(_) => s.stackBase <= |s.stack|
    case Enter(level) =>
      ARG <= s.stackBase && CanSetLevel(if BlockLevel(s) != 0 then s.(framePtr := s.stackBase - ARG) else s, level)
    case Reserve(_) => s.stackBase in s.eis
    case Resume(_) => s.framePtr + ARG <= |s.stack|
    case Implicit(link, _, _) => |s.display| == LEVELS && LinkLevel(acts, link) < LEVELS
    case EndImplicit => CanEndThunk(s)
    case Return => CanReturn(s)
    case _ => true
  }

  function Next(s: State, acts: seq<Act>, ev: Event, v: Values): State
    requires Legal(s, acts, ev) && CanStep(s, acts, ev)
  {
    match ev
    case Working(cells) => s.(stack := s.stack[..s.stackBase] + cells)
    case Assign(place, c) => s.(stack := s.stack[place := c])
    case Call(result, args, target) => Called(s, result, args, target)
    case Enter(level) => Entered(s, level)
    case Reserve(cells) => Reserved(s, cells)
    case Resume(target) => Resumed(s, target)
    case Implicit(link, op, target) => ThunkEntered(s, LinkLevel(acts, link), LinkFrame(acts, link), op, target)
    case EndImplicit => ThunkEnded(s, v)
    case Return => Returned(s, v)
  }

  // The block level read from the stack is that of the current activation.
  lemma LevelIs(s: State, acts: seq<Act>)
    requires Good(s.stack, acts) && s.framePtr == CurrentFp(acts) && s.stackBase == CurrentBase(acts)
    ensures BlockLevel(s) == CurrentLevel(acts) < LEVELS
    ensures acts != [] ==> 0 < s.stackBase && s.framePtr < s.stackBase
  {
    hide FormalsOk, Good, AddressAt;
    if acts != [] {
      GoodAt(s.stack, acts, |acts| - 1);
      var a, before := Top(acts), Below(acts);
      assert acts[..|acts| - 1] == before;
      if a.kind == Thunk && 0 < a.level {
        GoodAt(s.stack, acts, a.link);
        assert before[a.link] == acts[a.link];
      }
    }
  }

  // At an activation that works at a block level the display describes that block.
  lemma EnvironmentIs(stack: seq<Cell>, acts: seq<Act>)
    requires Good(stack, acts) && 0 < CurrentLevel(acts)
    ensures var e := Environment(acts);
            0 <= e && IsFrame(acts, e, CurrentLevel(acts), CurrentFp(acts)) && e <= |acts| - 1
  {
    hide FormalsOk, FrameOk, AddressAt;
    GoodAt(stack, acts, |acts| - 1);
    var a := Top(acts);
    if a.kind == Thunk {
      assert Below(acts)[a.link] == acts[a.link];
    }
  }

  // The block of an activation is always a procedure that has entered its level.
  lemma {:induction false} EnvironmentInside(stack: seq<Cell>, acts: seq<Act>)
    requires Good(stack, acts)
    ensures 0 <= Environment(acts) ==> acts[Environment(acts)].kind == Inside
    decreases |acts|
  {
    if acts != [] {
      hide FormalsOk, FrameOk, AddressAt;
      EnvironmentInside(stack, Below(acts));
      var a := Top(acts);
      if a.kind == Thunk && a.level > 0 {
        assert Below(acts)[a.link] == acts[a.link];
      }
    }
  }

  lemma WorkingKeeps(s: State, acts: seq<Act>, ev: Event, v: Values)
    requires Inv(s, acts) && Legal(s, acts, ev) && ev.Working?
    ensures CanStep(s, acts, ev) && Inv(Next(s, acts, ev, v), NextActs(s, acts, ev))
  {
    hide Good, Cached, OpsOk;
    PrefixLinks(s.stack, s.stack[..s.stackBase] + ev.cells, acts);
    GoodStays(s.stack, s.stack[..s.stackBase] + ev.cells, acts);
  }

  lemma {:induction false} AssignLinks(stack: seq<Cell>, acts: seq<Act>, place: nat, c: Cell)
    requires place < |stack| && OutsideLinks(acts, place)
    ensures SameLinks(stack, stack[place := c], acts)
    decreases |acts|
  {
    if acts != [] {
      assert OutsideLinks(Below(acts), place) by {
        forall j | 0 <= j < |acts| - 1 ensures Below(acts)[j] == acts[j] {}
      }
      AssignLinks(stack, Below(acts), place, c);
    }
  }

  lemma AssignKeeps(s: State, acts: seq<Act>, ev: Event, v: Values)
    requires Inv(s, acts) && Legal(s, acts, ev) && ev.Assign?
    ensures CanStep(s, acts, ev) && Inv(Next(s, acts, ev, v), NextActs(s, acts, ev))
  {
    AssignLinks(s.stack, acts, ev.place, ev.c);
    hide Good, Cached, OpsOk;
    GoodStays(s.stack, s.stack[ev.place := ev.c], acts);
  }

  lemma {:induction false} FormalsHold(pard: nat, args: nat, k: nat)
    requires k < args
    ensures Formals(pard, args)[2 * k + 1] == Address(pard)
    decreases args
  {
    if k < args - 1 {
      FormalsHold(pard, args - 1, k);
    }
  }

  // The cells of a new frame.
  lemma CreatedCells(s: State, ret: nat, args: nat)
    ensures var s1, f, p := FrameCreated(s, ret, args), |s.stack|, Pard(BlockLevel(s), s.framePtr);
            && |s1.stack| == f + ARG + 2 * args && s1.framePtr == f && s1.stackBase == |s1.stack|
            && s1.eis == s.eis[s1.stackBase := PushValue]
            && (forall i :: 0 <= i < f ==> s1.stack[i] == s.stack[i])
            && s1.stack[f + FP] == Address(s.framePtr) && s1.stack[f + PC] == Address(ret)
            && s1.stack[f + SP] == Address(s.stackBase) && s1.stack[f + BN] == Address(0)
            && (forall k :: 0 <= k < args ==> s1.stack[f + ARG + 2 * k + 1] == Address(p))
  {
    hide BlockLevel, Pard, AddressAt;
    var p, f := Pard(BlockLevel(s), s.framePtr), |s.stack|;
    var s1 := FrameCreated(s, ret, args);
    forall k | 0 <= k < args ensures s1.stack[f + ARG + 2 * k + 1] == Address(p) {
      FormalsHold(p, args, k);
      assert s1.stack[f + ARG + (2 * k + 1)] == Formals(p, args)[2 * k + 1];
    }
  }

  // A new frame on the stack s1, which is s with the place for a result.
  lemma NewFrame(s: State, acts: seq<Act>, result: Cell, ret: nat, args: nat, a: Act)
    requires Stacked(s, acts)
    requires var f := |s.stack| + 1;
             a.frame == f && a.base == f + ARG + 2 * args && a.args == args && a.ret == ret && a.kind != Inside
    requires TakesOne(a.op) ==> s.stackBase < |s.stack|
    ensures var s1 := FrameCreated(s.(stack := s.stack + [result]), ret, args);
            && s1.framePtr == a.frame && s1.stackBase == a.base == |s1.stack|
            && s1.eis == s.eis[a.base := PushValue]
            && (forall i :: 0 <= i < |s.stack| ==> s1.stack[i] == s.stack[i])
            && FrameOk(s1.stack, a, acts) && FormalsOk(s1.stack, a, acts)
  {
    hide Good, Cached, OpsOk, BlockLevel, FrameCreated, FormalsOk, Pard;
    LevelIs(s, acts);
    SameLevel(s, acts, result);
    var s0 := s.(stack := s.stack + [result]);
    CreatedCells(s0, ret, args);
    assert forall i :: 0 <= i < |s.stack| ==> s0.stack[i] == s.stack[i];
    FormalsMade(FrameCreated(s0, ret, args).stack, a, acts);
  }

  lemma FormalsMade(stack: seq<Cell>, a: Act, acts: seq<Act>)
    requires a.frame + ARG + 2 * a.args <= |stack|
    requires forall k :: 0 <= k < a.args ==>
               stack[a.frame + ARG + 2 * k + 1] == Address(Pard(CurrentLevel(acts), CurrentFp(acts)))
    ensures FormalsOk(stack, a, acts)
  {
    hide Pard;
    forall k | 0 <= k < a.args ensures AddressAt(stack, FormalCell(a, k)) == Pard(CurrentLevel(acts), CurrentFp(acts)) {
      assert FormalCell(a, k) == a.frame + ARG + 2 * k + 1;
    }
  }

  lemma SameLevel(s: State, acts: seq<Act>, c: Cell)
    requires Stacked(s, acts)
    ensures BlockLevel(s.(stack := s.stack + [c])) == BlockLevel(s)
  {
    hide FormalsOk, OpsOk, Cached, Good;
    if acts != [] {
      FrameInside(s, acts);
    }
  }

  // The frame in use lies below the working cells.
  lemma FrameInside(s: State, acts: seq<Act>)
    requires Stacked(s, acts) && acts != []
    ensures s.framePtr + ARG <= s.stackBase
  {
    hide FormalsOk, OpsOk, Cached, AddressAt;
    GoodAt(s.stack, acts, |acts| - 1);
    var a := Top(acts);
    assert acts[..|acts| - 1] == Below(acts);
    if a.kind == Thunk && 0 < a.level {
      GoodAt(s.stack, acts, a.link);
      assert Below(acts)[a.link] == acts[a.link];
    }
  }

  // One more activation on top of a stack in order.
  lemma ActAdded(s: State, acts: seq<Act>, s1: State, a: Act)
    requires Stacked(s, acts) && (acts != [] ==> Top(acts).kind != Calling)
    requires |s.stack| <= |s1.stack| && forall i :: 0 <= i < |s.stack| ==> s1.stack[i] == s.stack[i]
    requires ActOk(s1.stack, a, acts) && s.stackBase < a.base
    requires s1.eis == s.eis[a.base := a.op]
    ensures Good(s1.stack, acts + [a]) && OpsOk(s1.eis, acts + [a])
    ensures Inv(s, acts) && 0 <= Environment(acts) ==> Cached(s.display, acts + [a], Environment(acts))
  {
    hide ActOk;
    assert Below(acts + [a]) == acts;
    PrefixLinks(s.stack, s1.stack, acts);
    GoodStays(s.stack, s1.stack, acts);
    OpsStay(s.stack, s.eis, a.base, a.op, acts);
    var e := Environment(acts);
    if 0 <= e && Inv(s, acts) {
      assert (acts + [a])[..e + 1] == acts[..e + 1];
      CachedStays(s.display, acts, acts + [a], e);
    }
  }

  lemma CallKeeps(s: State, acts: seq<Act>, ev: Event, v: Values)
    requires Inv(s, acts) && Legal(s, acts, ev) && ev.Call?
    ensures CanStep(s, acts, ev) && Inv(Next(s, acts, ev, v), NextActs(s, acts, ev))
  {
    hide FrameCreated, FormalsOk, FrameOk, Good, Cached, OpsOk, AddressAt;
    var f := |s.stack| + 1;
    var a := Act(f, f + ARG + 2 * ev.args, f, 0, Calling, 0, ev.args, PushValue, s.ot);
    NewFrame(s, acts, ev.result, s.ot, ev.args, a);
    var s0 := FrameCreated(s.(stack := s.stack + [ev.result]), s.ot, ev.args);
    KeepsDisplay(s.(stack := s.stack + [ev.result]), s.ot, ev.args);
    assert KindOk(s0.stack, a, acts);
    ActAdded(s, acts, s0, a);
    assert Below(acts + [a]) == acts;
  }

  // The activation of an implicit subroutine.
  lemma ImplicitAct(s: State, acts: seq<Act>, ev: Event, v: Values, a: Act)
    requires Stacked(s, acts) && Legal(s, acts, ev) && ev.Implicit? && a == NextActs(s, acts, ev)[|acts|]
    ensures CanStep(s, acts, ev)
    ensures var s2 := Next(s, acts, ev, v);
            && s2.framePtr == a.fp && s2.stackBase == a.base == |s2.stack| > |s.stack|
            && s2.eis == s.eis[a.base := a.op]
            && (forall i :: 0 <= i < |s.stack| ==> s2.stack[i] == s.stack[i])
            && ActOk(s2.stack, a, acts) && s.stackBase < a.base
            && s2.display == if a.level > 0 then Updated(s.display, s2.stack, a.level, a.fp) else s.display
  {
    ImplicitParts(s, acts, ev, a);
    hide FrameCreated, FormalsOk, FrameOk, Good, Cached, OpsOk, Updated, KindOk, Legal;
    NewFrame(s, acts, Word(0), s.ot, 0, a);
    KeepsDisplay(s.(stack := s.stack + [Word(0)]), s.ot, 0);
    assert s.eis[a.base := PushValue][a.base := a.op] == s.eis[a.base := a.op];
  }

  lemma ImplicitParts(s: State, acts: seq<Act>, ev: Event, a: Act)
    requires Stacked(s, acts) && Legal(s, acts, ev) && ev.Implicit? && a == NextActs(s, acts, ev)[|acts|]
    ensures a.frame == |s.stack| + 1 && a.base == a.frame + ARG && a.args == 0 && a.ret == s.ot && a.kind == Thunk
            && a.op == ev.op
    ensures a.level == LinkLevel(acts, ev.link) < LEVELS && (TakesOne(a.op) ==> s.stackBase < |s.stack|)
    ensures a.level > 0 ==> a.fp == LinkFrame(acts, ev.link)
    ensures forall k :: KindOk(k, a, acts)
  {
    hide FrameOk, FormalsOk, Cached, OpsOk;
    if 0 <= ev.link {
      GoodAt(s.stack, acts, ev.link);
    }
  }

  lemma KeepsDisplay(s: State, ret: nat, args: nat)
    ensures FrameCreated(s, ret, args).display == s.display
  {
  }

  lemma ImplicitKeeps(s: State, acts: seq<Act>, ev: Event, v: Values)
    requires Stacked(s, acts) && Legal(s, acts, ev) && ev.Implicit?
    ensures CanStep(s, acts, ev) && Inv(Next(s, acts, ev, v), NextActs(s, acts, ev))
  {
    hide ActOk, Good, Cached, OpsOk, Updated, Next, NextActs, Legal, LinkLevel, Environment, CanStep;
    var a := ImplicitLink(s, acts, ev);
    ImplicitAct(s, acts, ev, v, a);
    var s2 := Next(s, acts, ev, v);
    assert Below(acts + [a]) == acts;
    ActAdded(s, acts, s2, a);
    ImplicitDisplay(s.display, s2.stack, acts + [a]);
  }

  lemma ImplicitLink(s: State, acts: seq<Act>, ev: Event) returns (a: Act)
    requires Legal(s, acts, ev) && ev.Implicit?
    ensures NextActs(s, acts, ev) == acts + [a] && |acts + [a]| == |acts| + 1
    ensures acts != [] ==> Top(acts).kind != Calling
    ensures a.kind == Thunk && (a.level > 0 ==> a.link < |acts| && IsFrame(acts, a.link, a.level, a.fp))
  {
    a := NextActs(s, acts, ev)[|acts|];
  }

  lemma ImplicitDisplay(display: seq<nat>, stack: seq<Cell>, acts: seq<Act>)
    requires |display| == LEVELS && acts != [] && Good(stack, acts) && Top(acts).kind == Thunk
    requires Top(acts).level > 0 ==> IsFrame(Below(acts), Top(acts).link, Top(acts).level, Top(acts).fp)
    ensures Top(acts).level < LEVELS
    ensures var d := if Top(acts).level > 0 then Updated(display, stack, Top(acts).level, Top(acts).fp) else display;
            |d| == LEVELS && (0 <= Environment(acts) ==> Cached(d, acts, Environment(acts)))
  {
    var a := Top(acts);
    assert KindOk(stack, a, Below(acts));
    if a.level > 0 {
      assert Below(acts)[a.link] == acts[a.link];
      UnwindCaches(display, stack, acts, a.link);
    }
  }

  // The top activation grows, or learns its level.
  lemma ActChanged(stack: seq<Cell>, other: seq<Cell>, eis: map<nat, FormalOp>, key: nat, acts: seq<Act>, a: Act)
    requires acts != [] && Good(stack, acts) && OpsOk(eis, acts)
    requires CurrentBase(Below(acts)) <= |stack| && CurrentBase(Below(acts)) <= |other|
    requires forall i :: 0 <= i < CurrentBase(Below(acts)) ==> other[i] == stack[i]
    requires ActOk(other, a, Below(acts)) && a.op == Top(acts).op && key == a.base && CurrentBase(Below(acts)) < key
    ensures Good(other, Below(acts) + [a]) && OpsOk(eis[key := a.op], Below(acts) + [a])
  {
    hide ActOk;
    var before := Below(acts);
    assert Below(before + [a]) == before;
    PrefixLinks(stack, other, before);
    GoodStays(stack, other, before);
    OpsStay(stack, eis, key, a.op, before);
  }

  lemma ReserveAct(s: State, acts: seq<Act>, cells: seq<Cell>, a: Act)
    requires Inv(s, acts) && acts != [] && Top(acts).kind != Thunk && a == Top(acts).(base := Top(acts).base + |cells|)
    ensures s.stackBase in s.eis && s.eis[s.stackBase] == a.op
    ensures var s1 := Reserved(s, cells);
            && s1.eis == s.eis[a.base := a.op] && s1.stackBase == a.base <= |s1.stack|
            && (forall i :: 0 <= i < |s.stack| ==> s1.stack[i] == s.stack[i])
            && ActOk(s1.stack, a, Below(acts)) && CurrentBase(Below(acts)) < a.base
            && CurrentBase(Below(acts)) <= |s.stack|
  {
    hide FormalsOk, KindOk, Cached, AddressAt;
    var a0, before, s1 := Top(acts), Below(acts), Reserved(s, cells);
    assert ActOk(s.stack, a0, before);
    forall i | 0 <= i < |s.stack| ensures AddressAt(s1.stack, i) == AddressAt(s.stack, i) {
      SameCell(s.stack, s1.stack, i);
    }
    ActStays(s.stack, s1.stack, a0, before);
    LargerBase(s1.stack, a0, before, |cells|);
  }

  lemma ReserveKeeps(s: State, acts: seq<Act>, ev: Event, v: Values)
    requires Inv(s, acts) && Legal(s, acts, ev) && ev.Reserve?
    ensures CanStep(s, acts, ev) && Inv(Next(s, acts, ev, v), NextActs(s, acts, ev))
  {
    hide Good, Cached, AddressAt, ActOk, OpsOk, Environment;
    var before, a := Below(acts), Top(acts).(base := Top(acts).base + |ev.cells|);
    ReserveAct(s, acts, ev.cells, a);
    var s1 := Reserved(s, ev.cells);
    ActChanged(s.stack, s1.stack, s.eis, a.base, acts, a);
    EnvironmentGrows(acts, a);
    if 0 <= Environment(acts) {
      CachedGrows(s.display, acts, a, Environment(acts));
    }
  }

  lemma EnvironmentGrows(acts: seq<Act>, a: Act)
    requires acts != [] && a == Top(acts).(base := a.base, ret := a.ret)
    ensures Environment(Below(acts) + [a]) == Environment(acts)
  {
    assert Below(Below(acts) + [a]) == Below(acts);
  }

  lemma SameCell(stack: seq<Cell>, other: seq<Cell>, i: nat)
    requires i < |stack| && i < |other| && stack[i] == other[i]
    ensures AddressAt(other, i) == AddressAt(stack, i)
  {
  }

  lemma LargerBase(stack: seq<Cell>, a: Act, before: seq<Act>, n: nat)
    requires ActOk(stack, a, before) && a.kind != Thunk
    ensures ActOk(stack, a.(base := a.base + n), before)
  {
    hide AddressAt, Pard;
    var a1 := a.(base := a.base + n);
    assert FrameOk(stack, a1, before);
    forall k | 0 <= k < a1.args
      ensures AddressAt(stack, FormalCell(a1, k)) == Pard(CurrentLevel(before), CurrentFp(before))
    {
      assert FormalCell(a1, k) == FormalCell(a, k);
    }
    assert KindOk(stack, a1, before);
  }

  // The display does not depend on where the working cells begin.
  lemma {:induction false} CachedGrows(display: seq<nat>, acts: seq<Act>, a: Act, e: nat)
    requires acts != [] && Cached(display, acts, e)
    requires a.frame == Top(acts).frame && a.level == Top(acts).level && a.link == Top(acts).link
    ensures Cached(display, Below(acts) + [a], e)
    decreases e
  {
    var other := Below(acts) + [a];
    assert |other| == |acts| && other[|acts| - 1] == a;
    assert e < |acts| - 1 ==> other[e] == acts[e];
    assert other[e].level == acts[e].level && other[e].frame == acts[e].frame && other[e].link == acts[e].link;
    if acts[e].level > 1 {
      CachedGrows(display, acts, a, acts[e].link);
    }
  }

  lemma ResumeAct(s: State, acts: seq<Act>, target: nat)
    requires Inv(s, acts) && acts != [] && Top(acts).kind == Inside
    ensures s.framePtr + ARG <= |s.stack|
    ensures var s1, a := Resumed(s, target), Top(acts).(ret := target);
            && |s1.stack| == |s.stack| && s1.stackBase == a.base && CurrentBase(Below(acts)) < a.base
            && CurrentBase(Below(acts)) <= |s.stack|
            && (forall i :: 0 <= i < CurrentBase(Below(acts)) ==> s1.stack[i] == s.stack[i])
            && ActOk(s1.stack, a, Below(acts))
  {
    hide Good, OpsOk, Cached, Environment, FormalsOk;
    TopOk(s, acts);
    var a, before, s1 := Top(acts), Below(acts), Resumed(s, target);
    assert FrameOk(s1.stack, a.(ret := target), before) && KindOk(s1.stack, a.(ret := target), before);
    EnterFormals(s.stack, s1.stack, a, a.(ret := target), before);
  }

  lemma ResumeKeeps(s: State, acts: seq<Act>, ev: Event, v: Values)
    requires Inv(s, acts) && Legal(s, acts, ev) && ev.Resume?
    ensures CanStep(s, acts, ev) && Inv(Next(s, acts, ev, v), NextActs(s, acts, ev))
  {
    hide Good, Cached, AddressAt, ActOk, OpsOk, Environment;
    ResumeAct(s, acts, ev.target);
    var a, s1 := Top(acts).(ret := ev.target), Resumed(s, ev.target);
    ActChanged(s.stack, s1.stack, s.eis, a.base, acts, a);
    OpsSame(s.eis, acts, a);
    EnvironmentGrows(acts, a);
    if 0 <= Environment(acts) {
      CachedGrows(s.display, acts, a, Environment(acts));
    }
  }

  // What the display says about the block a procedure of this level is declared in.
  lemma EnclosingBlock(s: State, acts: seq<Act>, level: nat)
    requires Inv(s, acts) && acts != [] && Top(acts).kind != Inside && 1 < level <= EnvironmentLevel(acts) + 1
    ensures var e := Environment(acts);
            && 0 <= e
            && IsFrame(Below(acts), Enclosing(acts, e, level - 1), level - 1, s.display[level - 1])
  {
    hide FormalsOk, FrameOk, OpsOk;
    var e := Environment(acts);
    EnvironmentInside(s.stack, acts);
    EnclosingFrame(s.display, s.stack, acts, e, level - 1);
    EnvironmentBelow(s.stack, acts);
    var i := Enclosing(acts, e, level - 1);
    assert Below(acts)[i] == acts[i];
  }

  lemma EnvironmentBelow(stack: seq<Cell>, acts: seq<Act>)
    requires Good(stack, acts) && acts != [] && Top(acts).kind != Inside
    ensures Environment(acts) < |acts| - 1
  {
    hide FormalsOk, FrameOk;
    GoodAt(stack, acts, |acts| - 1);
  }

  // What SCC does to the frame at f.
  lemma EnterCells(s: State, level: nat, f: nat)
    requires ARG <= s.stackBase && |s.display| == LEVELS && 1 <= level < LEVELS && f + ARG <= |s.stack|
    requires f == if BlockLevel(s) != 0 then s.stackBase - ARG else s.framePtr
    requires AddressAt(s.stack, f + BN) == 0
    ensures CanSetLevel(if BlockLevel(s) != 0 then s.(framePtr := s.stackBase - ARG) else s, level)
    ensures var s1 := Entered(s, level);
            && s1.framePtr == f && s1.stackBase == s.stackBase && s1.eis == s.eis && |s1.stack| == |s.stack|
            && (forall i :: 0 <= i < |s.stack| && i != f + BN && i != f + DISPLAY ==> s1.stack[i] == s.stack[i])
            && s1.stack[f + BN] == Address(level)
            && (level > 1 ==> s1.stack[f + DISPLAY] == Address(s.display[level - 1]))
            && s1.display == Updated(s.display, s1.stack, level, f)
  {
    hide BlockLevel, Updated;
  }

  lemma TopOk(s: State, acts: seq<Act>)
    requires Inv(s, acts) && acts != []
    ensures ActOk(s.stack, Top(acts), Below(acts))
  {
  }

  // The activation of a procedure that has learned its level.
  lemma EnterAct(s: State, acts: seq<Act>, level: nat, a: Act)
    requires Inv(s, acts) && Legal(s, acts, Enter(level)) && NextActs(s, acts, Enter(level)) == Below(acts) + [a]
    ensures CanStep(s, acts, Enter(level))
    ensures var s1 := Entered(s, level);
            && s1.framePtr == a.frame == a.fp && s1.stackBase == a.base == s.stackBase && s1.eis == s.eis
            && |s1.stack| == |s.stack| && (forall i :: 0 <= i < CurrentBase(Below(acts)) ==> s1.stack[i] == s.stack[i])
            && ActOk(s1.stack, a, Below(acts)) && a.kind == Inside && a.level == level && a.op == Top(acts).op
            && CurrentBase(Below(acts)) < a.base
            && s1.display == Updated(s.display, s1.stack, level, a.frame)
  {
    hide Good, Cached, OpsOk, Environment, Enclosing, EnvironmentLevel, Updated, FormalsOk, Entered, BlockLevel;
    hide AddressAt;
    var a0, before := Top(acts), Below(acts);
    assert (before + [a])[|acts| - 1] == a;
    LevelIs(s, acts);
    TopOk(s, acts);
    if level > 1 {
      EnclosingBlock(s, acts, level);
    }
    EnterCells(s, level, a0.frame);
    EnterOk(s.stack, Entered(s, level).stack, a0, a, before);
  }

  lemma EnterOk(stack: seq<Cell>, other: seq<Cell>, a0: Act, a: Act, before: seq<Act>)
    requires ActOk(stack, a0, before) && a0.kind != Inside && a0.base <= |stack| == |other|
    requires a == a0.(kind := Inside, level := a.level, fp := a0.frame, link := a.link) && 1 <= a.level < LEVELS
    requires var f := a.frame;
             && (forall i :: 0 <= i < |stack| && i != f + BN && i != f + DISPLAY ==> other[i] == stack[i])
             && other[f + BN] == Address(a.level)
             && (a.level > 1 ==>
                   other[f + DISPLAY].Address? && IsFrame(before, a.link, a.level - 1, other[f + DISPLAY].a))
    ensures ActOk(other, a, before)
  {
    assert FrameOk(other, a, before) && KindOk(other, a, before);
    EnterFormals(stack, other, a0, a, before);
  }

  lemma EnterFormals(stack: seq<Cell>, other: seq<Cell>, a0: Act, a: Act, before: seq<Act>)
    requires FormalsOk(stack, a0, before) && a.frame == a0.frame && a.args == a0.args
             && a.frame + ARG + 2 * a.args <= |stack| == |other|
    requires forall i :: a.frame + ARG <= i < |stack| ==> other[i] == stack[i]
    ensures FormalsOk(other, a, before)
  {
    hide Pard;
    forall k | 0 <= k < a.args
      ensures AddressAt(other, FormalCell(a, k)) == Pard(CurrentLevel(before), CurrentFp(before))
    {
      assert FormalCell(a, k) == FormalCell(a0, k);
    }
  }

  lemma EnterKeeps(s: State, acts: seq<Act>, ev: Event, v: Values)
    requires Inv(s, acts) && Legal(s, acts, ev) && ev.Enter?
    ensures CanStep(s, acts, ev) && Inv(Next(s, acts, ev, v), NextActs(s, acts, ev))
  {
    var before := Below(acts);
    var a := NextActs(s, acts, ev)[|acts| - 1];
    assert NextActs(s, acts, ev) == before + [a];
    EnterAct(s, acts, ev.level, a);
    hide Good, Cached, OpsOk, ActOk, Enclosing, NextActs, Legal;
    var s1 := Next(s, acts, ev, v);
    BaseBelow(s, acts);
    ActChanged(s.stack, s1.stack, s.eis, a.base, acts, a);
    OpsSame(s.eis, acts, a);
    assert (before + [a])[|acts| - 1] == a;
    UnwindCaches(s.display, s1.stack, before + [a], |acts| - 1);
  }

  lemma OpsSame(eis: map<nat, FormalOp>, acts: seq<Act>, a: Act)
    requires acts != [] && OpsOk(eis, acts) && a.base == Top(acts).base && a.op == Top(acts).op
    ensures eis[a.base := a.op] == eis
  {
  }

  lemma BaseBelow(s: State, acts: seq<Act>)
    requires Inv(s, acts) && acts != []
    ensures CurrentBase(Below(acts)) < CurrentBase(acts) <= |s.stack|
  {
    hide FormalsOk, KindOk;
  }

  // Releasing the frame of the top activation uncovers the one below, display included.
  lemma ReleaseKeeps(s: State, acts: seq<Act>)
    requires Good(s.stack, acts) && OpsOk(s.eis, acts) && |s.display| == LEVELS
    requires acts != [] && s.framePtr == Top(acts).frame < |s.stack|
    ensures CanRelease(s)
    ensures var s1, a := FrameReleased(s), Top(acts);
            && Inv(s1, Below(acts)) && s1.ot == a.ret && s1.stack == s.stack[..a.frame]
            && CurrentBase(Below(acts)) + 1 + (if TakesOne(a.op) then 1 else 0) <= a.frame
  {
    var a, before, s0 := Top(acts), Below(acts), FramePopped(s);
    assert ActOk(s.stack, a, before);
    hide FormalsOk, KindOk, Cached;
    PrefixLinks(s.stack, s0.stack, before);
    GoodStays(s.stack, s0.stack, before);
    LevelIs(s0, before);
    hide Good;
    ReleasedDisplay(s.display, s0.stack, before);
  }

  lemma ReleasedDisplay(display: seq<nat>, stack: seq<Cell>, acts: seq<Act>)
    requires Good(stack, acts) && |display| == LEVELS && (acts != [] ==> Top(acts).kind != Calling)
             && CurrentLevel(acts) < LEVELS
    ensures 0 <= Environment(acts) ==>
              Cached(Updated(display, stack, CurrentLevel(acts), CurrentFp(acts)), acts, Environment(acts))
  {
    if 0 < CurrentLevel(acts) {
      EnvironmentIs(stack, acts);
      UnwindCaches(display, stack, acts, Environment(acts));
    } else if acts != [] {
      hide FormalsOk, FrameOk;
      assert KindOk(stack, Top(acts), Below(acts));
    }
  }

  // Cells changed above the base.
  lemma UpperCells(s: State, acts: seq<Act>, stack: seq<Cell>)
    requires Inv(s, acts) && CurrentBase(acts) <= |stack|
    requires forall i :: 0 <= i < CurrentBase(acts) ==> stack[i] == s.stack[i]
    ensures Inv(s.(stack := stack), acts)
  {
    hide Good, Cached, OpsOk;
    PrefixLinks(s.stack, stack, acts);
    GoodStays(s.stack, stack, acts);
  }

  lemma ReturnKeeps(s: State, acts: seq<Act>, ev: Event, v: Values)
    requires Inv(s, acts) && Legal(s, acts, ev) && ev.Return?
    ensures CanStep(s, acts, ev) && Inv(Next(s, acts, ev, v), NextActs(s, acts, ev))
    ensures var s2, a := Next(s, acts, ev, v), Top(acts);
            && s2.ot == a.ret && 0 < a.frame <= |s.stack|
            && (if s.stack[a.frame - 1] == Null then s2.stack == s.stack[..a.frame - 1]
                else
                  && CanApply(s.(stack := s.stack[..a.frame]), a.op)
                  && s2.stack == Applied(a.op, v, s.stack[..a.frame]))
  {
    TopFrame(s, acts);
    ReleaseKeeps(s, acts);
    hide Inv, CanRelease, FrameReleased;
    UpperCells(FrameReleased(s), Below(acts), Next(s, acts, ev, v).stack);
  }

  lemma TopFrame(s: State, acts: seq<Act>)
    requires Inv(s, acts) && acts != []
    ensures Good(s.stack, acts) && OpsOk(s.eis, acts) && |s.display| == LEVELS
    ensures Top(acts).frame + ARG <= s.stackBase == CurrentBase(acts) <= |s.stack| && s.stackBase in s.eis
            && s.eis[s.stackBase] == Top(acts).op
    ensures Top(acts).kind == Inside ==> s.framePtr == Top(acts).frame
    ensures Top(acts).kind == Thunk ==> s.stackBase - ARG == Top(acts).frame
  {
    hide FormalsOk, Cached;
    assert ActOk(s.stack, Top(acts), Below(acts));
  }

  lemma EndUnfolded(s: State, v: Values, s1: State)
    requires s.stack != [] && ARG <= s.stackBase && CanRelease(ThunkEnding(s)) && s.stackBase in s.eis
    requires s1 == FrameReleased(ThunkEnding(s)) && CanApply(s1, s.eis[s.stackBase])
    ensures CanEndThunk(s)
    ensures ThunkEnded(s, v)
         == s1.(stack := Applied(s.eis[s.stackBase], v, s1.stack[|s1.stack| - 1 := s.stack[|s.stack| - 1]]))
  {
    hide FrameReleased, CanRelease, Applied;
  }

  lemma EndKeeps(s: State, acts: seq<Act>, ev: Event, v: Values)
    requires Inv(s, acts) && Legal(s, acts, ev) && ev.EndImplicit?
    ensures CanStep(s, acts, ev) && Inv(Next(s, acts, ev, v), NextActs(s, acts, ev))
    ensures var s2, a, n := Next(s, acts, ev, v), Top(acts), |s.stack|;
            && s2.ot == a.ret && |s2.stack| == a.frame - (if TakesOne(a.op) then 1 else 0)
            && s2.stack == Applied(a.op, v, s.stack[..a.frame - 1] + [s.stack[n - 1]])
  {
    hide Inv, Good, CanRelease, FrameReleased, OpsOk, Applied, CanEndThunk, ThunkEnded, TakesOne;
    TopFrame(s, acts);
    var s0, n := ThunkEnding(s), |s.stack|;
    PrefixLinks(s.stack, s0.stack, acts);
    GoodStays(s.stack, s0.stack, acts);
    ReleaseKeeps(s0, acts);
    var s1, f := FrameReleased(s0), Top(acts).frame;
    EndUnfolded(s, v, s1);
    var k := s1.stack[f - 1 := s.stack[n - 1]];
    assert k == s.stack[..f - 1] + [s.stack[n - 1]];
    UpperCells(s1, Below(acts), Applied(s.eis[s.stackBase], v, k));
  }

  // Every legal event can be carried out, and keeps the invariant.
  lemma StepKeeps(s: State, acts: seq<Act>, ev: Event, v: Values)
    requires Inv(s, acts) && Legal(s, acts, ev)
    ensures CanStep(s, acts, ev) && Inv(Next(s, acts, ev, v), NextActs(s, acts, ev))
  {
    hide Stacked, Cached, Environment, Legal, CanStep, Next, NextActs;
    match ev
    case Working(_) => WorkingKeeps(s, acts, ev, v);
    case Assign(_, _) => AssignKeeps(s, acts, ev, v);
    case Call(_, _, _) => CallKeeps(s, acts, ev, v);
    case Enter(_) => EnterKeeps(s, acts, ev, v);
    case Reserve(_) => ReserveKeeps(s, acts, ev, v);
    case Resume(_) => ResumeKeeps(s, acts, ev, v);
    case Implicit(_, _, _) => ImplicitKeeps(s, acts, ev, v);
    case EndImplicit => EndKeeps(s, acts, ev, v);
    case Return => ReturnKeeps(s, acts, ev, v);
  }

  // The frame reached from fp by so many DISPLAY links.
  function Walk(stack: seq<Cell>, fp: nat, steps: nat): nat
    decreases steps
  {
    if steps == 0 then fp else Walk(stack, AddressAt(stack, fp + DISPLAY), steps - 1)
  }

  lemma {:induction false} EnclosingIsWalk(stack: seq<Cell>, acts: seq<Act>, e: nat, k: nat)
    requires Good(stack, acts) && e < |acts| && acts[e].kind == Inside && 1 <= k <= acts[e].level
    ensures acts[Enclosing(acts, e, k)].frame == Walk(stack, acts[e].frame, acts[e].level - k)
    decreases e
  {
    hide FormalsOk, FrameOk, AddressAt;
    GoodAt(stack, acts, e);
    if k < acts[e].level {
      assert acts[..e][acts[e].link] == acts[acts[e].link];
      EnclosingIsWalk(stack, acts, acts[e].link, k);
    }
  }

  // In every state of a run the display holds what following the static links from the frame gives.
  lemma DisplayIsStaticChain(s: State, acts: seq<Act>, k: nat)
    requires Inv(s, acts) && 1 <= k <= BlockLevel(s)
    ensures BlockLevel(s) < LEVELS && s.display[k] == Walk(s.stack, s.framePtr, BlockLevel(s) - k)
    ensures exists i :: IsFrame(acts, i, k, s.display[k])
  {
    LevelIs(s, acts);
    EnvironmentIs(s.stack, acts);
    hide Good, OpsOk, BlockLevel, Environment;
    var e := Environment(acts);
    EnclosingFrame(s.display, s.stack, acts, e, k);
    EnclosingIsWalk(s.stack, acts, e, k);
  }

  // All links point down the stack.
  lemma LinksPointDown(s: State, acts: seq<Act>, i: nat)
    requires Inv(s, acts) && i < |acts|
    ensures var f := acts[i].frame;
            && AddressAt(s.stack, f + FP) < f && AddressAt(s.stack, f + SP) < f
            && (acts[i].kind == Inside && acts[i].level > 1 ==> AddressAt(s.stack, f + DISPLAY) < f)
            && AddressAt(s.stack, f + SP) < acts[i].base
  {
    hide FormalsOk, Good, OpsOk, Cached, AddressAt, Environment;
    GoodAt(s.stack, acts, i);
    var before := acts[..i];
    if i > 0 {
      FpBelowBase(s, acts, i - 1);
      assert before[i - 1] == acts[i - 1];
    }
    if acts[i].kind == Inside && acts[i].level > 1 {
      var l := acts[i].link;
      assert before[l] == acts[l];
      FpBelowBase(s, acts, l);
      BasesRise(s, acts, l, i);
    }
  }

  lemma FpBelowBase(s: State, acts: seq<Act>, i: nat)
    requires Good(s.stack, acts) && i < |acts|
    ensures acts[i].fp < acts[i].base && acts[i].frame < acts[i].base
  {
    hide FormalsOk, AddressAt;
    GoodAt(s.stack, acts, i);
    var a := acts[i];
    if a.kind == Thunk && a.level > 0 {
      assert acts[..i][a.link] == acts[a.link];
      FpBelowBase(s, acts, a.link);
      BasesRise(s, acts, a.link, i);
    }
  }

  // Bases rise strictly, so no two active calls record their operation in the same place.
  lemma {:induction false} BasesRise(s: State, acts: seq<Act>, i: nat, j: nat)
    requires Good(s.stack, acts) && i < j < |acts|
    ensures acts[i].base < acts[j].frame < acts[j].base
    decreases j
  {
    hide FormalsOk, KindOk, AddressAt;
    GoodAt(s.stack, acts, j);
    assert acts[..j][j - 1] == acts[j - 1];
    if i < j - 1 {
      BasesRise(s, acts, i, j - 1);
    }
  }

  /**
   The block level FOR0 computes is one more than that of the caller.  In front of the first block it
   is read from a cell that is not a block level at all, but holds 0 when the stack was empty.
   */
  lemma ForLevel(s: State, acts: seq<Act>)
    requires Inv(s, acts) && acts != [] && Top(acts).kind == Calling
    requires |acts| > 1 || Top(acts).frame == 1
    ensures BlockLevel(s) == 0
    ensures AddressAt(s.stack, AddressAt(s.stack, s.framePtr + FP) + BN) == EnvironmentLevel(acts)
  {
    hide Good, FormalsOk, OpsOk, Cached, AddressAt, Environment, BlockLevel;
    var before := Below(acts);
    TopOk(s, acts);
    LevelIs(s, acts);
    CallingEnvironment(acts);
    if before != [] {
      CallerLevel(s, acts);
      BlockLevelAt(s.(framePtr := CurrentFp(before), stackBase := CurrentBase(before)));
    }
  }

  lemma BlockLevelAt(s: State)
    requires s.stackBase != 0
    ensures BlockLevel(s) == AddressAt(s.stack, s.framePtr + BN)
  {
  }

  lemma CallingEnvironment(acts: seq<Act>)
    requires acts != [] && Top(acts).kind == Calling
    ensures EnvironmentLevel(acts) == EnvironmentLevel(Below(acts)) && EnvironmentLevel([]) == 0
  {
  }

  // The block that makes the call: its level is the current one without the call.
  lemma CallerLevel(s: State, acts: seq<Act>)
    requires Inv(s, acts) && acts != [] && Below(acts) != []
    ensures var before := Below(acts);
            && CurrentBase(before) != 0 && CurrentLevel(before) == EnvironmentLevel(before)
            && BlockLevel(s.(framePtr := CurrentFp(before), stackBase := CurrentBase(before))) == CurrentLevel(before)
  {
    hide FormalsOk, FrameOk, OpsOk, Cached, AddressAt, BlockLevel;
    var before := Below(acts);
    LevelIs(s.(framePtr := CurrentFp(before), stackBase := CurrentBase(before)), before);
    if 0 < CurrentLevel(before) {
      EnvironmentIs(s.stack, before);
    }
    assert KindOk(s.stack, Top(before), Below(before));
  }
}
