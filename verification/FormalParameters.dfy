/**
 Formal parameters: how the descriptor of the actual parameter is found from a dynamic address, and
 through how many calls it may have been passed on.
 */
module FormalParameters {
  import opened StackCells
  import opened RunTimeState
  import opened X1Integers
  import opened Activations
  import opened RunTimeSafety
  import opened RunTimeRuns

  const PASSED_ON := 6
  const REAL_IN_STORE := 0
  const INTEGER_IN_STORE := 16
  const REAL_IN_STACK := 2
  const INTEGER_IN_STACK := 18
  const VALUE_ROUTINE := 32
  const ADDRESS_ROUTINE := 48

  // The parts of a descriptor: 5 digits block level, 1 that is not used here, 6 for the kind, 15 address.
  function Sort(descriptor: nat): nat {
    descriptor / 0x8000 % 64
  }

  function PlaceOf(descriptor: nat): nat {
    descriptor % 0x8000
  }

  function LevelOf(descriptor: nat): nat {
    descriptor / 0x400000
  }

  // A dynamic address: the block level, and the place in the frame of that block.
  function DynamicAddress(level: nat, place: nat): nat {
    place * 32 + level
  }

  // Descriptors stand in front of the return address, that of parameter 0 nearest to it.
  function DescriptorOf(memory: int -> nat, a: Act, k: nat): nat {
    memory(a.ret - k - 3)
  }

  function ParameterAt(place: nat): nat {
    if place < ARG then 0 else (place - ARG) / 2
  }

  /**
   The actual parameter behind parameter k of activation i: where a parameter was passed on, that of
   the procedure it came from.
   */
  function Origin(acts: seq<Act>, memory: int -> nat, i: nat, k: nat): (o: (nat, nat))
    requires i < |acts|
    ensures o.0 <= i
    decreases i
  {
    var d, e := DescriptorOf(memory, acts[i], k), Environment(acts[..i]);
    if Sort(d) != PASSED_ON || e < 0 then (i, k)
    else Origin(acts, memory, Enclosing(acts, e, LevelOf(d)), ParameterAt(PlaceOf(d)))
  }

  // A parameter passed on is one of a procedure around the call.
  predicate Wired(acts: seq<Act>, memory: int -> nat) {
    forall i, k :: 0 <= i < |acts| && 0 <= k < acts[i].args ==> WiredAt(acts, memory, i, k)
  }

  predicate WiredAt(acts: seq<Act>, memory: int -> nat, i: nat, k: nat)
    requires i < |acts|
  {
    var d, e := DescriptorOf(memory, acts[i], k), Environment(acts[..i]);
    Sort(d) == PASSED_ON ==>
      && 0 <= e && 1 <= LevelOf(d) <= acts[e].level
      && PlaceOf(d) == ARG + 2 * ParameterAt(PlaceOf(d))
      && ParameterAt(PlaceOf(d)) < acts[Enclosing(acts, e, LevelOf(d))].args
  }

  // The dynamic address names parameter k of activation i.
  predicate Names(display: seq<nat>, acts: seq<Act>, dynamic: nat, i: nat, k: nat) {
    && i < |acts| && acts[i].kind == Inside && k < acts[i].args && acts[i].level < LEVELS == |display|
    && dynamic == DynamicAddress(acts[i].level, ARG + 2 * k) && display[acts[i].level] == acts[i].frame
  }

  lemma AddressParts(level: nat, place: nat)
    requires level < LEVELS
    ensures DynamicAddress(level, place) % 32 == level && DynamicAddress(level, place) / 32 == place
  {
  }

  lemma {:induction false} OrZero(x: nat)
    ensures Or(x, 0) == x
    decreases x
  {
    if x > 0 {
      OrZero(x / 2);
    }
  }

  function Digit(x: nat, k: nat): nat {
    if k == 0 then x % 2 else Digit(x / 2, k - 1)
  }

  // What is put together has a one exactly where one of the two has one.
  lemma {:induction false} OrDigit(x: nat, y: nat, k: nat)
    ensures Digit(Or(x, y), k) == 1 <==> Digit(x, k) == 1 || Digit(y, k) == 1
    decreases k
  {
    OrHalves(x, y);
    hide Or;
    if k > 0 {
      OrDigit(x / 2, y / 2, k - 1);
    }
  }

  lemma OrHalves(x: nat, y: nat)
    ensures Or(x, y) / 2 == Or(x / 2, y / 2) && (Or(x, y) % 2 == 1 <==> x % 2 == 1 || y % 2 == 1)
  {
    var low := if x % 2 == 1 || y % 2 == 1 then 1 else 0;
    assert Or(x, y) == low + 2 * Or(x / 2, y / 2);
  }

  // Level and frame can be told apart again exactly for frames below 2^15.
  lemma PardParts(level: nat, fp: nat)
    ensures Pard(level, fp) / 0x8000 == level && Pard(level, fp) % 0x8000 == fp <==> fp < 0x8000
  {
    if fp < 0x8000 {
      OrZero(level);
    }
    hide Or;
    LowDigits(Or(level, fp / 0x8000), fp % 0x8000);
  }

  lemma LowDigits(high: nat, low: nat)
    requires low < 0x8000
    ensures (high * 0x8000 + low) / 0x8000 == high && (high * 0x8000 + low) % 0x8000 == low
  {
  }

  // A call at level 2 from the frame at 2^15 looks like one at level 3 from the frame at 0.
  lemma HighFrame()
    ensures Pard(2, 0x8000) / 0x8000 == 3 && Pard(2, 0x8000) % 0x8000 == 0
  {
    assert Or(2, 1) == 3;
  }

  // The environment of a call is among the activations below it.
  lemma CallerEnvironment(stack: seq<Cell>, acts: seq<Act>, i: nat)
    requires Good(stack, acts) && i < |acts|
    ensures var e, before := Environment(acts[..i]), acts[..i];
            && e < i
            && (0 <= e ==> acts[e].kind == Inside && before[e] == acts[e])
            && (0 <= e && acts[i].kind != Calling && (i > 0 ==> acts[i - 1].kind != Calling)
                ==> acts[e].level == CurrentLevel(before) && acts[e].frame == CurrentFp(before))
  {
    hide FormalsOk, FrameOk, AddressAt;
    GoodAt(stack, acts, i);
    var before := acts[..i];
    EnvironmentInside(stack, before);
    if i > 0 {
      assert before[i - 1] == acts[i - 1];
      GoodAt(stack, acts, i - 1);
      if 0 < CurrentLevel(before) {
        EnvironmentIs(stack, before);
      }
    }
  }

  lemma WiredHere(acts: seq<Act>, memory: int -> nat, i: nat, k: nat)
    requires Wired(acts, memory) && i < |acts| && k < acts[i].args
    ensures WiredAt(acts, memory, i, k)
  {
  }

  // One step back along a parameter that was passed on, with the display unwound on the way.
  lemma StepBack(s: State, acts: seq<Act>, memory: int -> nat, i: nat, k: nat)
    requires Stacked(s, acts) && Wired(acts, memory) && CurrentBase(acts) < 0x8000
    requires i < |acts| && acts[i].kind == Inside && k < acts[i].args
             && Sort(DescriptorOf(memory, acts[i], k)) == PASSED_ON
    ensures var pard := AddressAt(s.stack, FormalCell(acts[i], k));
            pard / 0x8000 < LEVELS
    ensures var d, e := DescriptorOf(memory, acts[i], k), Environment(acts[..i]);
            var pard := AddressAt(s.stack, FormalCell(acts[i], k));
            var display := Updated(s.display, s.stack, pard / 0x8000, pard % 0x8000);
            && 0 <= e < i && Enclosing(acts, e, LevelOf(d)) < i
            && Names(display, acts, DynamicAddress(LevelOf(d), PlaceOf(d)), Enclosing(acts, e, LevelOf(d)),
                     ParameterAt(PlaceOf(d)))
  {
    hide Good, OpsOk, Cached, AddressAt, Pard, Environment, Enclosing, Sort, LevelOf, PlaceOf, DescriptorOf;
    hide DynamicAddress, ParameterAt, Updated, Wired, ActOk;
    WiredHere(acts, memory, i, k);
    var d, before := DescriptorOf(memory, acts[i], k), acts[..i];
    var e := Environment(before);
    CallPlace(s, acts, i, k);
    CallerEnvironment(s.stack, acts, i);
    UnwindCaches(s.display, s.stack, acts, e);
    EnclosingFrame(Updated(s.display, s.stack, acts[e].level, acts[e].frame), s.stack, acts, e, LevelOf(d));
  }

  // The second cell of a formal parameter gives the level and the frame of the call.
  lemma CallPlace(s: State, acts: seq<Act>, i: nat, k: nat)
    requires Stacked(s, acts) && CurrentBase(acts) < 0x8000 && i < |acts| && k < acts[i].args && acts[i].kind != Thunk
    ensures var pard, e := AddressAt(s.stack, FormalCell(acts[i], k)), Environment(acts[..i]);
            && pard / 0x8000 == CurrentLevel(acts[..i]) < LEVELS && pard % 0x8000 == CurrentFp(acts[..i])
            && (if 0 < CurrentLevel(acts[..i]) then
                  0 <= e && IsFrame(acts, e, CurrentLevel(acts[..i]), CurrentFp(acts[..i]))
                else
                  e < 0)
            && -1 <= e < i
  {
    hide AddressAt, Pard, OpsOk, Cached;
    var before := acts[..i];
    GoodAt(s.stack, acts, i);
    if i > 0 {
      GoodAt(s.stack, acts, i - 1);
      assert before[i - 1] == acts[i - 1];
      FpBelowBase(s, acts, i - 1);
      assert KindOk(s.stack, acts[i - 1], acts[..i - 1]);
      assert Below(before) == acts[..i - 1];
      if 0 < CurrentLevel(before) {
        EnvironmentIs(s.stack, before);
        assert before[Environment(before)] == acts[Environment(before)];
      }
    }
    PardParts(CurrentLevel(before), CurrentFp(before));
  }

  // Whatever the height of the stack: the cell names the place of the call exactly when the frame of the
  // caller lies below 2^15.
  lemma CallPlaceExactly(s: State, acts: seq<Act>, i: nat, k: nat)
    requires Inv(s, acts) && i < |acts| && k < acts[i].args
    ensures var pard, before := AddressAt(s.stack, FormalCell(acts[i], k)), acts[..i];
            pard / 0x8000 == CurrentLevel(before) && pard % 0x8000 == CurrentFp(before) <==> CurrentFp(before) < 0x8000
  {
    hide AddressAt, Pard, OpsOk, Cached, KindOk, FrameOk, Environment;
    GoodAt(s.stack, acts, i);
    PardParts(CurrentLevel(acts[..i]), CurrentFp(acts[..i]));
  }

  // The operation for an implicit subroutine that delivers an address.
  function Deref(op: FormalOp): FormalOp {
    match op
    case PushValue => PushDeref
    case AddTo => AddDeref
    case Subtract => SubtractDeref
    case Multiply => MultiplyDeref
    case Divide => DivideDeref
    case _ => op
  }

  // The operations with which formal parameters are asked for.
  predicate Requested(op: FormalOp) {
    op in {PushValue, PushAddress, PushString, AddTo, Subtract, Multiply, Divide}
  }

  // The stack after an operation with the variable or string at an address.
  function Used(op: FormalOp, v: Values, stack: seq<Cell>, address: Cell): (k: seq<Cell>)
    requires Requested(op) && (TakesOne(op) ==> stack != [])
    ensures |k| == |stack| + if TakesOne(op) then 0 else 1
    ensures forall i :: 0 <= i < |stack| && !(TakesOne(op) && i == |stack| - 1) ==> k[i] == stack[i]
  {
    if op in {PushAddress, PushString} then stack + [address]
    else if op == PushValue then stack + [Load(v, stack, address)]
    else stack[|stack| - 1 := Combined(v, op, stack[|stack| - 1], Load(v, stack, address))]
  }

  /**
   It makes no difference whether a parameter is used at once, by a routine that delivers its value, or by one
   that delivers its address.
   */
  lemma TakenAlike(op: FormalOp, v: Values, k: seq<Cell>, a: Cell)
    requires Requested(op) && op !in {PushAddress, PushString} && (TakesOne(op) ==> k != [])
    requires a.Address? || a.RealAddress? ==> a.a != STACK_BASE + |k|
    ensures Applied(op, v, k + [Load(v, k, a)]) == Used(op, v, k, a)
    ensures Applied(Deref(op), v, k + [a]) == Used(op, v, k, a)
  {
    hide Load, Combined;
    var l := [Load(v, k, a)];
    assert (k + l)[..|k|] == k && (k + [a])[..|k|] == k;
    if op == PushValue {
      LoadFromBelow(v, k, a);
    }
  }

  lemma LoadFromBelow(v: Values, k: seq<Cell>, a: Cell)
    requires a.Address? || a.RealAddress? ==> a.a != STACK_BASE + |k|
    ensures Load(v, k + [a], a) == Load(v, k, a)
  {
  }

  // k is left with the integer x op f on it.
  predicate Result(op: FormalOp, x: int, f: int, k: seq<Cell>, result: seq<Cell>) {
    && |result| == |k| + 1 && result[..|k|] == k && result[|k|].Word? && IsWord(result[|k|].w)
    && ToInt(result[|k|].w) ==
         match op
         case AddTo => x + f
         case Subtract => x - f
         case _ => x * f
  }

  predicate Calculates(op: FormalOp, x: int, f: int) {
    && op in {AddTo, Subtract, Multiply}
    && (op == AddTo ==> Fits(x + f)) && (op == Subtract ==> Fits(x - f)) && (op == Multiply ==> Fits(x * f))
  }

  // With x on the stack and the integer f as the parameter, the operation delivers x op f, in this order.
  lemma OperationMeant(op: FormalOp, v: Values, k: seq<Cell>, x: int, f: int)
    requires Calculates(op, ToInt(x), ToInt(f))
    ensures Result(op, ToInt(x), ToInt(f), k, Applied(op, v, k + [Word(x), Word(f)]))
    ensures forall a: Cell :: Load(v, k + [Word(x)], a) == Word(f) ==>
              Result(op, ToInt(x), ToInt(f), k, Applied(Deref(op), v, k + [Word(x), a]))
    ensures forall a: Cell :: Load(v, k + [Word(x)], a) == Word(f) ==>
              Result(op, ToInt(x), ToInt(f), k, Used(op, v, k + [Word(x)], a))
  {
    hide Load, Applied, Used, Result, Combined;
    var c := Combined(v, op, Word(x), Word(f));
    CombinedMeant(op, v, k, x, f);
    var kx := k + [Word(x)];
    AppliedCell(op, v, k, Word(x), Word(f));
    forall a: Cell | Load(v, kx, a) == Word(f)
      ensures Result(op, ToInt(x), ToInt(f), k, Applied(Deref(op), v, k + [Word(x), a]))
      ensures Result(op, ToInt(x), ToInt(f), k, Used(op, v, kx, a))
    {
      AppliedCell(op, v, k, Word(x), a);
    }
  }

  lemma CombinedMeant(op: FormalOp, v: Values, k: seq<Cell>, x: int, f: int)
    requires Calculates(op, ToInt(x), ToInt(f))
    ensures Result(op, ToInt(x), ToInt(f), k, k + [Combined(v, op, Word(x), Word(f))])
  {
  }

  lemma AppliedCell(op: FormalOp, v: Values, k: seq<Cell>, x: Cell, c: Cell)
    requires op in {AddTo, Subtract, Multiply}
    ensures Applied(op, v, k + [x, c]) == k + [Combined(v, op, x, c)]
    ensures Applied(Deref(op), v, k + [x, c]) == k + [Combined(v, op, x, Load(v, k + [x], c))]
    ensures Used(op, v, k + [x], c) == k + [Combined(v, op, x, Load(v, k + [x], c))]
  {
    hide Load, Combined;
    assert (k + [x, c])[..|k| + 1] == k + [x];
  }

  // A variable in the stack is loaded with what its cell holds.
  lemma VariableLoaded(v: Values, k: seq<Cell>, i: nat)
    requires i < |k|
    ensures k[i].Word? && IsWord(k[i].w) ==> Load(v, k, Address(STACK_BASE + i)) == k[i]
    ensures k[i].Real? && 0 <= k[i].r < 0x40000000000000 ==> Load(v, k, RealAddress(STACK_BASE + i)) == k[i]
  {
  }

  // A variable in the stack must belong to a block around the call.
  predicate Known(acts: seq<Act>, i: nat, d: nat)
    requires i < |acts|
  {
    && Sort(d) in {REAL_IN_STORE, INTEGER_IN_STORE, REAL_IN_STACK, INTEGER_IN_STACK, VALUE_ROUTINE, ADDRESS_ROUTINE}
    && (Sort(d) in {REAL_IN_STACK, INTEGER_IN_STACK} ==> 1 <= LevelOf(d) <= EnvironmentLevel(acts[..i]))
  }

  // The exceptions of take_formal.
  predicate Refused(acts: seq<Act>, i: nat, d: nat, op: FormalOp)
    requires i < |acts|
  {
    !Known(acts, i, d) || (op == PushString && Sort(d) == ADDRESS_ROUTINE)
  }

  // Variables and strings are used at once, other parameters by running their routine.
  predicate AtOnce(d: nat, op: FormalOp) {
    Sort(d) !in {VALUE_ROUTINE, ADDRESS_ROUTINE} || op == PushString
  }

  // The address of a parameter used at once, seen from activation i.
  function VariableAddress(acts: seq<Act>, i: nat, d: nat): Cell
    requires i < |acts|
  {
    var e := Environment(acts[..i]);
    match Sort(d)
    case 0 => RealAddress(PlaceOf(d))
    case 16 => Address(PlaceOf(d))
    case 32 => Address(PlaceOf(d))
    case 2 => RealAddress((if e < 0 then 0 else acts[Enclosing(acts, e, LevelOf(d))].frame) + PlaceOf(d) + STACK_BASE)
    case _ => Address((if e < 0 then 0 else acts[Enclosing(acts, e, LevelOf(d))].frame) + PlaceOf(d) + STACK_BASE)
  }

  // The entry of the routine of an actual parameter, as an event of the run.
  function RoutineEvent(acts: seq<Act>, i: nat, d: nat, op: FormalOp): Event
    requires i < |acts|
  {
    Implicit(Environment(acts[..i]), if Sort(d) == ADDRESS_ROUTINE then Deref(op) else op, PlaceOf(d))
  }

  // The cells of the frame of an implicit subroutine, with the place for its result.
  function RoutineCells(s: State): seq<Cell> {
    [Word(0), Address(s.framePtr), Address(s.ot), Address(s.stackBase), Address(0), Address(0)]
  }

  // t is what take_formal makes of s for parameter k of activation i, asked for with op.
  predicate Taken(s: State, t: State, acts: seq<Act>, memory: int -> nat, v: Values, i: nat, k: nat, op: FormalOp)
    requires i < |acts| && Requested(op) && (TakesOne(op) ==> s.stack != [])
  {
    var o := Origin(acts, memory, i, k);
    var d := DescriptorOf(memory, acts[o.0], o.1);
    if AtOnce(d, op) then
      Inv(t, acts) && t.stack == Used(op, v, s.stack, VariableAddress(acts, o.0, d)) && t.ot == s.ot
    else
      && EnteredFrom(s, acts, RoutineEvent(acts, o.0, d, op), t)
      && t.stack == s.stack + RoutineCells(s) && t.ot == PlaceOf(d)
  }

  /**
   By-name evaluation, from asking for a formal parameter in s to the end of the routine of its actual
   parameter, through however many calls the parameter was passed on, and whatever the routine calls:
   the block of s is back, the recorded operation has been done with the routine's result, the cells
   below are as they were, and the machine goes on where it was.
   */
  lemma FormalEvaluated(s: State, t: State, acts: seq<Act>, memory: int -> nat, v: Values, i: nat, k: nat, op: FormalOp,
                        evs: seq<Event>, last: Event, s2: State, acts2: seq<Act>)
    requires i < |acts| && Requested(op) && (TakesOne(op) ==> s.stack != [])
    requires Inv(s, acts) && Taken(s, t, acts, memory, v, i, k, op)
    requires var o := Origin(acts, memory, i, k);
             var d := DescriptorOf(memory, acts[o.0], o.1);
             var ev := RoutineEvent(acts, o.0, d, op);
             && !AtOnce(d, op) && Legal(s, acts, ev) && Inner(t, NextActs(s, acts, ev), evs, v, |acts|, s2, acts2)
             && NotResumed(t, NextActs(s, acts, ev), evs, v, |acts|)
    requires Legal(s2, acts2, last) && (last.Return? || last.EndImplicit?)
    ensures CanStep(s2, acts2, last) && NextActs(s2, acts2, last) == acts
    ensures var o := Origin(acts, memory, i, k);
            var d := DescriptorOf(memory, acts[o.0], o.1);
            var s3 := Next(s2, acts2, last, v);
            && Inv(s3, acts) && SameBlock(s, s3, acts) && s3.ot == s.ot
            && Delivered(s, s2, last, if Sort(d) == ADDRESS_ROUTINE then Deref(op) else op, v, s3)
    ensures var s3 := Next(s2, acts2, last, v);
            && |s.stack| - 1 <= |s3.stack|
            && forall c :: 0 <= c < |s.stack| - 1 && Spared(evs, c) ==> s3.stack[c] == s.stack[c]
  {
    hide Inv, Legal, Inner, NextActs, CanStep, Next, Delivered, SameBlock, Spared, NotResumed, Origin, DescriptorOf;
    hide EnteredFrom, TakesOne;
    var o := Origin(acts, memory, i, k);
    var first := RoutineEvent(acts, o.0, DescriptorOf(memory, acts[o.0], o.1), op);
    BalancedRun(s, acts, first, t, evs, last, v, s2, acts2);
  }

  // The cell a call or an implicit subroutine that ends in s2 delivers to the stack of s.
  function DeliveredCell(s: State, s2: State, last: Event): Cell
    requires |s.stack| < |s2.stack|
  {
    if last.EndImplicit? then s2.stack[|s2.stack| - 1] else s2.stack[|s.stack|]
  }

  /**
   Where x was on top of the stack and the routine delivers the integer f, or the address of a variable with
   this value, x op f takes their place, whatever routine it was and however it ended.
   */
  lemma DeliveredMeans(s: State, s2: State, last: Event, op: FormalOp, recorded: FormalOp, v: Values, s3: State,
                       x: int, f: int)
    requires s.stack != [] && |s.stack| < |s2.stack| && s2.stack[|s.stack| - 1] == Word(x)
    requires Calculates(op, ToInt(x), ToInt(f))
    requires Delivered(s, s2, last, recorded, v, s3) && recorded in {op, Deref(op)}
    requires var d := DeliveredCell(s, s2, last);
             d != Null && Word(f) == if recorded == op then d else Load(v, s2.stack[..|s.stack|], d)
    ensures Result(op, ToInt(x), ToInt(f), s2.stack[..|s.stack| - 1], s3.stack)
  {
    hide Load, Applied, Used, Result, Calculates;
    var d, k := DeliveredCell(s, s2, last), s2.stack[..|s.stack| - 1];
    assert s2.stack[..|s.stack|] == k + [Word(x)];
    assert k + [Word(x)] + [d] == k + [Word(x), d];
    assert !last.EndImplicit? ==> s2.stack[..|s.stack| + 1] == k + [Word(x), d];
    OperationMeant(op, v, k, x, f);
  }

  // The frame of an enclosing block is reached by the DISPLAY links from the place of the call.
  lemma ReachesFrame(s: State, acts: seq<Act>, i: nat, k: nat, level: nat)
    requires Stacked(s, acts) && CurrentBase(acts) < 0x8000
    requires i < |acts| && acts[i].kind == Inside && k < acts[i].args
    requires 1 <= level <= EnvironmentLevel(acts[..i])
    ensures var pard, e := AddressAt(s.stack, FormalCell(acts[i], k)), Environment(acts[..i]);
            && level <= pard / 0x8000
            && 0 <= e && Walk(s.stack, pard % 0x8000, pard / 0x8000 - level) == acts[Enclosing(acts, e, level)].frame
  {
    hide Good, OpsOk, Cached, AddressAt, Environment, Enclosing, Walk;
    CallPlace(s, acts, i, k);
    CallerEnvironment(s.stack, acts, i);
    var e := Environment(acts[..i]);
    EnclosingIsWalk(s.stack, acts, e, level);
  }
}
