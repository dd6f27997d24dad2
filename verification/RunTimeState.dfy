/**
 The run-time machine as far as procedure frames, the display and implicit subroutines go.  The
 functions say what each order does to the whole state; class Processor works in place.
 */
module RunTimeState {
  import opened StackCells
  import opened X1Integers

  // What happens to the value or address a formal parameter delivers.
  datatype FormalOp =
    | PushValue | PushAddress | PushString
    | AddTo | Subtract | Multiply | Divide
    | PushDeref | AddDeref | SubtractDeref | MultiplyDeref | DivideDeref

  const FP := 0
  const PC := 1
  const SP := 2
  const BN := 3
  const DISPLAY := 4
  const ARG := 5
  const LEVELS := 32

  // Arithmetic with a real operand or result, and the value at an address in the store.
  datatype Values = Values(combine: (FormalOp, Cell, Cell) -> Cell, memory: Cell -> Cell)

  datatype State = State(
    stack: seq<Cell>, framePtr: nat, stackBase: nat, display: seq<nat>, eis: map<nat, FormalOp>, ot: nat)

  // The address in a cell of the stack; 0 where there is none.
  function AddressAt(stack: seq<Cell>, i: nat): nat {
    if i < |stack| && (stack[i].Address? || stack[i].RealAddress?) then stack[i].a else 0
  }

  function Contents(c: Cell): int {
    match c
    case Word(w) => w
    case Real(r) => r
    case Address(a) => a
    case RealAddress(a) => a
    case Null => 0
  }

  // The value at an address; the type of the address says whether it is an integer or a real number.
  function Load(v: Values, stack: seq<Cell>, c: Cell): Cell {
    match c
    case Address(a) =>
      if STACK_BASE <= a < STACK_BASE + |stack| then Word(Contents(stack[a - STACK_BASE]) % 0x8000000) else v.memory(c)
    case RealAddress(a) =>
      if STACK_BASE <= a < STACK_BASE + |stack| then Real(Contents(stack[a - STACK_BASE]) % 0x40000000000000)
      else v.memory(c)
    case _ => v.memory(c)
  }

  function Arithmetic(op: FormalOp, a: int, b: int): int {
    match op
    case AddTo => a + b
    case Subtract => a - b
    case _ => a * b
  }

  // Two integers have an integer result where it fits; a quotient is always real.
  function Combined(v: Values, op: FormalOp, x: Cell, y: Cell): Cell {
    if op in {AddTo, Subtract, Multiply} && x.Word? && y.Word? && Fits(Arithmetic(op, ToInt(x.w), ToInt(y.w)))
    then Word(FromInt(Arithmetic(op, ToInt(x.w), ToInt(y.w))))
    else v.combine(op, x, y)
  }

  function BlockLevel(s: State): nat {
    if s.stackBase == 0 then 0 else AddressAt(s.stack, s.framePtr + BN)
  }

  // display[1..level] after unwinding from the frame fp.
  function Updated(display: seq<nat>, stack: seq<Cell>, level: nat, fp: nat): (d: seq<nat>)
    requires |display| == LEVELS && level < LEVELS
    ensures |d| == LEVELS
    ensures forall k :: level < k < LEVELS ==> d[k] == display[k]
    decreases level
  {
    if level == 0 then display else Updated(display[level := fp], stack, level - 1, AddressAt(stack, fp + DISPLAY))
  }

  // The cells of the formal parameters, with the place of the call in the second cell of each.
  function Formals(pard: nat, args: nat): (c: seq<Cell>)
    ensures |c| == 2 * args
    decreases args
  {
    if args == 0 then [] else Formals(pard, args - 1) + [Word(0), Address(pard)]
  }

  // Digit by digit: a one where one of the two has a one.
  function Or(x: nat, y: nat): nat {
    if x == 0 && y == 0 then 0 else (if x % 2 == 1 || y % 2 == 1 then 1 else 0) + 2 * Or(x / 2, y / 2)
  }

  // The level and frame of a call in one number; the frame has fifteen digits for itself.
  function Pard(level: nat, fp: nat): nat {
    Or(level, fp / 0x8000) * 0x8000 + fp % 0x8000
  }

  function FrameCreated(s: State, ret: nat, args: nat): State {
    var links := [Address(s.framePtr), Address(ret), Address(s.stackBase), Address(0), Address(0)];
    var stack := s.stack + links + Formals(Pard(BlockLevel(s), s.framePtr), args);
    s.(stack := stack, framePtr := |s.stack|, stackBase := |stack|, eis := s.eis[|stack| := PushValue])
  }

  // The frame is taken off the stack; the display still belongs to it.
  function FramePopped(s: State): State
    requires s.framePtr < |s.stack|
  {
    s.(stack := s.stack[..s.framePtr], framePtr := AddressAt(s.stack, s.framePtr + FP),
       stackBase := AddressAt(s.stack, s.framePtr + SP), ot := AddressAt(s.stack, s.framePtr + PC))
  }

  predicate CanRelease(s: State) {
    |s.display| == LEVELS && s.framePtr < |s.stack| && BlockLevel(FramePopped(s)) < LEVELS
  }

  function FrameReleased(s: State): State
    requires CanRelease(s)
  {
    var s1 := FramePopped(s);
    s1.(display := Updated(s1.display, s1.stack, BlockLevel(s1), s1.framePtr))
  }

  // A call with args parameters; null says that no result is expected.
  function Called(s: State, result: Cell, args: nat, target: nat): State {
    FrameCreated(s.(stack := s.stack + [result]), s.ot, args).(ot := target)
  }

  predicate CanSetLevel(s: State, level: nat) {
    |s.display| == LEVELS && 1 <= level < LEVELS && s.framePtr + ARG <= |s.stack|
  }

  function LevelSet(s: State, level: nat): State
    requires CanSetLevel(s, level)
  {
    var i, j := s.framePtr + BN, s.framePtr + DISPLAY;
    var stack := if AddressAt(s.stack, i) == 0 then s.stack[i := Address(level)] else s.stack;
    s.(stack := if level > 1 then stack[j := Address(s.display[level - 1])] else stack)
  }

  // The block level the frame runs at is only known to the procedure itself (SCC).
  function Entered(s: State, level: nat): State
    requires ARG <= s.stackBase
    requires CanSetLevel(if BlockLevel(s) != 0 then s.(framePtr := s.stackBase - ARG) else s, level)
  {
    var s1 := if BlockLevel(s) != 0 then s.(framePtr := s.stackBase - ARG) else s;
    var s2 := LevelSet(s1, level);
    s2.(display := Updated(s2.display, s2.stack, level, s2.framePtr))
  }

  // Cells for n local variables.
  function Cleared(n: nat): (c: seq<Cell>)
    ensures |c| == n
  {
    seq(n, _ => Word(0))
  }

  // The cells join the local ones, above which the working cells begin.
  function Reserved(s: State, cells: seq<Cell>): State
    requires s.stackBase in s.eis
  {
    var base := s.stackBase + |cells|;
    s.(stack := s.stack + cells, stackBase := base, eis := s.eis[base := s.eis[s.stackBase]])
  }

  // A for statement sets where it goes on after the controlled statement (FOR2, FOR4, FOR5, FOR7).
  function Resumed(s: State, target: nat): State
    requires s.framePtr + ARG <= |s.stack|
  {
    s.(stack := s.stack[s.framePtr + PC := Address(target)])
  }

  // An implicit subroutine is entered in the context of the call that gave the actual parameter.
  function ThunkEntered(s: State, level: nat, fp: nat, op: FormalOp, target: nat): State
    requires |s.display| == LEVELS && level < LEVELS
  {
    var s1 := FrameCreated(s.(stack := s.stack + [Word(0)]), s.ot, 0);
    var s2 := if level > 0 then s1.(framePtr := fp, display := Updated(s1.display, s1.stack, level, fp)) else s1;
    s2.(eis := s2.eis[s2.stackBase := op], ot := target)
  }

  // The operations that combine the delivered cell with the one below it.
  predicate TakesOne(op: FormalOp) {
    op in {AddTo, Subtract, Multiply, Divide, AddDeref, SubtractDeref, MultiplyDeref, DivideDeref}
  }

  // The operation with the delivered cell, which is on top of the stack.
  function Applied(op: FormalOp, v: Values, stack: seq<Cell>): (k: seq<Cell>)
    requires |stack| >= if TakesOne(op) then 2 else 1
    ensures |k| == |stack| - (if TakesOne(op) then 1 else 0)
    ensures forall i :: 0 <= i < |k| - 1 ==> k[i] == stack[i]
  {
    var n := |stack|;
    var below, top := stack[..n - 1], stack[n - 1];
    match op
    case AddTo => below[n - 2 := Combined(v, AddTo, below[n - 2], top)]
    case Subtract => below[n - 2 := Combined(v, Subtract, below[n - 2], top)]
    case Multiply => below[n - 2 := Combined(v, Multiply, below[n - 2], top)]
    case Divide => below[n - 2 := Combined(v, Divide, below[n - 2], top)]
    case PushDeref => stack[n - 1 := Load(v, stack, top)]
    case AddDeref => below[n - 2 := Combined(v, AddTo, below[n - 2], Load(v, below, top))]
    case SubtractDeref => below[n - 2 := Combined(v, Subtract, below[n - 2], Load(v, below, top))]
    case MultiplyDeref => below[n - 2 := Combined(v, Multiply, below[n - 2], Load(v, below, top))]
    case DivideDeref => below[n - 2 := Combined(v, Divide, below[n - 2], Load(v, below, top))]
    case _ => stack
  }

  predicate CanApply(s: State, op: FormalOp) {
    |s.stack| >= if TakesOne(op) then 2 else 1
  }

  predicate CanReturn(s: State) {
    s.stackBase in s.eis && CanRelease(s) && CanApply(FrameReleased(s), s.eis[s.stackBase])
  }

  // The end of a procedure.
  function Returned(s: State, v: Values): State
    requires CanReturn(s)
  {
    var s1 := FrameReleased(s);
    var n := |s1.stack|;
    s1.(stack := if s1.stack[n - 1] == Null then s1.stack[..n - 1] else Applied(s.eis[s.stackBase], v, s1.stack))
  }

  // FOR8 drops the address of the controlled variable, leaves no result and goes on behind the loop.
  function ForEnding(s: State, target: nat): State
    requires 0 < s.framePtr && s.framePtr + ARG < |s.stack|
  {
    var s1 := s.(stack := s.stack[..|s.stack| - 1][s.framePtr - 1 := Null]);
    Resumed(s1, target)
  }

  predicate CanLeaveFor(s: State, target: nat) {
    0 < s.framePtr && s.framePtr + ARG < |s.stack| && CanReturn(ForEnding(s, target))
  }

  function ForLeft(s: State, target: nat, v: Values): State
    requires CanLeaveFor(s, target)
  {
    Returned(ForEnding(s, target), v)
  }

  // The state in which the frame of an implicit subroutine is released.
  function ThunkEnding(s: State): State
    requires s.stack != [] && ARG <= s.stackBase
  {
    s.(stack := s.stack[..|s.stack| - 1], framePtr := s.stackBase - ARG)
  }

  predicate CanEndThunk(s: State) {
    s.stack != [] && ARG <= s.stackBase && CanReturn(ThunkEnding(s))
  }

  // The end of an implicit subroutine.
  function ThunkEnded(s: State, v: Values): State
    requires CanEndThunk(s)
  {
    var s1 := FrameReleased(ThunkEnding(s));
    var n := |s1.stack|;
    s1.(stack := Applied(s.eis[s.stackBase], v, s1.stack[n - 1 := s.stack[|s.stack| - 1]]))
  }
}
