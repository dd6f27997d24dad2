/**
 The processor as far as expressions over integers and Booleans go: instruction fetch, the two
 address registers, jumps, and the orders that work on the top of the stack.
 */
module StackMachine {
  import opened X1Integers
  import opened StackCells
  import opened ExpressionTranslator

  // The store, and the integer variables in the stack by their dynamic address.
  datatype Store = Store(memory: int -> int, local: int -> int)

  // Stopped: an exception was thrown, or the computation has left the integers.
  datatype State = Running(ot: int, s: int, b: int, c: bool, stack: seq<Cell>) | Stopped

  function Truth(b: bool): int {
    if b then 0 else 1
  }

  function IntegerResult(n: int): (w: int)
    ensures Fits(n) <==> w != -1
  {
    if Fits(n) then FromInt(n) else -1
  }

  // The orders ADD..QVL on two integer cells; -1 for an exception or a real result.
  function Combine(order: int, a: int, b: int): int {
    match order
    case 59 => IntegerResult(ToInt(a) + ToInt(b))
    case 60 => IntegerResult(ToInt(a) - ToInt(b))
    case 61 => IntegerResult(ToInt(a) * ToInt(b))
    case 63 => if ToInt(b) == 0 then -1 else IntegerResult(Quotient(ToInt(a), ToInt(b)))
    case 65 => Truth(ToInt(b) < ToInt(a))
    case 66 => Truth(!(ToInt(a) < ToInt(b)))
    case 67 => Truth(ToInt(a) == ToInt(b))
    case 68 => Truth(!(ToInt(b) < ToInt(a)))
    case 69 => Truth(ToInt(a) < ToInt(b))
    case 70 => Truth(ToInt(a) != ToInt(b))
    case 72 => Truth(a == 0 && b == 0)
    case 73 => Truth(a == 0 || b == 0)
    case 74 => Truth(a != 0 || b == 0)
    case 75 => Truth((a == 0) == (b == 0))
    case _ => -1
  }

  function Rest(stack: seq<Cell>): seq<Cell>
    requires stack != []
  {
    stack[..|stack| - 1]
  }

  // The top of the stack combined with the word b.
  function CombineTop(order: int, stack: seq<Cell>, b: int): Option<seq<Cell>> {
    if stack == [] || !stack[|stack| - 1].Word? then None
    else
      var r := Combine(order, stack[|stack| - 1].w, b);
      if r < 0 then None else Some(Rest(stack) + [Word(r)])
  }

  // The top of the stack is the right operand.
  function CombineTwo(order: int, stack: seq<Cell>): Option<seq<Cell>> {
    if stack == [] || !stack[|stack| - 1].Word? then None else CombineTop(order, Rest(stack), stack[|stack| - 1].w)
  }

  function NegateTop(stack: seq<Cell>): Option<seq<Cell>> {
    if stack == [] || !stack[|stack| - 1].Word? then None
    else Some(Rest(stack) + [Word(Negated(stack[|stack| - 1].w))])
  }

  function InvertTop(stack: seq<Cell>): Option<seq<Cell>> {
    if stack == [] || !stack[|stack| - 1].Word? then None
    else Some(Rest(stack) + [Word(Truth(stack[|stack| - 1].w != 0))])
  }

  function WithStack(st: State, k: Option<seq<Cell>>): State
    requires st.Running?
  {
    if k == None then Stopped else st.(stack := k.value)
  }

  // The operand of an order taken from a variable: S has its dynamic, B its static address.
  function RegisterOperand(m: Store, st: State, dynamic: bool): int
    requires st.Running?
  {
    if dynamic then m.local(st.s) else m.memory(st.b)
  }

  // One order of the run-time system.
  function CallOrder(m: Store, st: State, n: int): State
    requires st.Running?
  {
    match n
    case 30 =>
      if st.stack == [] || !st.stack[|st.stack| - 1].Word? then Stopped
      else st.(c := st.stack[|st.stack| - 1].w == 0, stack := Rest(st.stack))
    case 33 => st.(stack := st.stack + [Word(RegisterOperand(m, st, true))])
    case 34 => st.(stack := st.stack + [Word(RegisterOperand(m, st, false))])
    case 38 => WithStack(st, CombineTop(59, st.stack, RegisterOperand(m, st, true)))
    case 39 => WithStack(st, CombineTop(59, st.stack, RegisterOperand(m, st, false)))
    case 43 => WithStack(st, CombineTop(60, st.stack, RegisterOperand(m, st, true)))
    case 44 => WithStack(st, CombineTop(60, st.stack, RegisterOperand(m, st, false)))
    case 48 => WithStack(st, CombineTop(61, st.stack, RegisterOperand(m, st, true)))
    case 49 => WithStack(st, CombineTop(61, st.stack, RegisterOperand(m, st, false)))
    case 57 => WithStack(st, NegateTop(st.stack))
    case 71 => WithStack(st, InvertTop(st.stack))
    case _ => if 59 <= n <= 75 then WithStack(st, CombineTwo(n, st.stack)) else Stopped
  }

  // One instruction.  The last two digits of its operation part tie it to the condition.
  function Step(m: Store, st: State): State {
    if st.Stopped? then Stopped
    else
      var word := m.memory(st.ot % 0x8000);
      var operation, address := word / 0x8000 % 4096, word % 0x8000;
      var next := st.(ot := st.ot % 0x8000 + 1);
      if (operation % 4 == 2 && !st.c) || (operation % 4 == 3 && st.c) then next
      else
        match if operation % 4 >= 2 then operation - operation % 4 else operation
        case 0 => CallOrder(m, next, address)
        case 656 => next.(s := address)
        case 2192 => next.(b := address)
        case 2704 => next.(ot := address)
        case _ => Stopped
  }

  function Steps(m: Store, st: State, n: nat): State
    decreases n
  {
    if n == 0 then st else Steps(m, Step(m, st), n - 1)
  }

  lemma {:induction false} StepsAdd(m: Store, st: State, n: nat, k: nat)
    ensures Steps(m, st, n + k) == Steps(m, Steps(m, st, n), k)
    decreases n
  {
    hide Step;
    if n > 0 {
      StepsAdd(m, Step(m, st), n - 1, k);
    }
  }
}
