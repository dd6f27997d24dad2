/**
 What the machine does with the code of an expression once it is loaded.
 */
module ExpressionRun {
  import opened ObjectCode
  import opened ProgramLoader
  import opened ExpressionTranslator
  import opened ExpressionCode
  import opened StackCells
  import opened StackMachine

  type Stack = seq<Cell>

  // The word a variable or constant holds.
  function WordOf(id: nat, m: Store, p: Places): int
    requires Relocatable(AddressToRegister(id), p)
  {
    if Dynamic(id) then m.local(AddressPart(id)) else m.memory(Relocated(AddressToRegister(id), p) % 0x8000)
  }

  // Variables and constants lie within the store.
  predicate Addressed(t: Tree, p: Places) {
    match t
    case Nothing => true
    case Leaf(id) => AddressedLeaf(id, p)
    case Dyadic(op, l, r) => DyadicOperator(op) && Addressed(l, p) && Addressed(r, p)
    case Minus(e) => Addressed(e, p)
    case Plus(e) => Addressed(e, p)
    case Not(e) => Addressed(e, p)
    case Choice(c, y, n) => Addressed(c, p) && Addressed(y, p) && Addressed(n, p)
    case Parens(e) => Addressed(e, p)
  }

  predicate AddressedLeaf(id: nat, p: Places) {
    && Simple(id) && Relocatable(AddressToRegister(id), p)
    && (Dynamic(id) || Relocated(AddressToRegister(id), p) / 0x8000 == 2192)
  }

  // The stack after the code of t, read off the tree; None when the machine stops.
  function Exec(t: Tree, m: Store, p: Places, k: Stack): Option<Stack>
    requires Addressed(t, p)
  {
    match t
    case Nothing => Some(k)
    case Leaf(id) => Some(k + [Word(WordOf(id, m, p))])
    case Dyadic(op, l, r) =>
      (match Exec(l, m, p, k)
       case None => None
       case Some(k1) =>
         if Fused(op, r) then assert Addressed(r, p); CombineTop(op - 5, k1, WordOf(r.id, m, p))
         else
           match Exec(r, m, p, k1)
           case None => None
           case Some(k2) => CombineTwo(op - 5, k2))
    case Minus(e) =>
      (match Exec(e, m, p, k)
       case None => None
       case Some(k1) => NegateTop(k1))
    case Plus(e) => Exec(e, m, p, k)
    case Not(e) =>
      (match Exec(e, m, p, k)
       case None => None
       case Some(k1) => InvertTop(k1))
    case Choice(c, y, n) =>
      (match Exec(c, m, p, k)
       case None => None
       case Some(k1) =>
         if k1 == [] || !k1[|k1| - 1].Word? then None
         else if k1[|k1| - 1].w == 0 then Exec(y, m, p, Rest(k1))
         else Exec(n, m, p, Rest(k1)))
    case Parens(e) => Exec(e, m, p, k)
  }

  // The relocated instructions q stand in the store from place at of the program.
  ghost predicate Loaded(m: Store, p: Places, at: int, q: seq<Instr>) {
    && 0 <= p.listAddress + at && p.listAddress + at + |q| < 0x8000
    && forall i :: 0 <= i < |q| ==> Relocatable(q[i], p) && m.memory(p.listAddress + at + i) == Relocated(q[i], p)
  }

  lemma LoadedParts(m: Store, p: Places, at: int, a: seq<Instr>, b: seq<Instr>)
    requires Loaded(m, p, at, a + b)
    ensures Loaded(m, p, at, a) && Loaded(m, p, at + |a|, b)
  {
    hide Relocated, Relocatable;
    forall i | 0 <= i < |a|
      ensures Relocatable(a[i], p) && m.memory(p.listAddress + at + i) == Relocated(a[i], p)
    {
      assert (a + b)[i] == a[i];
    }
    forall i | 0 <= i < |b|
      ensures Relocatable(b[i], p) && m.memory(p.listAddress + (at + |a|) + i) == Relocated(b[i], p)
    {
      assert (a + b)[|a| + i] == b[i];
    }
  }

  // The future list has the address of place where label l refers to.
  predicate Goes(p: Places, l: int, place: int) {
    0 <= l < |p.fli| && l < 0x8000 && p.fli[l] == p.listAddress + place && 0 <= p.listAddress + place < 0x8000
  }

  predicate Linked(t: Tree, at: int, lab: int, p: Places) {
    match t
    case Dyadic(op, l, r) =>
      Linked(l, at, lab, p) && (Fused(op, r) || Linked(r, at + Size(l), lab + Labels(l), p))
    case Minus(e) => Linked(e, at, lab, p)
    case Plus(e) => Linked(e, at, lab, p)
    case Not(e) => Linked(e, at, lab, p)
    case Choice(c, y, n) =>
      var here, other := lab + Labels(c), at + Size(c) + 2 + Size(y) + 1;
      var past := here + 1 + Labels(y);
      && Linked(c, at, lab, p) && Linked(y, at + Size(c) + 2, here + 1, p) && Linked(n, other, past + 1, p)
      && Goes(p, here, other) && Goes(p, past, other + Size(n))
    case Parens(e) => Linked(e, at, lab, p)
    case _ => true
  }

  // An order without address, in the store.
  lemma StepOrder(m: Store, p: Places, at: int, opc: int, st: State)
    requires 8 <= opc <= 112 && Loaded(m, p, at, [Instr(opc, 0)])
    requires st.Running? && st.ot == p.listAddress + at
    ensures Step(m, st) == CallOrder(m, st.(ot := st.ot + 1), opc)
  {
    hide CallOrder;
    assert [Instr(opc, 0)][0] == Instr(opc, 0);
    assert m.memory(st.ot) == opc;
  }

  lemma StepAddress(m: Store, p: Places, at: int, id: nat, st: State)
    requires AddressedLeaf(id, p) && Loaded(m, p, at, [AddressToRegister(id)])
    requires st.Running? && st.ot == p.listAddress + at
    ensures var e := Step(m, st);
            && e.Running? && e.ot == st.ot + 1 && e.stack == st.stack
            && RegisterOperand(m, e, Dynamic(id)) == WordOf(id, m, p)
  {
    hide CallOrder;
    var i := AddressToRegister(id);
    assert [i][0] == i;
    assert m.memory(st.ot + 0) == Relocated(i, p);
    if Dynamic(id) {
      assert Relocated(i, p) / 0x8000 == 656 && Relocated(i, p) % 0x8000 == AddressPart(id);
    }
  }

  // The address of routine n of the library comes into register B.
  lemma StepLibrary(m: Store, p: Places, at: int, n: nat, st: State)
    requires n < |p.mli| && n < 0x8000 && p.klib == CRFB && 0 <= p.mli[n] < 0x8000
    requires Loaded(m, p, at, [Instr(3, n + 71827456)]) && st.Running? && st.ot == p.listAddress + at
    ensures Step(m, st) == st.(ot := st.ot + 1, b := p.mli[n])
  {
    hide CallOrder, Relocated;
    var i := Instr(3, n + 71827456);
    assert [i][0] == i && m.memory(st.ot + 0) == Relocated(i, p);
    LibraryReference(i, p);
  }

  // A jump to a label, unconditional or on a false condition.
  lemma StepJump(m: Store, p: Places, at: int, l: int, place: int, st: State)
    requires Goes(p, l, place) && Loaded(m, p, at, [Instr(2, l + 88080384)])
    requires st.Running? && st.ot == p.listAddress + at
    ensures Step(m, st) == st.(ot := p.listAddress + place)
  {
    hide CallOrder;
    var i := Instr(2, l + 88080384);
    assert [i][0] == i && m.memory(st.ot + 0) == Relocated(i, p);
    assert i.w % 0x8000 == l && i.w / 0x20000 % 2 == 0;
    assert Relocated(i, p) == 88604672 + p.listAddress + place;
  }

  lemma StepBranch(m: Store, p: Places, at: int, l: int, place: int, st: State)
    requires Goes(p, l, place) && Loaded(m, p, at, [Instr(2, l + 88178688)])
    requires st.Running? && st.ot == p.listAddress + at
    ensures Step(m, st) == st.(ot := if st.c then st.ot + 1 else p.listAddress + place)
  {
    hide CallOrder;
    var i := Instr(2, l + 88178688);
    assert [i][0] == i && m.memory(st.ot + 0) == Relocated(i, p);
    assert i.w % 0x8000 == l && i.w / 0x20000 % 2 == 0;
    assert Relocated(i, p) == 88702976 + p.listAddress + place;
  }

  // The machine has executed code of length size, and Exec says what is on its stack.
  predicate Executed(st: State, e: State, size: int, k: Option<Stack>)
    requires st.Running?
  {
    if k == None then e.Stopped? else e.Running? && e.ot == st.ot + size && e.stack == k.value
  }

  // Execution of a piece of code followed by one order.
  lemma Then(m: Store, p: Places, at: int, size: nat, st: State, e: State, k: Option<Stack>, opc: int)
    requires st.Running? && Executed(st, e, size, k) && st.ot == p.listAddress + at
    requires 8 <= opc <= 112 && Loaded(m, p, at + size, [Instr(opc, 0)])
    ensures k == None ==> Step(m, e).Stopped?
    ensures k != None ==> e.Running? && Step(m, e) == CallOrder(m, e.(ot := e.ot + 1), opc)
  {
    if k != None {
      StepOrder(m, p, at + size, opc, e);
    }
  }

  lemma StepsStopped(m: Store, n: nat)
    ensures Steps(m, Stopped, n) == Stopped
    decreases n
  {
    if n > 0 {
      StepsStopped(m, n - 1);
    }
  }

  // The code of t, loaded anywhere, does what Exec says.
  lemma {:induction false} Runs(t: Tree, m: Store, p: Places, at: int, lab: int, st: State) returns (n: nat)
    requires Addressed(t, p) && Linked(t, at, lab, p) && Loaded(m, p, at, Code(t, lab))
    requires st.Running? && st.ot == p.listAddress + at
    ensures Executed(st, Steps(m, st, n), Size(t), Exec(t, m, p, st.stack))
    decreases t, 3
  {
    hide Relocated, Relocatable, Loaded, Code, Exec, Linked, Addressed, Size, Step, CallOrder, Executed;
    match t
    case Nothing =>
      n := 0;
      RunNothing(m, p, st);
    case Leaf(id) => n := RunLeaf(id, m, p, at, lab, st);
    case Dyadic(op, l, r) => n := RunDyadic(op, l, r, m, p, at, lab, st);
    case Minus(e) => n := RunPrefix(t, e, 57, m, p, at, lab, st);
    case Not(e) => n := RunPrefix(t, e, 71, m, p, at, lab, st);
    case Plus(e) =>
      Unwrapped(e, m, p, at, lab, st);
      n := Runs(e, m, p, at, lab, st);
    case Parens(e) =>
      Unwrapped(e, m, p, at, lab, st);
      n := Runs(e, m, p, at, lab, st);
    case Choice(c, y, o) => n := RunChoice(c, y, o, m, p, at, lab, st);
  }

  lemma RunNothing(m: Store, p: Places, st: State)
    requires st.Running?
    ensures Executed(st, Steps(m, st, 0), Size(Nothing), Exec(Nothing, m, p, st.stack))
  {
  }

  lemma Unwrapped(e: Tree, m: Store, p: Places, at: int, lab: int, st: State)
    ensures Addressed(Plus(e), p) == Addressed(e, p) == Addressed(Parens(e), p)
    ensures Linked(Plus(e), at, lab, p) == Linked(e, at, lab, p) == Linked(Parens(e), at, lab, p)
    ensures Code(Plus(e), lab) == Code(e, lab) == Code(Parens(e), lab)
    ensures Size(Plus(e)) == Size(e) == Size(Parens(e))
    ensures Addressed(e, p) && st.Running? ==>
              Exec(Plus(e), m, p, st.stack) == Exec(e, m, p, st.stack) == Exec(Parens(e), m, p, st.stack)
  {
  }

  lemma TwoSteps(m: Store, st: State)
    ensures Steps(m, st, 2) == Step(m, Step(m, st)) && Steps(m, st, 1) == Step(m, st)
  {
  }

  lemma RunLeaf(id: nat, m: Store, p: Places, at: int, lab: int, st: State) returns (n: nat)
    requires Addressed(Leaf(id), p) && Loaded(m, p, at, Code(Leaf(id), lab))
    requires st.Running? && st.ot == p.listAddress + at
    ensures Executed(st, Steps(m, st, n), Size(Leaf(id)), Exec(Leaf(id), m, p, st.stack))
  {
    hide Relocated, Relocatable, Loaded, Step;
    var i, j := AddressToRegister(id), OperandOrder(63, id);
    assert [i, j] == [i] + [j];
    LoadedParts(m, p, at, [i], [j]);
    StepAddress(m, p, at, id, st);
    StepOrder(m, p, at + 1, j.opc, Step(m, st));
    TwoSteps(m, st);
    n := 2;
  }

  // A minus or not behind the code of its operand.
  predicate Prefix(t: Tree, e: Tree, opc: int) {
    (t == Minus(e) && opc == 57) || (t == Not(e) && opc == 71)
  }

  lemma PrefixShape(t: Tree, e: Tree, opc: int, p: Places, at: int, lab: int)
    requires Prefix(t, e, opc)
    ensures Code(t, lab) == Code(e, lab) + [Instr(opc, 0)] && Size(t) == Size(e) + 1
    ensures Addressed(t, p) == Addressed(e, p) && Linked(t, at, lab, p) == Linked(e, at, lab, p)
  {
  }

  lemma PrefixParts(t: Tree, e: Tree, opc: int, m: Store, p: Places, at: int, lab: int)
    requires Prefix(t, e, opc) && Addressed(t, p) && Linked(t, at, lab, p) && Loaded(m, p, at, Code(t, lab))
    ensures Addressed(e, p) && Linked(e, at, lab, p) && Loaded(m, p, at, Code(e, lab))
    ensures Loaded(m, p, at + Size(e), [Instr(opc, 0)]) && Size(t) == Size(e) + 1
  {
    hide Loaded, Code, Addressed, Linked, Size, Prefix;
    PrefixShape(t, e, opc, p, at, lab);
    CodeSize(e, lab);
    LoadedParts(m, p, at, Code(e, lab), [Instr(opc, 0)]);
  }

  lemma PrefixDone(t: Tree, e: Tree, opc: int, m: Store, p: Places, st: State, e1: State, e2: State)
    requires Prefix(t, e, opc) && Addressed(t, p) && Addressed(e, p) && st.Running?
    requires var k := Exec(e, m, p, st.stack);
             && Executed(st, e1, Size(e), k)
             && (if k == None then e2.Stopped? else e1.Running? && e2 == CallOrder(m, e1.(ot := e1.ot + 1), opc))
    ensures Executed(st, e2, Size(e) + 1, Exec(t, m, p, st.stack))
  {
    hide NegateTop, InvertTop, Addressed;
  }

  lemma {:induction false} RunPrefix(t: Tree, e: Tree, opc: int, m: Store, p: Places, at: int, lab: int, st: State)
    returns (n: nat)
    requires Prefix(t, e, opc) && Addressed(t, p) && Linked(t, at, lab, p) && Loaded(m, p, at, Code(t, lab))
    requires st.Running? && st.ot == p.listAddress + at
    ensures Executed(st, Steps(m, st, n), Size(t), Exec(t, m, p, st.stack))
    decreases t, 2
  {
    hide Relocated, Relocatable, Loaded, Step, Code, Exec, Linked, Addressed, Size, CallOrder, Executed, Steps;
    PrefixParts(t, e, opc, m, p, at, lab);
    n := Runs(e, m, p, at, lab, st);
    var e1 := Steps(m, st, n);
    Then(m, p, at, Size(e), st, e1, Exec(e, m, p, st.stack), opc);
    PrefixDone(t, e, opc, m, p, st, e1, Step(m, e1));
    StepsAdd(m, st, n, 1);
    TwoSteps(m, e1);
    n := n + 1;
  }

  lemma DyadicShape(op: nat, l: Tree, r: Tree, p: Places, at: int, lab: int)
    ensures var t := Dyadic(op, l, r);
            && Addressed(t, p) == (DyadicOperator(op) && Addressed(l, p) && Addressed(r, p))
            && Linked(t, at, lab, p)
               == (Linked(l, at, lab, p) && (Fused(op, r) || Linked(r, at + Size(l), lab + Labels(l), p)))
            && Size(t) == Size(l) + SizeRight(op, r) && Code(t, lab) == Code(l, lab) + CodeRight(op, r, lab + Labels(l))
  {
  }

  function CodeRight(op: nat, r: Tree, lab: int): seq<Instr> {
    if Fused(op, r) then [AddressToRegister(r.id), OperandOrder(op, r.id)] else Code(r, lab) + [Instr(op - 5, 0)]
  }

  function SizeRight(op: nat, r: Tree): nat {
    if Fused(op, r) then 2 else Size(r) + 1
  }

  lemma DyadicParts(op: nat, l: Tree, r: Tree, m: Store, p: Places, at: int, lab: int)
    requires var t := Dyadic(op, l, r); Addressed(t, p) && Linked(t, at, lab, p) && Loaded(m, p, at, Code(t, lab))
    ensures Addressed(l, p) && Addressed(r, p) && Linked(l, at, lab, p) && Loaded(m, p, at, Code(l, lab))
    ensures Loaded(m, p, at + Size(l), CodeRight(op, r, lab + Labels(l))) && DyadicOperator(op)
    ensures Fused(op, r) || Linked(r, at + Size(l), lab + Labels(l), p)
  {
    hide Loaded, Code, Addressed, Linked, Size, CodeRight, Labels, SizeRight;
    DyadicShape(op, l, r, p, at, lab);
    CodeSize(l, lab);
    LoadedParts(m, p, at, Code(l, lab), CodeRight(op, r, lab + Labels(l)));
  }

  // The right operand of a binary operator, when the left one is on the stack k1.
  function ExecRight(op: nat, r: Tree, m: Store, p: Places, k1: Stack): Option<Stack>
    requires DyadicOperator(op) && Addressed(r, p)
  {
    if Fused(op, r) then assert AddressedLeaf(r.id, p); CombineTop(op - 5, k1, WordOf(r.id, m, p))
    else
      match Exec(r, m, p, k1)
      case None => None
      case Some(k2) => CombineTwo(op - 5, k2)
  }

  lemma DyadicExec(op: nat, l: Tree, r: Tree, m: Store, p: Places, k: Stack)
    requires Addressed(Dyadic(op, l, r), p) && Addressed(l, p) && Addressed(r, p)
    ensures var k1 := Exec(l, m, p, k);
            Exec(Dyadic(op, l, r), m, p, k) == if k1 == None then None else ExecRight(op, r, m, p, k1.value)
  {
    hide CombineTop, CombineTwo;
  }

  // Execution of two pieces of code, the second one only if the first does not stop.
  lemma ExecutedBoth(m: Store, st: State, n: nat, size: int, k: Option<Stack>, n2: nat, size2: int, k2: Option<Stack>)
    requires st.Running? && Executed(st, Steps(m, st, n), size, k)
    requires k != None ==> Executed(Steps(m, st, n), Steps(m, Steps(m, st, n), n2), size2, k2)
    ensures Executed(st, Steps(m, st, n + n2), size + size2, if k == None then None else k2)
  {
    hide Steps;
    StepsAdd(m, st, n, n2);
    if k == None {
      StepsStopped(m, n2);
    }
  }

  lemma {:induction false} RunDyadic(op: nat, l: Tree, r: Tree, m: Store, p: Places, at: int, lab: int, st: State)
    returns (n: nat)
    requires var t := Dyadic(op, l, r); Addressed(t, p) && Linked(t, at, lab, p) && Loaded(m, p, at, Code(t, lab))
    requires st.Running? && st.ot == p.listAddress + at
    ensures Executed(st, Steps(m, st, n), Size(Dyadic(op, l, r)), Exec(Dyadic(op, l, r), m, p, st.stack))
    decreases Dyadic(op, l, r), 2
  {
    hide Loaded, Code, Linked, Exec, Addressed, Steps, ExecRight, CodeRight, Size, SizeRight, Labels, DyadicOperator;
    hide Fused;
    DyadicShape(op, l, r, p, at, lab);
    DyadicParts(op, l, r, m, p, at, lab);
    DyadicExec(op, l, r, m, p, st.stack);
    n := Runs(l, m, p, at, lab, st);
    var e1, k, k1 := Steps(m, st, n), Exec(l, m, p, st.stack), 0;
    if k != None {
      k1 := RunRight(op, r, m, p, at + Size(l), lab + Labels(l), e1);
    }
    ExecutedBoth(m, st, n, Size(l), k, k1, SizeRight(op, r),
                 if k == None then None else ExecRight(op, r, m, p, k.value));
    n := n + k1;
  }

  lemma FusedOrder(op: nat, id: nat, m: Store, st: State, w: int)
    requires DyadicOperator(op) && op <= 67 && Simple(id) && st.Running? && RegisterOperand(m, st, Dynamic(id)) == w
    ensures CallOrder(m, st, OperandOrder(op, id).opc) == WithStack(st, CombineTop(op - 5, st.stack, w))
    ensures 8 <= OperandOrder(op, id).opc <= 112
  {
    hide CombineTwo, NegateTop, InvertTop;
    if op == 67 {
      hide Simple;
      DivisionStops(st.stack, w);
    } else {
      hide CombineTop;
    }
  }

  // Division has a real result.
  lemma DivisionStops(k: Stack, w: int)
    ensures CombineTop(62, k, w) == None
  {
  }

  lemma RunFused(op: nat, r: Tree, m: Store, p: Places, at: int, lab: int, st: State) returns (n: nat)
    requires Fused(op, r) && DyadicOperator(op) && Addressed(r, p) && Loaded(m, p, at, CodeRight(op, r, lab))
    requires st.Running? && st.ot == p.listAddress + at
    ensures Executed(st, Steps(m, st, n), SizeRight(op, r), ExecRight(op, r, m, p, st.stack))
  {
    assert AddressedLeaf(r.id, p);
    hide Relocated, Relocatable, Loaded, Step, CallOrder, CombineTop, WordOf, RegisterOperand, AddressToRegister;
    hide OperandOrder;
    var i, j := AddressToRegister(r.id), OperandOrder(op, r.id);
    assert [i, j] == [i] + [j];
    LoadedParts(m, p, at, [i], [j]);
    StepAddress(m, p, at, r.id, st);
    var e1 := Step(m, st);
    SameOperand(m, e1, Dynamic(r.id));
    FusedOrder(op, r.id, m, e1.(ot := e1.ot + 1), WordOf(r.id, m, p));
    FusedIsOrder(op, r.id);
    StepOrder(m, p, at + 1, j.opc, e1);
    TwoSteps(m, st);
    n := 2;
  }

  lemma FusedIsOrder(op: nat, id: nat)
    ensures OperandOrder(op, id).w == 0
  {
  }

  lemma SameOperand(m: Store, st: State, dynamic: bool)
    requires st.Running?
    ensures RegisterOperand(m, st.(ot := st.ot + 1), dynamic) == RegisterOperand(m, st, dynamic)
  {
  }

  lemma RightDone(op: nat, r: Tree, m: Store, p: Places, st: State, e1: State, e2: State)
    requires DyadicOperator(op) && !Fused(op, r) && Addressed(r, p) && st.Running?
    requires var k := Exec(r, m, p, st.stack);
             && Executed(st, e1, Size(r), k)
             && (if k == None then e2.Stopped? else e1.Running? && e2 == CallOrder(m, e1.(ot := e1.ot + 1), op - 5))
    ensures Executed(st, e2, SizeRight(op, r), ExecRight(op, r, m, p, st.stack))
  {
    hide CombineTwo, CombineTop, Addressed, Exec, NegateTop, InvertTop;
  }

  lemma {:induction false} RunRight(op: nat, r: Tree, m: Store, p: Places, at: int, lab: int, st: State)
    returns (n: nat)
    requires DyadicOperator(op) && Addressed(r, p) && Loaded(m, p, at, CodeRight(op, r, lab))
    requires Fused(op, r) || Linked(r, at, lab, p)
    requires st.Running? && st.ot == p.listAddress + at
    ensures Executed(st, Steps(m, st, n), SizeRight(op, r), ExecRight(op, r, m, p, st.stack))
    decreases r, 4
  {
    hide Relocated, Relocatable, Loaded, Step, Code, Exec, Linked, Addressed, Size, CallOrder, Executed, Steps;
    hide ExecRight, SizeRight;
    if Fused(op, r) {
      n := RunFused(op, r, m, p, at, lab, st);
    } else {
      CodeSize(r, lab);
      LoadedParts(m, p, at, Code(r, lab), [Instr(op - 5, 0)]);
      n := Runs(r, m, p, at, lab, st);
      var e1 := Steps(m, st, n);
      Then(m, p, at, Size(r), st, e1, Exec(r, m, p, st.stack), op - 5);
      RightDone(op, r, m, p, st, e1, Step(m, e1));
      StepsAdd(m, st, n, 1);
      TwoSteps(m, e1);
      n := n + 1;
    }
  }

  // The code and the labels of a conditional expression from the end of its condition.
  predicate Chosen(y: Tree, o: Tree, m: Store, p: Places, at: int, here: int) {
    var other, past := at + 2 + Size(y) + 1, here + 1 + Labels(y);
    && Addressed(y, p) && Addressed(o, p)
    && Linked(y, at + 2, here + 1, p) && Linked(o, other, past + 1, p)
    && Goes(p, here, other) && Goes(p, past, other + Size(o))
  }

  function ChosenCode(y: Tree, o: Tree, here: int): seq<Instr> {
    var past := here + 1 + Labels(y);
    [Instr(30, 0), Instr(2, here + 88178688)] + Code(y, here + 1) + [Instr(2, past + 88080384)] + Code(o, past + 1)
  }

  lemma ChoiceShape(c: Tree, y: Tree, o: Tree, m: Store, p: Places, at: int, lab: int, k: Stack)
    requires var t := Choice(c, y, o); Addressed(t, p) && Linked(t, at, lab, p)
    ensures Addressed(c, p) && Linked(c, at, lab, p) && Chosen(y, o, m, p, at + Size(c), lab + Labels(c))
    ensures var k1 := Exec(c, m, p, k);
            Exec(Choice(c, y, o), m, p, k) == if k1 == None then None else ExecChosen(y, o, m, p, k1.value)
    ensures Size(Choice(c, y, o)) == Size(c) + (2 + Size(y) + 1 + Size(o))
  {
    hide Goes, Exec, Size, Labels;
    assert Addressed(c, p) && Addressed(y, p) && Addressed(o, p);
    assert Chosen(y, o, m, p, at + Size(c), lab + Labels(c));
    hide Addressed, Linked;
    ChoiceExec(c, y, o, m, p, k);
    ChoiceSize(c, y, o);
  }

  lemma ChoiceSize(c: Tree, y: Tree, o: Tree)
    ensures Size(Choice(c, y, o)) == Size(c) + (2 + Size(y) + 1 + Size(o))
  {
  }

  lemma ChoiceExec(c: Tree, y: Tree, n: Tree, m: Store, p: Places, k: Stack)
    requires Addressed(c, p) && Addressed(y, p) && Addressed(n, p)
    ensures Addressed(Choice(c, y, n), p)
    ensures var k1 := Exec(c, m, p, k);
            Exec(Choice(c, y, n), m, p, k) == if k1 == None then None else ExecChosen(y, n, m, p, k1.value)
  {
    assert Addressed(Choice(c, y, n), p);
    hide Addressed;
  }

  lemma ChoiceCodeParts(c: Tree, y: Tree, o: Tree, lab: int)
    ensures Code(Choice(c, y, o), lab) == Code(c, lab) + ChosenCode(y, o, lab + Labels(c))
  {
    ChoiceCodePieces(c, y, o, lab);
    hide Labels;
    var here := lab + Labels(c);
    var past := here + 1 + Labels(y);
    var a, b, d := Code(c, lab), [Instr(30, 0), Instr(2, here + 88178688)], Code(y, here + 1);
    var g, e := [Instr(2, past + 88080384)], Code(o, past + 1);
    hide Code;
    FirstApart(a, b, d, g, e);
  }

  lemma ChoiceCodePieces(c: Tree, y: Tree, o: Tree, lab: int)
    ensures var here := lab + Labels(c); var past := here + 1 + Labels(y);
            Code(Choice(c, y, o), lab)
            == Code(c, lab) + [Instr(30, 0), Instr(2, here + 88178688)] + Code(y, here + 1)
              + [Instr(2, past + 88080384)]
               + Code(o, past + 1)
  {
    hide Labels;
  }

  lemma FirstApart(a: seq<Instr>, b: seq<Instr>, c: seq<Instr>, d: seq<Instr>, e: seq<Instr>)
    ensures a + b + c + d + e == a + (b + c + d + e)
  {
  }

  lemma ChosenParts(y: Tree, o: Tree, m: Store, p: Places, at: int, here: int)
    requires Loaded(m, p, at, ChosenCode(y, o, here))
    ensures var other, past := at + 2 + Size(y) + 1, here + 1 + Labels(y);
            && Loaded(m, p, at, [Instr(30, 0)]) && Loaded(m, p, at + 1, [Instr(2, here + 88178688)])
            && Loaded(m, p, at + 2, Code(y, here + 1)) && Loaded(m, p, at + 2 + Size(y), [Instr(2, past + 88080384)])
            && Loaded(m, p, other, Code(o, past + 1))
  {
    hide Loaded, Code, Size, Labels;
    var past := here + 1 + Labels(y);
    CodeSize(y, here + 1);
    var i, j, d := [Instr(30, 0)], [Instr(2, here + 88178688)], Code(y, here + 1);
    var g, e := [Instr(2, past + 88080384)], Code(o, past + 1);
    assert [Instr(30, 0), Instr(2, here + 88178688)] == i + j;
    LoadedParts(m, p, at, (i + j) + d + g, e);
    LoadedParts(m, p, at, (i + j) + d, g);
    LoadedParts(m, p, at, i + j, d);
    LoadedParts(m, p, at, i, j);
  }

  // From the end of the condition to the part chosen.
  lemma RunCondition(m: Store, p: Places, at: int, here: int, other: int, st: State)
    requires Loaded(m, p, at, [Instr(30, 0)]) && Loaded(m, p, at + 1, [Instr(2, here + 88178688)])
             && Goes(p, here, other)
    requires st.Running? && st.ot == p.listAddress + at
    ensures var e := Steps(m, st, 2);
            if st.stack == [] || !st.stack[|st.stack| - 1].Word? then e.Stopped?
            else
              var chosen := st.stack[|st.stack| - 1].w == 0;
              e.Running? && e.stack == Rest(st.stack) && e.ot == p.listAddress + if chosen then at + 2 else other
  {
    hide Relocated, Relocatable, Loaded, Step;
    StepOrder(m, p, at, 30, st);
    var e1 := Step(m, st);
    if e1.Running? {
      StepBranch(m, p, at + 1, here, other, e1);
    } else {
      StepsStopped(m, 1);
    }
    TwoSteps(m, st);
    TwoSteps(m, e1);
  }

  // The part before the else, and the jump behind it.
  lemma {:induction false} RunYes(y: Tree, m: Store, p: Places, at: int, lab: int, past: int, end: int, st: State)
    returns (n: nat)
    requires Addressed(y, p) && Linked(y, at, lab, p) && Loaded(m, p, at, Code(y, lab))
    requires Loaded(m, p, at + Size(y), [Instr(2, past + 88080384)]) && Goes(p, past, end)
    requires st.Running? && st.ot == p.listAddress + at
    ensures Executed(st, Steps(m, st, n), end - at, Exec(y, m, p, st.stack))
    decreases y, 4
  {
    hide Relocated, Relocatable, Loaded, Step, Code, Exec, Linked, Addressed, Size;
    n := Runs(y, m, p, at, lab, st);
    var e1 := Steps(m, st, n);
    if e1.Running? {
      StepJump(m, p, at + Size(y), past, end, e1);
      StepsAdd(m, st, n, 1);
      TwoSteps(m, e1);
      n := n + 1;
    }
  }

  // What happens when the condition of a conditional expression is on the stack k1.
  function ExecChosen(y: Tree, o: Tree, m: Store, p: Places, k1: Stack): Option<Stack>
    requires Addressed(y, p) && Addressed(o, p)
  {
    if k1 == [] || !k1[|k1| - 1].Word? then None
    else if k1[|k1| - 1].w == 0 then Exec(y, m, p, Rest(k1))
    else Exec(o, m, p, Rest(k1))
  }

  lemma {:induction false} RunChosen(c: Tree, y: Tree, o: Tree, m: Store, p: Places, at: int, here: int, st: State)
    returns (n: nat)
    requires Chosen(y, o, m, p, at, here) && Loaded(m, p, at, ChosenCode(y, o, here))
    requires st.Running? && st.ot == p.listAddress + at
    ensures Executed(st, Steps(m, st, n), 2 + Size(y) + 1 + Size(o), ExecChosen(y, o, m, p, st.stack))
    decreases Choice(c, y, o), 1
  {
    hide Loaded, Exec, Code, Linked, Addressed, Labels, Steps, Size, Goes;
    ChosenParts(y, o, m, p, at, here);
    var other, past := at + 2 + Size(y) + 1, here + 1 + Labels(y);
    RunCondition(m, p, at, here, other, st);
    var e1, k := Steps(m, st, 2), 0;
    if e1.Running? {
      if st.stack[|st.stack| - 1].w == 0 {
        k := RunYes(y, m, p, at + 2, here + 1, past, other + Size(o), e1);
      } else {
        k := Runs(o, m, p, other, past + 1, e1);
      }
    } else {
      StepsStopped(m, 0);
    }
    StepsAdd(m, st, 2, k);
    n := 2 + k;
  }

  lemma {:induction false} RunChoice(c: Tree, y: Tree, o: Tree, m: Store, p: Places, at: int, lab: int, st: State)
    returns (n: nat)
    requires var t := Choice(c, y, o); Addressed(t, p) && Linked(t, at, lab, p) && Loaded(m, p, at, Code(t, lab))
    requires st.Running? && st.ot == p.listAddress + at
    ensures Executed(st, Steps(m, st, n), Size(Choice(c, y, o)), Exec(Choice(c, y, o), m, p, st.stack))
    decreases Choice(c, y, o), 2
  {
    hide Loaded, Code, Exec, ExecChosen, Linked, Labels, Steps, Size, Addressed, ChosenCode, Chosen;
    ChoiceShape(c, y, o, m, p, at, lab, st.stack);
    ChoiceCodeParts(c, y, o, lab);
    CodeSize(c, lab);
    LoadedParts(m, p, at, Code(c, lab), ChosenCode(y, o, lab + Labels(c)));
    n := Runs(c, m, p, at, lab, st);
    var e1, k, k1 := Steps(m, st, n), Exec(c, m, p, st.stack), 0;
    assert Addressed(y, p) && Addressed(o, p) by {
      AddressedBoth(y, o, m, p, at + Size(c), lab + Labels(c));
    }
    if k != None {
      k1 := RunChosen(c, y, o, m, p, at + Size(c), lab + Labels(c), e1);
    }
    ExecutedBoth(m, st, n, Size(c), k, k1, 2 + Size(y) + 1 + Size(o),
                 if k == None then None else ExecChosen(y, o, m, p, k.value));
    n := n + k1;
  }

  lemma AddressedBoth(y: Tree, o: Tree, m: Store, p: Places, at: int, here: int)
    requires Chosen(y, o, m, p, at, here)
    ensures Addressed(y, p) && Addressed(o, p)
  {
  }
}
