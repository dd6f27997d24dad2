/**
 What a call does once it is loaded: the procedure, the number of parameters and the kind of call that the
 translator wrote down reach the run-time system.
 */
module CallRun {
  import opened ObjectCode
  import opened ProgramLoader
  import opened ExpressionTranslator
  import opened StackCells
  import opened RunTimeState
  import opened Activations
  import opened FormalParameters
  import opened ParameterDescriptors
  import opened CallSite

  datatype Registers = Registers(a: nat, b: nat, s: nat)

  datatype Machine = Machine(state: State, r: Registers)

  // The descriptor of the formal parameter at a dynamic address.
  function FormalDescriptor(memory: int -> nat, s: State, dynamic: nat): nat
    requires |s.display| == LEVELS
  {
    var ret := RunTimeState.AddressAt(s.stack, s.display[dynamic % 32] + PC);
    memory(ret - (dynamic / 32 - 5) / 2 - 3)
  }

  // The formal procedure called must itself be the actual parameter; one passed on is refused.
  function FormalProcedure(memory: int -> nat, s: State, dynamic: nat): Option<nat>
    requires |s.display| == LEVELS
  {
    var d := FormalDescriptor(memory, s, dynamic);
    if Sort(d) == VALUE_ROUTINE then Some(PlaceOf(d)) else None
  }

  function CalledAt(s: State, result: Cell, args: nat, target: Option<nat>): Option<State> {
    if target == None then None else Some(Called(s, result, args, target.value))
  }

  // The orders ETMR, ETMP, FTMR and FTMP; None for an exception.
  function CallMade(order: int, memory: int -> nat, s: State, r: Registers): Option<State>
    requires |s.display| == LEVELS
  {
    match order
    case 8 => Some(Called(s, Word(0), r.a, r.b))
    case 9 => Some(Called(s, Null, r.a, r.b))
    case 10 => CalledAt(s, Word(0), r.a, FormalProcedure(memory, s, r.s))
    case 11 => CalledAt(s, Null, r.a, FormalProcedure(memory, s, r.s))
    case _ => None
  }

  // One instruction, as far as calls go.
  function Step(memory: int -> nat, m: Machine): Option<Machine>
    requires |m.state.display| == LEVELS
  {
    var word := memory(m.state.ot % 0x8000);
    var next := m.(state := m.state.(ot := m.state.ot % 0x8000 + 1));
    match word / 0x8000
    case 144 => Some(next.(r := m.r.(a := word % 0x8000)))
    case 656 => Some(next.(r := m.r.(s := word % 0x8000)))
    case 2192 => Some(next.(r := m.r.(b := word % 0x8000)))
    case 2704 => Some(next.(state := next.state.(ot := word % 0x8000)))
    case 0 =>
      (match CallMade(word, memory, next.state, m.r)
       case None => None
       case Some(s) => Some(next.(state := s)))
    case _ => None
  }

  // A call has its place for a result, or a null cell, right below its frame.
  ghost predicate MakesCall(order: int, formal: bool, result: bool) {
    forall memory: int -> nat, s: State, r: Registers :: |s.display| == LEVELS ==>
      CallMade(order, memory, s, r) ==
      CalledAt(s, if result then Word(0) else Null, r.a, if formal then FormalProcedure(memory, s, r.s) else Some(r.b))
  }

  // The result cell of a call, which FrameCreate leaves where it is.
  lemma ResultCell(s: State, result: Cell, args: nat, target: nat)
    ensures var t := Called(s, result, args, target);
            |s.stack| < |t.stack| && t.stack[|s.stack|] == result && t.stack[..|s.stack|] == s.stack
  {
    var n, links := |s.stack|, [Address(s.framePtr), Address(s.ot), Address(s.stackBase), Address(0), Address(0)];
    var t := Called(s, result, args, target);
    assert (s.stack + [result])[..n] == s.stack;
  }

  /**
   The call the translator emits behind a parameter list leaves a place for a result exactly where the saved flags
   say that one is expected, and goes through a formal parameter exactly where they name a formal procedure.
   */
  lemma KindOfCall(saved: Flags, formal: bool, result: bool)
    requires saved.eflag in {0, 1} && saved.fflag in {0, 1}
    ensures var i := Transmark(saved.fflag, saved.eflag);
            && i.w == 0 && 8 <= i.opc <= 11
            && (MakesCall(i.opc, formal, result) <==> formal == (saved.fflag == 1) && result == (saved.eflag == 1))
  {
    hide Called, FormalProcedure;
    var order, isFormal, hasResult := Transmark(saved.fflag, saved.eflag).opc, saved.fflag == 1, saved.eflag == 1;
    assert MakesCall(order, isFormal, hasResult);
    if MakesCall(order, formal, result) {
      SameKind(order, isFormal, hasResult, formal, result);
    }
  }

  lemma SameKind(order: int, formal1: bool, result1: bool, formal2: bool, result2: bool)
    requires MakesCall(order, formal1, result1) && MakesCall(order, formal2, result2)
    ensures formal1 == formal2 && result1 == result2
  {
    hide Called, CallMade;
    // An actual parameter that is no procedure tells the two ways to the procedure apart,
    var s, r := State([], 0, 0, seq(LEVELS, _ => 0), map[], 0), Registers(0, 0, 0);
    var plain: int -> nat, routine: int -> nat := _ => 0, _ => VALUE_ROUTINE * 0x8000;
    assert FormalProcedure(plain, s, 0) == None;
    assert CallMade(order, plain, s, r)
        == CalledAt(s, if result1 then Word(0) else Null, 0, if formal1 then None else Some(0));
    assert CallMade(order, plain, s, r)
        == CalledAt(s, if result2 then Word(0) else Null, 0, if formal2 then None else Some(0));
    // and one that is, the cells for the result.
    assert FormalProcedure(routine, s, 0) == Some(0);
    assert CallMade(order, routine, s, r) == CalledAt(s, if result1 then Word(0) else Null, 0, Some(0));
    assert CallMade(order, routine, s, r) == CalledAt(s, if result2 then Word(0) else Null, 0, Some(0));
    ResultCell(s, if result1 then Word(0) else Null, 0, 0);
    ResultCell(s, if result2 then Word(0) else Null, 0, 0);
  }

  // The code of a call: the routines of the parameters are jumped over.
  function CallCode(id: nat, place: nat, routines: seq<Instr>, pords: seq<int>, saved: Flags): seq<Instr> {
    [ExpressionTranslator.AddressToRegister(id), Instr(2, place + 88080384)] + routines + Descriptors(pords)
    + [Instr(0, |pords| + 4718592), Transmark(saved.fflag, saved.eflag)]
  }

  function Steps(memory: int -> nat, m: Machine, n: nat): (e: Option<Machine>)
    requires |m.state.display| == LEVELS
    decreases n
  {
    if n == 0 then Some(m)
    else
      match Step(memory, m)
      case None => None
      case Some(m1) => Steps(memory, m1, n - 1)
  }

  // The relocated instructions q stand in the store from the address at.
  ghost predicate InProgram(at: nat, q: seq<Instr>, p: Places, memory: int -> nat) {
    at + |q| < 0x8000 && forall i :: 0 <= i < |q| ==> InWord(at + i, q[i], p, memory)
  }

  ghost predicate InWord(at: nat, i: Instr, p: Places, memory: int -> nat) {
    Relocatable(i, p) && memory(at) == Relocated(i, p)
  }

  // The procedure's place, or the dynamic address of the formal procedure.
  predicate Addresses(id: nat, formal: bool, p: Places) {
    if formal then Dynamic(id)
    else
      && !Dynamic(id) && Relocatable(ExpressionTranslator.AddressToRegister(id), p)
      && 0 <= Relocated(ExpressionTranslator.AddressToRegister(id), p) - 2192 * 0x8000 < 0x8000
  }

  lemma StepAddress(id: nat, formal: bool, p: Places, memory: int -> nat, m: Machine)
    requires |m.state.display| == LEVELS && 0 <= m.state.ot < 0x8000 && Addresses(id, formal, p)
    requires InWord(m.state.ot, ExpressionTranslator.AddressToRegister(id), p, memory)
    ensures var next := m.(state := m.state.(ot := m.state.ot + 1));
            Step(memory, m) ==
            Some(if formal then next.(r := m.r.(s := AddressPart(id)))
                 else next.(r := m.r.(b := Relocated(ExpressionTranslator.AddressToRegister(id), p) % 0x8000)))
  {
    if !formal {
      hide Relocated, Relocatable;
    }
  }

  lemma StepJump(place: nat, goal: nat, p: Places, memory: int -> nat, m: Machine)
    requires |m.state.display| == LEVELS && 0 <= m.state.ot < 0x8000
    requires place < 0x8000 && place < |p.fli| && p.fli[place] == goal < 0x8000
    requires InWord(m.state.ot, Instr(2, place + 88080384), p, memory)
    ensures Step(memory, m) == Some(m.(state := m.state.(ot := goal)))
  {
    var i := Instr(2, place + 88080384);
    assert i.w % 0x8000 == place && i.w / 0x20000 % 2 == 0;
    assert Relocated(i, p) == 88604672 + goal;
  }

  lemma StepCount(n: nat, p: Places, memory: int -> nat, m: Machine)
    requires |m.state.display| == LEVELS && 0 <= m.state.ot < 0x8000 && n < 0x8000
    requires InWord(m.state.ot, Instr(0, n + 4718592), p, memory)
    ensures Step(memory, m) == Some(Machine(m.state.(ot := m.state.ot + 1), m.r.(a := n)))
  {
  }

  lemma StepCall(i: Instr, formal: bool, result: bool, p: Places, memory: int -> nat, m: Machine)
    requires |m.state.display| == LEVELS && 0 <= m.state.ot < 0x8000
    requires 8 <= i.opc < 0x8000 && InWord(m.state.ot, i, p, memory) && MakesCall(i.opc, formal, result)
    ensures var s := m.state.(ot := m.state.ot + 1);
            var c := CalledAt(s, if result then Word(0) else Null, m.r.a,
                              if formal then FormalProcedure(memory, s, m.r.s) else Some(m.r.b));
            Step(memory, m) == if c == None then None else Some(m.(state := c.value))
  {
    hide CallMade, CalledAt, FormalProcedure, Called;
  }

  /**
   The call of a procedure in the loaded program, from the instruction that gives its address: the machine arrives
   at the procedure, or at the actual parameter of a formal procedure, with a frame for as many parameters as
   were written, the return address behind the call, and below the frame a place for the result or none.
   An exception is thrown exactly where a formal procedure has no procedure as its actual parameter.
   */
  lemma CallExecuted(at: nat, id: nat, place: nat, routines: seq<Instr>, pords: seq<int>, saved: Flags, p: Places,
                     memory: int -> nat, m: Machine)
    requires saved.eflag in {0, 1} && saved.fflag in {0, 1} && Addresses(id, saved.fflag == 1, p)
    requires InProgram(at, CallCode(id, place, routines, pords, saved), p, memory)
    requires place < |p.fli| && place < 0x8000 && p.fli[place] == at + 2 + |routines| + |pords|
    requires |m.state.display| == LEVELS && m.state.ot == at
    ensures var s := m.state.(ot := at + |CallCode(id, place, routines, pords, saved)|);
            var target := if saved.fflag == 1 then FormalProcedure(memory, s, AddressPart(id))
                          else Some(Relocated(ExpressionTranslator.AddressToRegister(id), p) % 0x8000);
            var e := Steps(memory, m, 4);
            if target == None then e == None
            else
              && e != None
              && e.value.state == Called(s, if saved.eflag == 1 then Word(0) else Null, |pords|, target.value)
  {
    hide Step, Relocated, Relocatable, FormalProcedure, Called, CallMade, MakesCall, Transmark, Descriptors;
    var q := CallCode(id, place, routines, pords, saved);
    var goal := at + 2 + |routines| + |pords|;
    CallWords(at, id, place, routines, pords, saved, p, memory);
    StepAddress(id, saved.fflag == 1, p, memory, m);
    var m1 := Step(memory, m).value;
    StepJump(place, goal, p, memory, m1);
    var m2 := Step(memory, m1).value;
    StepCount(|pords|, p, memory, m2);
    var m3 := Step(memory, m2).value;
    KindOfCall(saved, saved.fflag == 1, saved.eflag == 1);
    StepCall(Transmark(saved.fflag, saved.eflag), saved.fflag == 1, saved.eflag == 1, p, memory, m3);
    FourSteps(memory, m, m1, m2, m3);
  }

  lemma CallWords(at: nat, id: nat, place: nat, routines: seq<Instr>, pords: seq<int>, saved: Flags, p: Places,
                  memory: int -> nat)
    requires InProgram(at, CallCode(id, place, routines, pords, saved), p, memory)
    ensures InWord(at, ExpressionTranslator.AddressToRegister(id), p, memory)
    ensures InWord(at + 1, Instr(2, place + 88080384), p, memory)
    ensures var goal := at + 2 + |routines| + |pords|;
            && InWord(goal, Instr(0, |pords| + 4718592), p, memory)
            && InWord(goal + 1, Transmark(saved.fflag, saved.eflag), p, memory)
            && goal + 2 == at + |CallCode(id, place, routines, pords, saved)| < 0x8000
  {
    hide InWord, Transmark;
    var q := CallCode(id, place, routines, pords, saved);
    var n := 2 + |routines| + |pords|;
    assert q[0] == ExpressionTranslator.AddressToRegister(id) && q[1] == Instr(2, place + 88080384);
    assert q[n] == Instr(0, |pords| + 4718592) && q[n + 1] == Transmark(saved.fflag, saved.eflag);
    assert InWord(at + 0, q[0], p, memory) && InWord(at + n, q[n], p, memory);
    assert InWord(at + (n + 1), q[n + 1], p, memory);
  }

  lemma FourSteps(memory: int -> nat, m: Machine, m1: Machine, m2: Machine, m3: Machine)
    requires |m.state.display| == |m1.state.display| == |m2.state.display| == |m3.state.display| == LEVELS
    requires Step(memory, m) == Some(m1) && Step(memory, m1) == Some(m2) && Step(memory, m2) == Some(m3)
    ensures Steps(memory, m, 4) == Step(memory, m3)
  {
    hide Step;
  }

  /**
   A formal procedure can be called exactly when its actual parameter is the name of a procedure of the program:
   no variable, no constant, and not itself a formal parameter of the block of the call.
   */
  lemma ProcedurePassed(memory: int -> nat, s: State, acts: seq<Act>, dynamic: nat, i: nat, k: nat, id: nat)
    requires Stacked(s, acts) && Names(s.display, acts, dynamic, i, k)
    requires Sort(DescriptorOf(memory, acts[i], k)) == SortOf(id)
    ensures |s.display| == LEVELS
    ensures FormalProcedure(memory, s, dynamic) ==
            if !Dynamic(id) && Procedural(id) then Some(PlaceOf(DescriptorOf(memory, acts[i], k))) else None
  {
    hide Good, OpsOk, RunTimeState.AddressAt, FormalsOk, KindOk, Sort, PlaceOf, Dynamic, Procedural, Integral, Formal;
    AddressParts(acts[i].level, ARG + 2 * k);
    GoodAt(s.stack, acts, i);
  }

  // The first formal parameter of a procedure at level 1, a procedure itself and passed on as a parameter: the
  // procedure it was passed to cannot call it.
  lemma PassedOnRefused(memory: int -> nat, s: State, acts: seq<Act>, dynamic: nat, i: nat, k: nat)
    requires Stacked(s, acts) && Names(s.display, acts, dynamic, i, k)
    requires Sort(DescriptorOf(memory, acts[i], k)) == SortOf(0x580A1)
    ensures Dynamic(0x580A1) && Formal(0x580A1) && Procedural(0x580A1) && AddressPart(0x580A1) == DynamicAddress(1, ARG)
    ensures |s.display| == LEVELS && FormalProcedure(memory, s, dynamic) == None
  {
    ProcedurePassed(memory, s, acts, dynamic, i, k, 0x580A1);
  }
}
