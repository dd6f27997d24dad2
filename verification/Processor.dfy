/**
 The processor's orders for procedures and implicit subroutines, working on its own fields.
 */
module Processing {
  import opened StackCells
  import opened RunTimeState
  import opened Activations
  import opened RunTimeSafety
  import opened RunTimeRuns
  import opened FormalParameters
  import opened X1Integers
  import opened ArrayStorage
  import opened ArrayFrames
  import opened CallRun
  import opened ExpressionTranslator

  class Processor {
    var stack: seq<Cell>
    const display: array<nat>
    var framePtr: nat
    var stackBase: nat
    var eisOperation: map<nat, FormalOp>
    var ot: nat
    const values: Values
    const memory: int -> nat

    constructor (v: Values, m: int -> nat)
      ensures fresh(display) && display.Length == LEVELS && values == v && memory == m
      ensures stack == [] && framePtr == 0 == stackBase && eisOperation == map[]
    {
      display := new nat[LEVELS](_ => 0);
      stack, framePtr, stackBase, eisOperation, ot, values, memory := [], 0, 0, map[], 0, v, m;
    }

    function Now(): (s: State)
      reads this, display
      ensures |s.display| == display.Length
    {
      State(stack, framePtr, stackBase, display[..], eisOperation, ot)
    }

    function GetBlockLevel(): (level: nat)
      reads this, display
      ensures level == BlockLevel(Now())
    {
      if stackBase == 0 then 0 else AddressAt(stack, framePtr + BN)
    }

    method UpdateDisplay(from: nat, frame: nat)
      requires display.Length == LEVELS && from < LEVELS
      modifies display
      ensures display[..] == Updated(old(display[..]), stack, from, frame)
    {
      var level: nat, fp: nat := from, frame;
      while level > 0
        invariant level < LEVELS
        invariant Updated(display[..], stack, level, fp) == Updated(old(display[..]), stack, from, frame)
      {
        ghost var before := display[..];
        display[level] := fp;
        assert display[..] == before[level := fp];
        level := level - 1;
        fp := AddressAt(stack, fp + DISPLAY);
      }
    }

    method FrameCreate(ret: nat, args: nat)
      modifies this`stack, this`framePtr, this`stackBase, this`eisOperation
      ensures Now() == FrameCreated(old(Now()), ret, args)
    {
      var newFrame := |stack|;
      var pard := Pard(GetBlockLevel(), framePtr);
      stack := stack + [Address(framePtr)];
      stack := stack + [Address(ret)];
      stack := stack + [Address(stackBase)];
      stack := stack + [Address(0)];
      stack := stack + [Address(0)];
      ghost var linked := stack;
      assert linked == old(stack) + [Address(framePtr), Address(ret), Address(stackBase), Address(0), Address(0)];
      for i := 0 to args
        invariant stack == linked + Formals(pard, i)
        invariant framePtr == old(framePtr) && stackBase == old(stackBase) && eisOperation == old(eisOperation)
      {
        ghost var so := Formals(pard, i);
        stack := stack + [Word(0)];
        stack := stack + [Address(pard)];
        assert linked + so + [Word(0)] + [Address(pard)] == linked + (so + [Word(0), Address(pard)]);
      }
      framePtr := newFrame;
      stackBase := |stack|;
      eisOperation := eisOperation[stackBase := PushValue];
    }

    method FrameRelease()
      requires display.Length == LEVELS && CanRelease(Now())
      modifies this`stack, this`framePtr, this`stackBase, this`ot, display
      ensures Now() == FrameReleased(old(Now()))
    {
      var newTop := framePtr;
      ot := AddressAt(stack, framePtr + PC);
      stackBase := AddressAt(stack, framePtr + SP);
      framePtr := AddressAt(stack, framePtr + FP);
      stack := stack[..newTop];
      assert Now() == FramePopped(old(Now()));
      UpdateDisplay(GetBlockLevel(), framePtr);
    }

    // The calls ETMR, with a place for the result, and ETMP.
    method Extransmark(result: Cell, args: nat, target: nat)
      modifies this`stack, this`framePtr, this`stackBase, this`eisOperation, this`ot
      ensures Now() == Called(old(Now()), result, args, target)
    {
      stack := stack + [result];
      FrameCreate(ot, args);
      ot := target;
    }

    method SetBlockLevel(level: nat)
      requires CanSetLevel(Now(), level)
      modifies this`stack
      ensures Now() == LevelSet(old(Now()), level)
    {
      if AddressAt(stack, framePtr + BN) == 0 {
        stack := stack[framePtr + BN := Address(level)];
      }
      if level > 1 {
        stack := stack[framePtr + DISPLAY := Address(display[level - 1])];
      }
    }

    // SCC: the procedure gets its block level, and with it a display of its own.
    method ShortCircuit(level: nat)
      requires ARG <= stackBase
      requires CanSetLevel(if GetBlockLevel() != 0 then Now().(framePtr := stackBase - ARG) else Now(), level)
      modifies this`stack, this`framePtr, display
      ensures Now() == Entered(old(Now()), level)
    {
      if GetBlockLevel() != 0 {
        framePtr := stackBase - ARG;
      }
      SetBlockLevel(level);
      UpdateDisplay(level, framePtr);
    }

    method AllocateStack(n: nat)
      modifies this`stack
      ensures stack == old(stack) + Cleared(n)
    {
      for i := 0 to n
        invariant stack == old(stack) + Cleared(i)
      {
        stack := stack + [Word(0)];
        assert Cleared(i) + [Word(0)] == Cleared(i + 1);
      }
    }

    method IncrementStackBase(n: nat)
      requires stackBase in eisOperation
      modifies this`stackBase, this`eisOperation
      ensures stackBase == old(stackBase) + n
      ensures eisOperation == old(eisOperation[stackBase + n := eisOperation[stackBase]])
    {
      var op := eisOperation[stackBase];
      stackBase := stackBase + n;
      eisOperation := eisOperation[stackBase := op];
    }

    // The two orders the translator emits for local variables.
    method Reserve(n: nat)
      requires stackBase in eisOperation
      modifies this`stack, this`stackBase, this`eisOperation
      ensures Now() == Reserved(old(Now()), Cleared(n))
    {
      AllocateStack(n);
      IncrementStackBase(n);
    }

    // FOR0: a for statement is a procedure with one local cell, one level further in than its caller.
    method EnterFor(ghost acts: seq<Act>)
      requires stackBase in eisOperation && ARG <= stackBase && GetBlockLevel() == 0 && framePtr + ARG <= |stack|
      requires display.Length == LEVELS && AddressAt(stack, AddressAt(stack, framePtr + FP) + BN) + 1 < LEVELS
      modifies this`stack, this`framePtr, this`stackBase, this`eisOperation, display
      ensures var s, level := old(Now()), old(AddressAt(stack, AddressAt(stack, framePtr + FP) + BN)) + 1;
              && ARG <= Reserved(s, Cleared(1)).stackBase && BlockLevel(Reserved(s, Cleared(1))) == 0
              && CanSetLevel(Reserved(s, Cleared(1)), level)
              && Now() == Entered(Reserved(s, Cleared(1)), level)
      ensures old(ForCalled(Now(), acts)) ==>
                && Possible(old(Now()), acts, ForEvents(acts), values)
                && Now() == Run(old(Now()), acts, ForEvents(acts), values).0
    {
      if ForCalled(Now(), acts) {
        ForEntered(Now(), acts, values);
      }
      var level := AddressAt(stack, AddressAt(stack, framePtr + FP) + BN) + 1;
      Reserve(1);
      ShortCircuit(level);
    }

    // The part of take_formal that enters an implicit subroutine.
    method EnterImplicit(level: nat, fp: nat, op: FormalOp, target: nat)
      requires display.Length == LEVELS && level < LEVELS
      modifies this`stack, this`framePtr, this`stackBase, this`eisOperation, this`ot, display
      ensures Now() == ThunkEntered(old(Now()), level, fp, op, target) && ot == target
    {
      stack := stack + [Word(0)];
      FrameCreate(ot, 0);
      if level > 0 {
        framePtr := fp;
        UpdateDisplay(level, fp);
      }
      eisOperation := eisOperation[stackBase := op];
      ot := target;
    }

    method Pop() returns (c: Cell)
      requires stack != []
      modifies this`stack
      ensures c == old(stack[|stack| - 1]) && stack == old(stack[..|stack| - 1])
    {
      c := stack[|stack| - 1];
      stack := stack[..|stack| - 1];
    }

    // The sum, difference, product or quotient with the top of the stack.
    method Combine(op: FormalOp, x: Cell)
      requires stack != []
      modifies this`stack
      ensures stack == old(stack[|stack| - 1 := Combined(values, op, stack[|stack| - 1], x)])
    {
      var top := stack[|stack| - 1];
      var result := values.combine(op, top, x);
      if op != Divide && top.Word? && x.Word? {
        var a, b := ToInt(top.w), ToInt(x.w);
        if op == AddTo && Fits(a + b) { result := Word(FromInt(a + b)); }
        if op == Subtract && Fits(a - b) { result := Word(FromInt(a - b)); }
        if op == Multiply && Fits(a * b) { result := Word(FromInt(a * b)); }
      }
      stack := stack[|stack| - 1 := result];
    }

    // The integer or real number at an address.
    method LoadValue(c: Cell) returns (value: Cell)
      ensures value == Load(values, stack, c)
    {
      value := values.memory(c);
      if (c.Address? || c.RealAddress?) && STACK_BASE <= c.a && c.a - STACK_BASE < |stack| {
        var number := Contents(stack[c.a - STACK_BASE]);
        value := if c.Address? then Word(number % 0x8000000) else Real(number % 0x40000000000000);
      }
    }

    // The recorded operation with the cell on top of the stack.
    method ApplyOperation(op: FormalOp)
      requires CanApply(Now(), op)
      modifies this`stack
      ensures stack == Applied(op, values, old(stack))
    {
      match op
      case AddTo | Subtract | Multiply | Divide =>
        var x := Pop();
        Combine(op, x);
      case PushDeref =>
        var value := LoadValue(stack[|stack| - 1]);
        stack := stack[|stack| - 1 := value];
      case AddDeref =>
        var x := Pop();
        var value := LoadValue(x);
        Combine(AddTo, value);
      case SubtractDeref =>
        var x := Pop();
        var value := LoadValue(x);
        Combine(Subtract, value);
      case MultiplyDeref =>
        var x := Pop();
        var value := LoadValue(x);
        Combine(Multiply, value);
      case DivideDeref =>
        var x := Pop();
        var value := LoadValue(x);
        Combine(Divide, value);
      case PushValue | PushAddress | PushString =>
    }

    // RET
    method Return()
      requires display.Length == LEVELS && CanReturn(Now())
      modifies this`stack, this`framePtr, this`stackBase, this`ot, display
      ensures Now() == Returned(old(Now()), values)
    {
      var op := eisOperation[stackBase];
      FrameRelease();
      if stack[|stack| - 1] == Null {
        var _ := Pop();
      } else {
        ApplyOperation(op);
      }
    }

    // EIS
    method EndOfImplicit()
      requires display.Length == LEVELS && CanEndThunk(Now())
      modifies this`stack, this`framePtr, this`stackBase, this`ot, display
      ensures Now() == ThunkEnded(old(Now()), values)
    {
      var item := Pop();
      var op := eisOperation[stackBase];
      framePtr := stackBase - ARG;
      FrameRelease();
      stack := stack[|stack| - 1 := item];
      ApplyOperation(op);
    }

    // The word in the store that describes the actual parameter at a dynamic address.
    function ArgDescriptor(dynamic: nat): nat
      requires dynamic % 32 < display.Length
      reads this, display
    {
      var ret := AddressAt(stack, display[dynamic % 32] + PC);
      memory(ret - (dynamic / 32 - 5) / 2 - 3)
    }

    // The level and frame of the call that a formal parameter belongs to.
    function GetArgDisplay(dynamic: nat): (nat, nat)
      requires dynamic % 32 < display.Length
      reads this, display
    {
      var pard := AddressAt(stack, display[dynamic % 32] + dynamic / 32 + 1);
      (pard / 0x8000, pard % 0x8000)
    }

    method GetFormalProc(dynamic: nat) returns (found: bool, address: nat)
      requires display.Length == LEVELS
      ensures FormalProcedure(memory, Now(), dynamic) == if found then Some(address) else None
    {
      var descriptor := ArgDescriptor(dynamic);
      found, address := Sort(descriptor) == VALUE_ROUTINE, PlaceOf(descriptor);
    }

    // ETMR, ETMP, FTMR and FTMP.  Nothing has changed when an exception is thrown.
    method CallProcedure(order: int, r: Registers) returns (thrown: bool)
      requires display.Length == LEVELS && 8 <= order <= 11
      modifies this`stack, this`framePtr, this`stackBase, this`eisOperation, this`ot
      ensures CallMade(order, memory, old(Now()), r) == if thrown then None else Some(Now())
      ensures thrown ==> Now() == old(Now())
    {
      hide FormalProcedure, Called;
      var found, target := true, r.b;
      if order >= 10 {
        found, target := GetFormalProc(r.s);
      }
      if found {
        Extransmark(if order == 8 || order == 10 then Word(0) else Null, r.a, target);
      }
      thrown := !found;
    }

    lemma AtParameter(acts: seq<Act>, dynamic: nat, i: nat, k: nat)
      requires Stacked(Now(), acts) && Names(display[..], acts, dynamic, i, k)
      ensures dynamic % 32 < display.Length == LEVELS
      ensures ArgDescriptor(dynamic) == DescriptorOf(memory, acts[i], k)
      ensures var pard := AddressAt(stack, FormalCell(acts[i], k));
              GetArgDisplay(dynamic) == (pard / 0x8000, pard % 0x8000)
    {
      hide Good, OpsOk, AddressAt, FormalsOk, KindOk;
      AddressParts(acts[i].level, ARG + 2 * k);
      GoodAt(stack, acts, i);
    }

    /**
     Follows a parameter through all the calls that only passed it on.  The frame it is looked up in
     lies further down every time.
     */
    method FollowFormals(dynamic: nat, ghost acts: seq<Act>, ghost i: nat, ghost k: nat)
      returns (last: nat, descriptor: nat)
      requires Stacked(Now(), acts) && Wired(acts, memory) && CurrentBase(acts) < 0x8000
      requires Names(display[..], acts, dynamic, i, k)
      modifies display
      ensures var o := Origin(acts, memory, i, k);
              && Names(display[..], acts, last, o.0, o.1)
              && descriptor == DescriptorOf(memory, acts[o.0], o.1) && Sort(descriptor) != PASSED_ON
    {
      hide Good, OpsOk, Wired, AddressAt, Updated, Environment, Enclosing, Names, Sort, LevelOf, PlaceOf;
      hide DescriptorOf, DynamicAddress, ParameterAt;
      ghost var j: nat, n: nat := i, k;
      last := dynamic;
      AtParameter(acts, last, j, n);
      NamesInside(display[..], acts, last, j, n);
      descriptor := ArgDescriptor(last);
      while Sort(descriptor) == PASSED_ON
        invariant display.Length == LEVELS && Stacked(Now(), acts) && Names(display[..], acts, last, j, n)
        invariant i < |acts| && j < |acts| && last % 32 < LEVELS && descriptor == DescriptorOf(memory, acts[j], n)
        invariant Origin(acts, memory, j, n) == Origin(acts, memory, i, k)
        decreases j
      {
        NamesInside(display[..], acts, last, j, n);
        AtParameter(acts, last, j, n);
        StepBack(Now(), acts, memory, j, n);
        var (level, fp) := GetArgDisplay(last);
        UpdateDisplay(level, fp);
        last := DynamicAddress(LevelOf(descriptor), PlaceOf(descriptor));
        j, n := Enclosing(acts, Environment(acts[..j]), LevelOf(descriptor)), ParameterAt(PlaceOf(descriptor));
        AtParameter(acts, last, j, n);
        descriptor := ArgDescriptor(last);
      }
    }

    static lemma NamesInside(d: seq<nat>, acts: seq<Act>, dynamic: nat, i: nat, k: nat)
      requires Names(d, acts, dynamic, i, k)
      ensures i < |acts| && acts[i].kind == Inside && k < acts[i].args
    {
    }

    // The address of an actual parameter in the stack, found from the place of the call.
    method ArgAddress(dynamic: nat, descriptor: nat) returns (found: bool, addr: nat)
      requires dynamic % 32 < display.Length
      ensures var (from, frame) := GetArgDisplay(dynamic);
              && found == (1 <= LevelOf(descriptor) <= from)
              && (found ==> addr == Walk(stack, frame, from - LevelOf(descriptor)) + PlaceOf(descriptor))
    {
      var (level, fp) := GetArgDisplay(dynamic);
      ghost var from, frame := level, fp;
      addr := 0;
      while level > 0
        invariant level <= from && Walk(stack, frame, from - level) == fp
        invariant level < LevelOf(descriptor) ==> from < LevelOf(descriptor)
        decreases level
      {
        if LevelOf(descriptor) == level {
          return true, fp + PlaceOf(descriptor);
        }
        WalkOn(stack, frame, from - level);
        fp := AddressAt(stack, fp + DISPLAY);
        level := level - 1;
      }
      found := false;
    }

    static lemma WalkOn(cells: seq<Cell>, fp: nat, steps: nat)
      ensures Walk(cells, fp, steps + 1) == AddressAt(cells, Walk(cells, fp, steps) + DISPLAY)
      decreases steps
    {
      if steps > 0 {
        WalkOn(cells, AddressAt(cells, fp + DISPLAY), steps - 1);
      }
    }

    // The requested operation with the variable at an address; then the display is that of the user again.
    method ApplyAtAddress(op: FormalOp, address: Cell)
      requires display.Length == LEVELS && Requested(op) && (TakesOne(op) ==> stackBase < |stack|)
      requires GetBlockLevel() < LEVELS && (stackBase == 0 || framePtr + ARG <= stackBase) && stackBase <= |stack|
      modifies this`stack, display
      ensures stack == Used(op, values, old(stack), address)
      ensures var level := old(GetBlockLevel()); display[..] == Updated(old(display[..]), stack, level, framePtr)
    {
      if op == PushAddress || op == PushString {
        stack := stack + [address];
      } else if op == PushValue {
        var value := LoadValue(address);
        stack := stack + [value];
      } else {
        var value := LoadValue(address);
        Combine(op, value);
      }
      UpdateDisplay(GetBlockLevel(), framePtr);
    }

    // The address of an actual parameter that is a variable or a string; not found when a variable
    // belongs to no block around the call.
    method VariableOf(dynamic: nat, descriptor: nat, ghost acts: seq<Act>, ghost i: nat, ghost k: nat)
      returns (found: bool, address: Cell)
      requires Stacked(Now(), acts) && CurrentBase(acts) < 0x8000 && Names(display[..], acts, dynamic, i, k)
      requires Sort(descriptor) in {REAL_IN_STORE, INTEGER_IN_STORE, REAL_IN_STACK, INTEGER_IN_STACK, VALUE_ROUTINE}
      ensures found == Known(acts, i, descriptor)
      ensures found ==> address == VariableAddress(acts, i, descriptor)
    {
      hide Good, OpsOk, AddressAt, Environment, Enclosing, Walk;
      AtParameter(acts, dynamic, i, k);
      found, address := true, Address(PlaceOf(descriptor));
      match Sort(descriptor)
      case 0 => address := RealAddress(PlaceOf(descriptor));
      case 16 =>
      case 32 =>
      case _ =>
        LevelOfCall(acts, i, k);
        if 1 <= LevelOf(descriptor) <= EnvironmentLevel(acts[..i]) {
          ReachesFrame(Now(), acts, i, k, LevelOf(descriptor));
        }
        var addr;
        found, addr := ArgAddress(dynamic, descriptor);
        address := if Sort(descriptor) == REAL_IN_STACK then RealAddress(addr + STACK_BASE)
          else Address(addr + STACK_BASE);
    }

    // The level in the second cell of a parameter is that of the environment of the call.
    lemma LevelOfCall(acts: seq<Act>, i: nat, k: nat)
      requires Stacked(Now(), acts) && CurrentBase(acts) < 0x8000 && i < |acts| && k < acts[i].args
               && acts[i].kind == Inside
      ensures AddressAt(stack, FormalCell(acts[i], k)) / 0x8000 == EnvironmentLevel(acts[..i])
    {
      hide Good, OpsOk, AddressAt, Environment;
      CallPlace(Now(), acts, i, k);
      CallerEnvironment(stack, acts, i);
    }

    /**
     Takes a formal parameter and does the requested operation with it.  A variable is used at once,
     and the display is that of the user again; a routine is entered in the block of the call that
     gave the actual parameter.  An exception is thrown for a descriptor of no known kind, a variable
     of no block around the call, and a string that is no string.
     */
    method TakeFormal(dynamic: nat, op: FormalOp, ghost acts: seq<Act>, ghost i: nat, ghost k: nat)
      returns (thrown: bool)
      requires Inv(Now(), acts) && Wired(acts, memory) && CurrentBase(acts) < 0x8000
      requires Names(display[..], acts, dynamic, i, k) && RunTimeSafety.Top(acts).kind != Calling
      requires Requested(op) && (TakesOne(op) ==> stackBase < |stack|)
      modifies this`stack, this`framePtr, this`stackBase, this`eisOperation, this`ot, display
      ensures var o := Origin(acts, memory, i, k);
              thrown == Refused(acts, o.0, DescriptorOf(memory, acts[o.0], o.1), op)
      ensures !thrown ==> Taken(old(Now()), Now(), acts, memory, values, i, k, op)
    {
      hide Good, OpsOk, Cached, AddressAt, Environment, Enclosing, Names, Origin, Wired, Updated, Sort, LevelOf;
      hide PlaceOf, DescriptorOf, Used, EnteredFrom, EnvironmentLevel;
      ghost var s := Now();
      NamesInside(display[..], acts, dynamic, i, k);
      var last, d := FollowFormals(dynamic, acts, i, k);
      ghost var o := Origin(acts, memory, i, k);
      if Sort(d) == ADDRESS_ROUTINE && op == PushString {
        return true;
      }
      if Sort(d) !in {REAL_IN_STORE, INTEGER_IN_STORE, REAL_IN_STACK, INTEGER_IN_STACK,
                      VALUE_ROUTINE, ADDRESS_ROUTINE} {
        return true;
      }
      if Sort(d) in {VALUE_ROUTINE, ADDRESS_ROUTINE} && op != PushString {
        EnterRoutine(last, d, op, acts, o.0, o.1, s);
        return false;
      }
      thrown := UseVariable(last, d, op, acts, o.0, o.1);
    }

    method UseVariable(last: nat, d: nat, op: FormalOp, ghost acts: seq<Act>, ghost i: nat, ghost k: nat)
      returns (thrown: bool)
      requires Stacked(Now(), acts) && CurrentBase(acts) < 0x8000 && acts != []
               && RunTimeSafety.Top(acts).kind != Calling
      requires Names(display[..], acts, last, i, k)
      requires Sort(d) in {REAL_IN_STORE, INTEGER_IN_STORE, REAL_IN_STACK, INTEGER_IN_STACK, VALUE_ROUTINE}
      requires Requested(op) && (TakesOne(op) ==> stackBase < |stack|)
      modifies this`stack, display
      ensures i < |acts| && thrown == !Known(acts, i, d)
      ensures !thrown ==> Inv(Now(), acts) && stack == Used(op, values, old(stack), VariableAddress(acts, i, d))
    {
      hide Good, OpsOk, Cached, AddressAt, Environment, Enclosing, Updated, Sort, LevelOf, PlaceOf, TakesOne;
      hide Requested, VariableAddress, Known;
      ghost var s := Now();
      NamesInside(display[..], acts, last, i, k);
      hide Names;
      var found, address := VariableOf(last, d, acts, i, k);
      if !found {
        return true;
      }
      LevelIs(s, acts);
      FrameInside(s, acts);
      ApplyAtAddress(op, address);
      UpperStacked(s, acts, stack, Now());
      ReleasedDisplay(s.display, stack, acts);
      thrown := false;
    }

    static lemma UpperStacked(s: State, acts: seq<Act>, cells: seq<Cell>, s1: State)
      requires Stacked(s, acts) && CurrentBase(acts) <= |cells| && s1 == s.(stack := cells, display := s1.display)
      requires |s1.display| == LEVELS
      requires forall i :: 0 <= i < CurrentBase(acts) ==> cells[i] == s.stack[i]
      ensures Stacked(s1, acts)
    {
      hide Good, OpsOk;
      PrefixLinks(s.stack, cells, acts);
      GoodStays(s.stack, cells, acts);
    }

    method EnterRoutine(last: nat, d: nat, op: FormalOp, ghost acts: seq<Act>, ghost i: nat, ghost k: nat,
                        ghost s: State)
      requires Stacked(Now(), acts) && CurrentBase(acts) < 0x8000 && acts != []
               && RunTimeSafety.Top(acts).kind != Calling
      requires Stacked(s, acts) && Now() == s.(display := display[..])
      requires Names(display[..], acts, last, i, k) && Sort(d) in {VALUE_ROUTINE, ADDRESS_ROUTINE}
      requires Requested(op) && (TakesOne(op) ==> stackBase < |stack|)
      modifies this`stack, this`framePtr, this`stackBase, this`eisOperation, this`ot, display
      ensures EnteredFrom(s, acts, RoutineEvent(acts, i, d, op), Now()) && ot == PlaceOf(d)
      ensures stack == s.stack + RoutineCells(s)
    {
      hide Good, OpsOk, Cached, AddressAt, Environment, Enclosing, Names, Updated, Sort, LevelOf, PlaceOf, NextActs;
      hide Inv, ThunkEntered;
      NamesInside(display[..], acts, last, i, k);
      AtParameter(acts, last, i, k);
      ghost var s0, ev := Now(), RoutineEvent(acts, i, d, op);
      CallPlace(s0, acts, i, k);
      CallerEnvironment(stack, acts, i);
      var op2 := if Sort(d) == ADDRESS_ROUTINE then Deref(op) else op;
      ImplicitKeeps(s0, acts, ev, values);
      SameActs(s0, s, acts, ev);
      var (level, fp) := GetArgDisplay(last);
      AtGlobalLevel(s0, fp, LinkFrame(acts, ev.link), op2, PlaceOf(d));
      ThunkCells(s0, level, fp, op2, PlaceOf(d));
      EnterImplicit(level, fp, op2, PlaceOf(d));
    }

    static lemma ThunkCells(s: State, level: nat, fp: nat, op: FormalOp, target: nat)
      requires |s.display| == LEVELS && level < LEVELS
      ensures ThunkEntered(s, level, fp, op, target).stack == s.stack + RoutineCells(s)
    {
      hide Updated;
      assert Formals(Pard(BlockLevel(s.(stack := s.stack + [Word(0)])), s.framePtr), 0) == [];
    }

    // At the global level there is no frame to work in.
    static lemma AtGlobalLevel(s: State, fp: nat, other: nat, op: FormalOp, target: nat)
      requires |s.display| == LEVELS
      ensures ThunkEntered(s, 0, fp, op, target) == ThunkEntered(s, 0, other, op, target)
    {
    }

    static lemma SameActs(s0: State, s: State, acts: seq<Act>, ev: Event)
      requires s0 == s.(display := s0.display) && ev.Implicit? && Legal(s0, acts, ev)
      ensures Legal(s, acts, ev) && NextActs(s0, acts, ev) == NextActs(s, acts, ev)
    {
    }

    // A for statement notes where it goes on after the controlled statement.
    method Resume(target: nat)
      requires framePtr + ARG <= |stack|
      modifies this`stack
      ensures Now() == Resumed(old(Now()), target)
    {
      stack := stack[framePtr + PC := Address(target)];
    }

    // FOR8
    method LeaveFor(target: nat)
      requires display.Length == LEVELS && CanLeaveFor(Now(), target)
      modifies this`stack, this`framePtr, this`stackBase, this`ot, display
      ensures Now() == ForLeft(old(Now()), target, values)
    {
      var _ := Pop();
      stack := stack[framePtr - 1 := Null];
      Resume(target);
      Return();
    }

    // The bounds on top of the stack, the last pair popped first.
    method PopBounds() returns (dims: seq<Bounds>)
      requires stackBase <= |stack| && BoundCells(stack[stackBase..])
      modifies this`stack
      ensures dims == BoundsOf(old(stack[stackBase..])) && stack == old(stack[..stackBase])
    {
      var ndim := (|stack| - stackBase) / 2;
      ghost var bounds := BoundsOf(stack[stackBase..]);
      dims := [];
      for i := 0 to ndim
        invariant stack == old(stack)[..|old(stack)| - 2 * i] && dims == bounds[ndim - i..]
      {
        ghost var k := ndim - 1 - i;
        assert old(stack[stackBase..])[2 * k + 1] == stack[|stack| - 1];
        assert old(stack[stackBase..])[2 * k] == stack[|stack| - 2];
        var right := ToInt(stack[|stack| - 1].w);
        var left := ToInt(stack[|stack| - 2].w);
        stack := stack[..|stack| - 2];
        dims := [Bounds(left, right)] + dims;
        assert bounds[k..] == [bounds[k]] + bounds[k + 1..];
      }
    }

    // The strides go onto the stack; the offset and the length are returned.
    method PushStrides(dims: seq<Bounds>, size: int) returns (offset: int, stride: int)
      modifies this`stack
      ensures stack == old(stack) + StrideCells(Strides(dims, size))
      ensures offset == Offset(dims, size) && stride == Words(dims, size)
    {
      offset, stride := 0, size;
      for k := 0 to |dims|
        invariant stride == Words(dims[..k], size) && offset == Offset(dims[..k], size)
        invariant stack == old(stack) + StrideCells(Strides(dims[..k], size))
      {
        assert dims[..k + 1] == dims[..k] + [dims[k]];
        WordsAppend(dims[..k], dims[k], size);
        OffsetAppend(dims[..k], dims[k], size);
        OneStrideMore(Strides(dims[..k], size), stride);
        stack := stack + [Word(stride % 0x8000000)];
        offset := offset + stride * dims[k].lower;
        stride := stride * (dims[k].upper - dims[k].lower + 1);
      }
      assert dims[..|dims|] == dims;
    }

    // The cells from the base on, once more.
    method Replicate(count: nat, ghost c: seq<Cell>)
      requires stackBase + count <= |stack| && stack[stackBase..stackBase + count] == c
      modifies this`stack
      ensures stack == old(stack) + c
    {
      for j := 0 to count
        invariant stack == old(stack) + c[..j]
      {
        assert stack[stackBase + j] == old(stack)[stackBase..stackBase + count][j] == c[j];
        stack := stack + [stack[stackBase + j]];
      }
    }

    // One storage function, not yet positioned.
    method PushFrame(dims: seq<Bounds>, size: int) returns (thrown: bool)
      requires size in {1, 2}
      modifies this`stack
      ensures thrown == !(Fits(Offset(dims, size)) && Fits(Words(dims, size)))
      ensures !thrown ==> stack == old(stack) + FrameCells(dims, size)
    {
      hide Strides, Words, Offset, StrideCells;
      stack := stack + [if size == 1 then Address(0) else RealAddress(0)];
      stack := stack + [Null];
      var zeroBase := |stack| - 1;
      var offset, stride := PushStrides(dims, size);
      if !Fits(offset) {
        return true;
      }
      stack := stack[zeroBase := Word(FromInt(offset))];
      if !Fits(-stride) {
        return true;
      }
      stack := stack + [Word(FromInt(-stride))];
      thrown := false;
    }

    // The storage function on top of the base becomes that many.
    method CopyFrames(items: nat, count: nat, ghost below: seq<Cell>, ghost c: seq<Cell>)
      requires 1 <= items && |below| == stackBase && |c| == count && stack == below + c
      modifies this`stack
      ensures stack == below + Copies(items, c)
    {
      hide Copies;
      CopyOnce(c);
      for i := 1 to items
        invariant stack == below + Copies(i, c) && c <= Copies(i, c)
      {
        CopyAgain(i, c);
        Replicate(count, c);
      }
    }

    // RSF and ISF: the storage functions of arrays with the bounds on the stack.  An exception is thrown
    // when the offset or the length is no machine integer.
    method MakeStorageFunctionFrame(size: int, items: nat) returns (thrown: bool)
      requires size in {1, 2} && 1 <= items && stackBase <= |stack| && stackBase in eisOperation
      requires BoundCells(stack[stackBase..])
      modifies this`stack, this`stackBase, this`eisOperation
      ensures var dims := BoundsOf(old(stack[stackBase..]));
              thrown == !(Fits(Offset(dims, size)) && Fits(Words(dims, size)))
      ensures !thrown ==> Now() == FramesMade(old(Now()), size, items)
    {
      hide BoundsOf, BoundCells, Strides, Words, Offset, FrameCells, Copies, Fits;
      var dims := PopBounds();
      thrown := PushFrame(dims, size);
      if !thrown {
        ghost var c := FrameCells(dims, size);
        CopyFrames(items, |dims| + 3, old(stack[..stackBase]), c);
        CopiesLength(items, c);
        IncrementStackBase(items * (|dims| + 3));
      }
    }

    // The place of the first negative number of the storage function; 32 when there is none.
    method FindLength(addr: nat) returns (pos: nat)
      ensures pos == FirstNegative(stack, addr, 2)
    {
      pos := 2;
      while pos < 32
        invariant 2 <= pos <= 32 && FirstNegative(stack, addr, pos) == FirstNegative(stack, addr, 2)
      {
        if addr + pos >= |stack| {
          return 32;
        }
        if stack[addr + pos].Word? && ToInt(stack[addr + pos].w) < 0 {
          return pos;
        }
        pos := pos + 1;
      }
    }

    // LAP: the storage function at addr gets its addresses, and the array its cells.
    method PositionArray(addr: nat) returns (thrown: bool)
      requires stackBase in eisOperation
      requires addr < |stack| ==> stack[addr].Address? || stack[addr].RealAddress?
      requires addr + 1 < |stack| ==> stack[addr + 1].Word?
      modifies this`stack, this`stackBase, this`eisOperation
      ensures thrown
          == old(addr >= |stack| || AddressAt(stack, addr) != 0 || FirstNegative(stack, addr, 2) == 32)
      ensures !thrown ==> Now() == Positioned(old(Now()), addr, old(FirstNegative(stack, addr, 2)))
    {
      hide ToInt, FirstNegative;
      if addr >= |stack| || stack[addr].a != 0 {
        return true;
      }
      var pos := FindLength(addr);
      if pos == 32 {
        return true;
      }
      var words := -ToInt(stack[addr + pos].w);
      var offset, ct := ToInt(stack[addr + 1].w), stack[addr];
      stack := stack[addr := Readdressed(ct, stackBase + STACK_BASE)];
      stack := stack[addr + 1 := Readdressed(ct, (stackBase - offset + STACK_BASE) % 0x8000000)];
      AllocateStack(words);
      IncrementStackBase(words);
      thrown := false;
    }
  }
}
