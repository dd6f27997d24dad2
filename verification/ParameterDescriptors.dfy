/**
 Parameter descriptors from the translator to the run-time system: what is built for an actual parameter
 is, once loaded, read as its kind, its block level and its place.
 */
module ParameterDescriptors {
  import opened ObjectCode
  import opened ProgramLoader
  import opened ExpressionTranslator
  import opened StackCells
  import opened RunTimeState
  import opened Activations
  import opened RunTimeSafety
  import opened FormalParameters
  import opened CallSite

  // A formal parameter, passed on.
  predicate Formal(id: nat) {
    id / 0x10000 % 2 == 1
  }

  // A procedure, called to get the value.
  predicate Procedural(id: nat) {
    id / 0x40000 % 2 == 1
  }

  // The descriptor of an identifier that is an actual parameter on its own.
  function OperandPord(id: nat): nat {
    var pord := if !Dynamic(id) then
                  ListPart(id) * 0x1000000 + AddressPart(id) + (if ListPart(id) == 2 then 0x20000 else 0)
                else
                  0x10000 + id % 32 * 0x400000 + id / 32 % 1024;
    if Dynamic(id) && Formal(id) then pord + 0x20000
    else if Procedural(id) then pord + 0x100000
    else if Integral(id) then pord + 0x80000
    else pord
  }

  // The translator builds it by tests on single digits of the identifier.
  method ConstructPord(id: nat) returns (pord: nat)
    ensures pord == OperandPord(id)
  {
    if id / 0x8000 % 2 == 0 {
      pord := id / 0x1000000 % 4 * 0x1000000 + id % 0x8000;
      if id / 0x1000000 % 4 == 2 {
        pord := pord + 0x20000;
      }
    } else {
      pord := 0x10000 + id % 32 * 0x400000 + id / 32 % 1024;
      if id / 0x10000 % 2 == 1 {
        pord := pord + 0x20000;
        return;
      }
    }
    if id / 0x40000 % 2 == 1 {
      pord := pord + 0x100000;
    } else if id / 0x80000 % 2 == 1 {
      pord := pord + 0x80000;
    }
  }

  // The descriptor of a parameter with a routine at a place of the program, for its value or its address.
  function RoutinePord(place: nat, address: bool): nat {
    place + (if address then 0x80000 else 0) + 0x100000 + 0x1000000
  }

  // The kind the run-time system is to see.
  function SortOf(id: nat): nat {
    if Dynamic(id) && Formal(id) then PASSED_ON
    else (if Dynamic(id) then REAL_IN_STACK else REAL_IN_STORE)
         + (if Procedural(id) then VALUE_ROUTINE else if Integral(id) then INTEGER_IN_STORE else 0)
  }

  lemma DigitsApart(q: nat, r: nat, m: nat)
    requires m in {128, 0x8000, 0x10000, 0x20000, 0x400000} && r < m
    ensures (m * q + r) / m == q && (m * q + r) % m == r
  {
  }

  // Fifteen digits of address, seven of kind with one to spare, and the block level.
  lemma Parts(place: nat, kind: nat, level: nat)
    requires place < 0x8000 && kind < 64
    ensures var d := place + 0x8000 * kind + 0x400000 * level;
            Sort(d) == kind && LevelOf(d) == level && PlaceOf(d) == place
  {
    var k := kind + 128 * level;
    DigitsApart(k, place, 0x8000);
    DigitsApart(level, place + 0x8000 * kind, 0x400000);
    SixDigits(kind, level);
  }

  lemma SixDigits(kind: nat, level: nat)
    requires kind < 64
    ensures (kind + 128 * level) % 64 == kind
  {
  }

  lemma AddressDigits(id: nat)
    ensures DynamicAddress(id % 32, id / 32 % 1024) == AddressPart(id)
  {
    var q := id / 32;
    assert id == 32 * q + id % 32 && q == 1024 * (q / 1024) + q % 1024;
    assert id == 0x8000 * (q / 1024) + (32 * (q % 1024) + id % 32);
  }

  // Its kind is the rest of the descriptor.
  lemma PordParts(id: nat)
    ensures Dynamic(id) ==> OperandPord(id) == id / 32 % 1024 + 0x8000 * SortOf(id) + 0x400000 * (id % 32)
    ensures !Dynamic(id) ==>
              OperandPord(id) == AddressPart(id) + 0x8000 * SortOf(id) + (if ListPart(id) == 2 then 0x20000 else 0)
                                 + 0x1000000 * ListPart(id)
    ensures SortOf(id) < 64 && ListPart(id) < 4 && AddressPart(id) < 0x8000
    ensures !Dynamic(id) ==> SortOf(id) in {0, 16, 32}
  {
    hide Dynamic, Formal, Procedural, Integral;
  }

  // A variable in a frame: its level and its place in the frame, which is also what orders address it by.
  lemma DynamicRead(id: nat, p: Places)
    requires Dynamic(id)
    ensures Relocatable(PordInstr(OperandPord(id)), p)
    ensures var d := Relocated(PordInstr(OperandPord(id)), p);
            && 0 <= d && Sort(d) == SortOf(id) && LevelOf(d) == id % 32 && PlaceOf(d) == id / 32 % 1024
            && DynamicAddress(LevelOf(d), PlaceOf(d)) == AddressPart(id)
  {
    PordParts(id);
    AddressDigits(id);
    Parts(id / 32 % 1024, SortOf(id), id % 32);
    DynamicDigit(id);
    hide OperandPord, SortOf, Dynamic, Sort, LevelOf, PlaceOf, AddressPart, DynamicAddress;
    assert PordInstr(OperandPord(id)) == Instr(0, OperandPord(id));
  }

  lemma DynamicDigit(id: nat)
    requires Dynamic(id)
    ensures OperandPord(id) / 0x10000 % 2 == 1 && OperandPord(id) < 0x8000000
  {
    PordParts(id);
    var k, place := SortOf(id), id / 32 % 1024;
    assert k in {2, 6, 18, 34};
    hide OperandPord, SortOf, Dynamic;
    DigitOf(place, k, id % 32);
  }

  lemma DigitOf(place: nat, kind: nat, level: nat)
    requires place < 1024 && kind in {2, 6, 18, 34} && level < 32
    ensures (place + 0x8000 * kind + 0x400000 * level) / 0x10000 % 2 == 1
  {
    var q := kind / 2 + 64 * level;
    assert place + 0x8000 * kind + 0x400000 * level == 0x10000 * q + place;
    DigitsApart(q, place, 0x10000);
  }

  // What the loader makes of the instruction of a descriptor in store.
  lemma StaticLoaded(list: nat, address: nat, kind: nat, p: Places)
    requires list < 4 && address < 0x8000 && kind in {0, 16, 32} && p.klib != CRFB
    requires list == 2 ==> address < |p.fli|
    ensures var pord := address + 0x8000 * kind + (if list == 2 then 0x20000 else 0) + 0x1000000 * list;
            && Relocatable(PordInstr(pord), p)
            && Relocated(PordInstr(pord), p) == 0x8000 * kind + Base(list, address, p)
  {
    var low := address + 0x8000 * kind + (if list == 2 then 0x20000 else 0);
    var pord := low + 0x1000000 * list;
    assert pord / 0x1000000 == list && pord % 0x1000000 == low;
    NoDynamicDigit(address, kind, list);
    if list == 2 {
      ListDigit(address, kind);
    }
  }

  // An address of one of the lists, relocated.
  function Base(list: nat, address: nat, p: Places): int
    requires list == 2 ==> address < |p.fli|
  {
    if list == 1 then address + p.listAddress else if list == 2 then p.fli[address]
    else if list == 3 then address + p.klib else address
  }

  lemma NoDynamicDigit(address: nat, kind: nat, list: nat)
    requires address < 0x8000 && kind in {0, 16, 32}
    ensures (address + 0x8000 * kind + (if list == 2 then 0x20000 else 0) + 0x1000000 * list) / 0x10000 % 2 == 0
  {
    var q := kind / 2 + (if list == 2 then 2 else 0) + 256 * list;
    DigitsApart(q, address, 0x10000);
  }

  lemma ListDigit(address: nat, kind: nat)
    requires address < 0x8000 && kind in {0, 16, 32}
    ensures var w := address + 0x8000 * kind + 0x20000; w / 0x20000 % 2 == 1 && w % 32768 == address
  {
    var w, q := address + 0x8000 * kind + 0x20000, kind / 4 + 1;
    assert w == 0x20000 * q + address && w == 0x8000 * (kind + 4) + address;
    DigitsApart(q, address, 0x20000);
    DigitsApart(kind + 4, address, 0x8000);
  }

  lemma RegisterLoaded(id: nat, p: Places)
    requires !Dynamic(id) && Relocatable(AddressToRegister(id), p) && p.klib != CRFB
    ensures ListPart(id) == 2 ==> AddressPart(id) < |p.fli|
    ensures Relocated(AddressToRegister(id), p) == 2192 * 0x8000 + Base(ListPart(id), AddressPart(id), p)
  {
    var a := AddressPart(id);
    assert (a + 71303168) % 32768 == a && (a + 71303168) / 0x20000 == 544 by {
      assert a + 71303168 == 32768 * 2176 + a == 0x20000 * 544 + a;
    }
  }

  // A variable, constant or procedure in store: the place is the one its address is relocated to.
  lemma StaticRead(id: nat, p: Places)
    requires !Dynamic(id) && Relocatable(AddressToRegister(id), p) && p.klib != CRFB
    requires 0 <= Relocated(AddressToRegister(id), p) - 2192 * 0x8000 < 0x8000
    ensures Relocatable(PordInstr(OperandPord(id)), p)
    ensures var d := Relocated(PordInstr(OperandPord(id)), p);
            && 0 <= d && Sort(d) == SortOf(id) && PlaceOf(d) == Relocated(AddressToRegister(id), p) % 0x8000
  {
    hide OperandPord, SortOf, Base, Sort, PlaceOf, AddressToRegister, Relocatable, Relocated, PordInstr, LevelOf;
    hide Dynamic, ListPart, AddressPart;
    PordParts(id);
    RegisterLoaded(id, p);
    StaticLoaded(ListPart(id), AddressPart(id), SortOf(id), p);
    var a := Base(ListPart(id), AddressPart(id), p);
    Parts(a, SortOf(id), 0);
    DigitsApart(2192, a, 0x8000);
  }

  // A routine: the place where it was loaded.
  lemma RoutineRead(place: nat, address: bool, p: Places)
    requires place < 0x8000 && 0 <= p.listAddress && place + p.listAddress < 0x8000
    ensures Relocatable(PordInstr(RoutinePord(place, address)), p)
    ensures var d := Relocated(PordInstr(RoutinePord(place, address)), p);
            && 0 <= d && Sort(d) == (if address then ADDRESS_ROUTINE else VALUE_ROUTINE)
            && PlaceOf(d) == place + p.listAddress
  {
  }

  /**
   A call in the loaded program, and the activation a it makes: the descriptor the run-time system finds
   for parameter k is of the kind of the identifier that stands there, and leads to its place.
   */
  lemma ActualRead(code: seq<Instr>, pords: seq<int>, transmark: Instr, k: nat, id: nat, p: Places, memory: int -> nat,
                   a: Activations.Act)
    requires k < |pords| && pords[k] == OperandPord(id) && p.klib != CRFB
    requires var q := code + Descriptors(pords) + [Instr(0, |pords| + 4718592), transmark];
             && AllRelocatable(q, p) && a.ret == p.listAddress + |q|
             && forall i :: 0 <= i < |q| ==> memory(p.listAddress + i) == Image(q, p)[i]
    requires !Dynamic(id) ==>
               && Relocatable(AddressToRegister(id), p)
               && 0 <= Relocated(AddressToRegister(id), p) - 2192 * 0x8000 < 0x8000
    ensures var d := DescriptorOf(memory, a, k);
            && Sort(d) == SortOf(id)
            && (Dynamic(id) ==> LevelOf(d) == id % 32 && PlaceOf(d) == id / 32 % 1024)
            && (!Dynamic(id) ==> PlaceOf(d) == Relocated(AddressToRegister(id), p) % 0x8000)
  {
    hide Descriptors, OperandPord, SortOf, Sort, LevelOf, PlaceOf, Relocated, Relocatable, PordInstr, AddressToRegister;
    hide Dynamic;
    var q := code + Descriptors(pords) + [Instr(0, |pords| + 4718592), transmark];
    DescriptorFound(code, pords, transmark, k, p);
    assert memory(p.listAddress + (|q| - k - 3)) == Image(q, p)[|q| - k - 3];
    if Dynamic(id) {
      DynamicRead(id, p);
    } else {
      StaticRead(id, p);
    }
  }

  // The address the orders TRAD, TRAS, TIAD and TIAS take for a variable, in the block that uses it.
  function TakenAddress(id: nat, display: seq<nat>, b: nat): Cell
    requires |display| == LEVELS
  {
    var a := if Dynamic(id) then display[AddressPart(id) % 32] + AddressPart(id) / 32 + STACK_BASE else b;
    if Integral(id) then Address(a) else RealAddress(a)
  }

  /**
   A variable passed as a parameter is the one the caller names itself: in whatever block the parameter is used,
   the address is that which the caller would have taken for the variable, in the state s of the call.
   */
  lemma SameVariable(s: State, acts: seq<Act>, i: nat, id: nat, d: nat, b: nat)
    requires i < |acts| && Inv(s, acts[..i]) && !Procedural(id) && Sort(d) == SortOf(id)
    requires Dynamic(id) ==> !Formal(id) && LevelOf(d) == id % 32 && PlaceOf(d) == id / 32 % 1024 && Known(acts, i, d)
    requires !Dynamic(id) ==> PlaceOf(d) == b
    ensures VariableAddress(acts, i, d) == TakenAddress(id, s.display, b)
  {
    hide Stacked, Cached, Environment, Enclosing, Sort, LevelOf, PlaceOf, AddressPart, Dynamic, Formal, Integral;
    hide Procedural;
    if Dynamic(id) {
      AddressDigits(id);
      AddressParts(id % 32, id / 32 % 1024);
      CallersBlock(s, acts, i, id % 32);
    }
  }

  // The display of the caller leads to the frames of the blocks around the call.
  lemma CallersBlock(s: State, acts: seq<Act>, i: nat, level: nat)
    requires i < |acts| && Inv(s, acts[..i]) && 1 <= level <= EnvironmentLevel(acts[..i]) && level < LEVELS
    ensures |s.display| == LEVELS
    ensures var e := Environment(acts[..i]); 0 <= e && s.display[level] == acts[Enclosing(acts, e, level)].frame
  {
    hide Good, OpsOk, Cached, Environment, Enclosing;
    var before := acts[..i];
    var e := Environment(before);
    EnvironmentInside(s.stack, before);
    assert before[e] == acts[e];
    EnclosingFrame(s.display, s.stack, before, e, level);
    EnclosingBefore(acts, i, e, level);
  }

  lemma {:induction false} EnclosingBefore(acts: seq<Act>, i: nat, e: nat, level: nat)
    requires e < i <= |acts|
    ensures Enclosing(acts[..i], e, level) == Enclosing(acts, e, level)
    decreases e
  {
    if acts[e].level > level && acts[e].link < e {
      EnclosingBefore(acts, i, acts[e].link, level);
    }
  }
}
