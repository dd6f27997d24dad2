/**
 The program loader: it reads the object code back from its last instruction to its first, and
 writes the relocated words from the top of their final place downwards, into the very store that
 still holds the unread part of the object code and the future list.
 */
module ProgramLoader {
  import opened Bits
  import opened ObjectCode
  import opened WordStore
  import opened CompilerStore
  import opened DigitReader
  import opened DigitSupply
  import opened Parity
  import opened TapeFormat
  import opened X1Integers

  const KLIE := 10165
  const CRFB := 623
  const MLIB := 800
  const START := 96 // the order every object program begins with

  // Where the parts of an instruction list refer to.
  datatype Places = Places(listAddress: int, fli: seq<int>, klib: int, mli: seq<int>)

  predicate Relocatable(i: Instr, p: Places) {
    && Emittable(i)
    && (i.opc == 2 ==> i.w % 32768 < |p.fli|)
    && (i.opc == 3 && p.klib == CRFB ==> i.w % 32768 < |p.mli|)
  }

  // The word of the loaded program.
  function Relocated(i: Instr, p: Places): int
    requires Relocatable(i, p)
  {
    if i.opc >= 8 then i.opc
    else if i.opc == 1 then i.w + p.listAddress
    else if i.opc == 2 then
      (if i.w / 0x20000 % 2 == 1 then i.w - 0x20000 else i.w + 0x80000) - i.w % 32768 + p.fli[i.w % 32768]
    else if i.opc == 3 then
      if p.klib == CRFB then i.w - i.w % 32768 + p.mli[i.w % 32768] else i.w + p.klib
    else i.w
  }

  // A reference to routine n of the library leads to where this routine was loaded; the operation stays.
  lemma LibraryReference(i: Instr, p: Places)
    requires Relocatable(i, p) && i.opc == 3 && p.klib == CRFB && 0 <= p.mli[i.w % 0x8000] < 0x8000
    ensures Relocated(i, p) % 0x8000 == p.mli[i.w % 0x8000] && Relocated(i, p) / 0x8000 == i.w / 0x8000
  {
    TwoParts(i.w, p.mli[i.w % 0x8000]);
  }

  // A reference to entry n of the future list leads to the place it holds; the operation has digit 17
  // taken off where it was one, else digit 19 added.
  lemma FutureReference(i: Instr, p: Places)
    requires Relocatable(i, p) && i.opc == 2 && 0 <= p.fli[i.w % 0x8000] < 0x8000
    ensures Relocated(i, p) % 0x8000 == p.fli[i.w % 0x8000]
    ensures Relocated(i, p) / 0x8000 == i.w / 0x8000 + if i.w / 0x8000 / 4 % 2 == 1 then -4 else 16
  {
    assert i.w / 0x20000 == i.w / 0x8000 / 4;
    TwoParts(i.w + if i.w / 0x20000 % 2 == 1 then -0x20000 else 0x80000, p.fli[i.w % 0x8000]);
  }

  lemma TwoParts(w: int, address: int)
    requires 0 <= address < 0x8000
    ensures (w - w % 0x8000 + address) % 0x8000 == address && (w - w % 0x8000 + address) / 0x8000 == w / 0x8000
  {
  }

  predicate AllRelocatable(q: seq<Instr>, p: Places) {
    forall i :: 0 <= i < |q| ==> Relocatable(q[i], p)
  }

  function Image(q: seq<Instr>, p: Places): (ws: seq<int>)
    requires AllRelocatable(q, p)
    ensures |ws| == |q| && forall i :: 0 <= i < |q| ==> ws[i] == Relocated(q[i], p)
  {
    seq(|q|, i requires 0 <= i < |q| => Relocated(q[i], p))
  }

  // Where a list goes, where the future list is before, and where the object code is read: from the
  // word floor of the store upwards, or from the tape.
  datatype Site = Site(listAddress: int, flib: int, flsc: int, floor: int, inStore: bool)

  // The end of the object code not yet fetched when the first i instructions of q are still unread.
  function UnreadEnd(q: seq<Instr>, i: nat, at: Site): int
    requires AllEmittable(q) && i <= |q|
  {
    if at.inStore then at.floor + (|ProgramBits(q[..i])| + 6) / 27 else at.floor
  }

  // Instruction i goes where the future list has to stay once it has moved down to the unread object
  // code, or right behind it when reading this instruction has set no word free.
  predicate Collides(q: seq<Instr>, i: nat, at: Site)
    requires AllEmittable(q) && i < |q|
  {
    var to, before := UnreadEnd(q, i, at), if i + 1 == |q| then at.flib else UnreadEnd(q, i + 1, at);
    if before == to then at.listAddress + i <= to + at.flsc else at.listAddress + i < to + at.flsc
  }

  predicate RoomFor(q: seq<Instr>, at: Site)
    requires AllEmittable(q)
  {
    forall i :: 0 <= i < |q| ==> !Collides(q, i, at)
  }

  lemma OneLess(q: seq<Instr>, i: nat)
    requires AllEmittable(q) && i < |q|
    ensures |ProgramBits(q[..i])| <= |ProgramBits(q[..i + 1])|
  {
    hide InstrBits;
    assert q[..i + 1][..i] == q[..i];
  }

  lemma {:induction false} UnreadEndFalls(q: seq<Instr>, i: nat, at: Site)
    requires AllEmittable(q) && i <= |q|
    ensures UnreadEnd(q, i, at) <= UnreadEnd(q, |q|, at)
    decreases |q| - i
  {
    if i < |q| {
      OneLess(q, i);
      hide ProgramBits;
      UnreadEndFalls(q, i + 1, at);
    }
  }

  // There is room at least when the list goes above the future list as it is.
  lemma RoomAbove(q: seq<Instr>, at: Site)
    requires AllEmittable(q) && UnreadEnd(q, |q|, at) <= at.flib && at.flib + at.flsc < at.listAddress
    ensures RoomFor(q, at)
  {
    hide ProgramBits, UnreadEnd;
    forall i | 0 <= i < |q| ensures !Collides(q, i, at) {
      UnreadEndFalls(q, i, at);
    }
  }

  class Loader {
    const reader: Reader
    const store: array<int>
    var flib: int
    var flsc: int
    var klib: int
    var listAddress: int

    constructor (r: Reader, futureList: int, futures: int, constants: int)
      ensures reader == r && store == r.store && flib == futureList && flsc == futures && klib == constants
    {
      reader, store := r, r.store;
      flib, flsc, klib, listAddress := futureList, futures, constants, 0;
    }

    ghost predicate Consistent()
      reads this
    {
      store == reader.store && 0 <= flsc
    }

    // The reader works on the object code in store, which lies below the future list.
    ghost predicate InPlace()
      reads this, reader, store
    {
      && Consistent() && reader.Valid() && reader.ParityRight() && reader.bitcount <= 0
      && 0 <= Floor() <= reader.readLocation <= flib
    }

    // Nothing below this address is written while a list is loaded.
    ghost function Floor(): int
      reads this, reader
    {
      if reader.fromStore then reader.base else reader.readLocation
    }

    ghost function Here(): Site
      reads this, reader
    {
      Site(listAddress, flib, flsc, Floor(), reader.fromStore)
    }

    // Makes the address part of a word refer to the place of what it names.
    method Relocate(opc: int, word: int, ghost i: Instr, ghost p: Places) returns (w: int)
      requires Relocatable(i, p) && (if i.opc < 8 then opc == i.opc && word == i.w else opc == 8 && word == i.opc)
      requires p.klib == klib && p.listAddress == listAddress && Holds(store, flib, flib + flsc, p.fli)
      requires klib == CRFB ==> Holds(store, MLIB, MLIB + |p.mli|, p.mli)
      ensures w == Relocated(i, p)
    {
      w := word;
      match opc {
        case 1 => w := w + listAddress;
        case 2 =>
          w := if w / 0x20000 % 2 == 1 then w - 0x20000 else w + 0x80000;
          assert w % 32768 == i.w % 32768;
          w := w + store[flib + w % 32768] - w % 32768;
        case 3 =>
          w := if klib == CRFB then w + store[MLIB + w % 32768] - w % 32768 else w + klib;
        case _ =>
      }
    }

    // One instruction of the list, relocated.
    method ReadBinaryWord(ghost i: Instr, ghost rest: seq<bit>, ghost p: Places) returns (w: int)
      requires InPlace() && Relocatable(i, p) && reader.rem == InstrBits(i) + rest && |rest| >= 21
      requires p.klib == klib && p.listAddress == listAddress && Holds(store, flib, flib + flsc, p.fli)
      requires klib == CRFB ==> Holds(store, MLIB, MLIB + |p.mli|, p.mli)
      modifies reader
      ensures w == Relocated(i, p) && reader.rem == rest && InPlace() && Floor() == old(Floor())
      ensures reader.fromStore == old(reader.fromStore) && reader.trailer == old(reader.trailer)
      ensures reader.readLocation <= old(reader.readLocation)
    {
      hide WordBits, InstrBits, Relocated, HeptadeBits, BitsOf, Odd, GroupOdd, Window;
      var stop, opc, word;
      stop, opc, word := reader.ReadInstr(i, rest);
      w := Relocate(opc, word, i, p);
    }

    // The future list moves down to the end of the object code still unread.
    method SlideFutureList(ghost fli: seq<int>)
      requires Holds(store, flib, flib + flsc, fli) && 0 <= reader.readLocation < flib && 0 <= flsc
      modifies this`flib, store
      ensures flib == reader.readLocation && Holds(store, flib, flib + flsc, fli)
      ensures forall k :: 0 <= k < store.Length && !(flib <= k < flib + flsc) ==> store[k] == old(store[k])
    {
      var from, to := flib, reader.readLocation;
      for j := 0 to flsc
        invariant flib == from
        invariant forall k :: 0 <= k < j ==> store[to + k] == fli[k]
        invariant forall k :: j <= k < flsc ==> store[from + k] == fli[k]
        invariant forall k :: 0 <= k < store.Length && !(to <= k < to + flsc) ==> store[k] == old(store[k])
      {
        store[to + j] := store[from + j];
      }
      flib := to;
    }

    // Writes one word of the list, making room for it first when it would touch the future list.
    method PlaceWord(place: int, w: int, ghost p: Places) returns (stop: nat)
      requires InPlace() && Holds(store, flib, flib + flsc, p.fli) && flib + flsc <= place + 1 <= store.Length
      modifies this`flib, store
      ensures stop == (if place <= old(flib) + flsc && old(flib) <= reader.readLocation then 98 else 0)
      ensures stop == 0 ==>
                InPlace() && Holds(store, flib, flib + flsc, p.fli) && flib + flsc <= place && store[place] == w
      ensures stop == 0 ==> flib == (if place <= old(flib) + flsc then reader.readLocation else old(flib))
      ensures forall k :: 0 <= k < Floor() || place < k < store.Length ==> store[k] == old(store[k])
    {
      label before:
      if place <= flib + flsc {
        if flib <= reader.readLocation {
          return 98;
        }
        SlideFutureList(p.fli);
      }
      store[place] := w;
      reader.Undisturbed@before();
      return 0;
    }

    // Instructions i.. of q are in place, the others are still to be read.
    ghost predicate Loading(q: seq<Instr>, p: Places, i: int)
      requires AllRelocatable(q, p)
      reads this, reader, store
    {
      && InPlace() && 0 <= i <= |q| && AllEmittable(q[..i])
      && p.klib == klib && p.listAddress == listAddress && Holds(store, flib, flib + flsc, p.fli)
      && reader.rem == ProgramBits(q[..i]) + BitsOf(TERMINATOR, 27)
      && flib + flsc <= listAddress + i && listAddress + |q| <= store.Length
      && Loaded(q, p, i)
    }

    ghost predicate Loaded(q: seq<Instr>, p: Places, i: int)
      requires AllRelocatable(q, p) && 0 <= i <= |q| && 0 <= listAddress + i && listAddress + |q| <= store.Length
      reads this, store
    {
      forall j :: i <= j < |q| ==> store[listAddress + j] == Relocated(q[j], p)
    }

    ghost predicate ConstantsOfLibrary(p: Places)
      reads this, reader, store
    {
      klib == CRFB ==> Holds(store, MLIB, MLIB + |p.mli|, p.mli) && MLIB + |p.mli| <= Floor()
    }

    // The future list lies at the end of the object code unread before instruction i - 1, or clear
    // of the instructions in place.
    ghost predicate Clear(q: seq<Instr>, i: int, at: Site)
      requires AllEmittable(q) && 0 <= i <= |q|
      reads this, reader
    {
      && Here() == at.(flib := flib)
      && UnreadEnd(q, i, at) == reader.readLocation
      && if i == |q| then flib == at.flib else flib == UnreadEnd(q, i, at) || flib + flsc < listAddress + i
    }

    // The reader is where the stream says.
    lemma WhereUnread(q: seq<Instr>, i: nat)
      requires AllEmittable(q) && i <= |q| && InPlace() && reader.rem == ProgramBits(q[..i]) + BitsOf(TERMINATOR, 27)
      ensures reader.readLocation == UnreadEnd(q, i, Here())
    {
      hide ProgramBits, BitsOf;
      if reader.fromStore {
        reader.WhereReading();
      }
    }

    // Above the future list there is room in any case.
    lemma FitsAbove(q: seq<Instr>, p: Places)
      requires AllRelocatable(q, p) && Loading(q, p, |q|) && AllEmittable(q)
      ensures flib + flsc < listAddress ==> RoomFor(q, Here())
    {
      hide RoomFor, ProgramBits, BitsOf, UnreadEnd;
      WhereUnread(q, |q|);
      if flib + flsc < listAddress {
        RoomAbove(q, Here());
      }
    }

    // Loads the next instruction below those in place.
    method LoadNext(i: int, ghost q: seq<Instr>, ghost p: Places, ghost at: Site) returns (stop: nat)
      requires AllRelocatable(q, p) && Loading(q, p, i + 1) && 0 <= i && ConstantsOfLibrary(p)
      requires AllEmittable(q) && Clear(q, i + 1, at)
      modifies this`flib, reader, store
      ensures stop == (if Collides(q, i, at) then 98 else 0) && Floor() == old(Floor())
      ensures reader.fromStore == old(reader.fromStore) && reader.trailer == old(reader.trailer)
      ensures stop == 0 ==> Loading(q, p, i) && ConstantsOfLibrary(p) && Clear(q, i, at)
      ensures forall k :: 0 <= k < Floor() || listAddress + i < k < store.Length ==> store[k] == old(store[k])
    {
      hide WordBits, InstrBits, Relocated, HeptadeBits, BitsOf, Odd, GroupOdd, Window, Relocatable, ProgramBits;
      hide Emittable;
      hide UnreadEnd, Reader.Stocked, Reader.ParityRight;
      ghost var end := BitsOf(TERMINATOR, 27);
      NextInstr(q[..i + 1], i, end);
      assert q[..i + 1][..i] == q[..i] && q[..i + 1][..i + 1] == q[..i + 1];
      var w := ReadBinaryWord(q[i], ProgramBits(q[..i]) + end, p);
      WhereUnread(q, i);
      SameUnread(q, i, at, flib);
      stop := PlaceWord(listAddress + i, w, p);
    }

    // Where the object code ends does not depend on the future list.
    static lemma SameUnread(q: seq<Instr>, i: nat, at: Site, flib: int)
      requires AllEmittable(q) && i <= |q|
      ensures UnreadEnd(q, i, at.(flib := flib)) == UnreadEnd(q, i, at)
    {
    }

    // Loads a list of ll instructions.  Returns the number of the stop, or 0.
    method ReadList(ll: int, ghost q: seq<Instr>, ghost p: Places) returns (stop: nat)
      requires AllRelocatable(q, p) && |q| == ll && Loading(q, p, ll) && ConstantsOfLibrary(p) && AllEmittable(q)
      modifies this`flib, reader, store
      ensures stop == (if RoomFor(q, old(Here())) then 0 else 98) && Floor() == old(Floor())
      ensures reader.fromStore == old(reader.fromStore) && reader.trailer == old(reader.trailer)
      ensures stop == 0 ==> Loading(q, p, 0) && Holds(store, listAddress, listAddress + ll, Image(q, p))
      ensures forall k :: 0 <= k < Floor() || listAddress + ll <= k < store.Length ==> store[k] == old(store[k])
    {
      hide WordBits, InstrBits, Relocated, HeptadeBits, BitsOf, Odd, GroupOdd, Window, Relocatable, ProgramBits;
      hide Emittable, UnreadEnd, Collides, Reader.Valid, Reader.ParityRight;
      ghost var at := Here();
      assert q[..ll] == q;
      WhereUnread(q, ll);
      for i := ll downto 0
        invariant Floor() == old(Floor()) && Loading(q, p, i) && ConstantsOfLibrary(p) && Clear(q, i, at)
        invariant forall j :: i <= j < ll ==> !Collides(q, j, at)
        invariant reader.fromStore == old(reader.fromStore) && reader.trailer == old(reader.trailer)
        invariant forall k :: 0 <= k < Floor() || listAddress + ll <= k < store.Length ==> store[k] == old(store[k])
      {
        stop := LoadNext(i, q, p, at);
        if stop != 0 {
          return;
        }
      }
      stop := TestBitStock(q, p);
    }

    static lemma NextInstr(q: seq<Instr>, i: nat, end: seq<bit>)
      requires AllEmittable(q) && i < |q|
      ensures AllEmittable(q[..i + 1]) && AllEmittable(q[..i])
      ensures ProgramBits(q[..i + 1]) + end == InstrBits(q[i]) + (ProgramBits(q[..i]) + end)
    {
      hide InstrBits;
      assert q[..i + 1][..i] == q[..i];
      Regroup(InstrBits(q[i]), ProgramBits(q[..i]), end);
    }

    // After the last instruction only the terminator is left, and all of it is in stock.
    method TestBitStock(ghost q: seq<Instr>, ghost p: Places) returns (stop: int)
      requires AllRelocatable(q, p) && Loading(q, p, 0)
      ensures stop == 0 && reader.bitstock == TERMINATOR && reader.unread == [] && reader.group == []
      ensures reader.fromStore ==> reader.readLocation == reader.base
      ensures !reader.fromStore ==> reader.tape[reader.position..] == reader.trailer
    {
      hide WordBits, InstrBits, Relocated, HeptadeBits, BitsOf, Odd, GroupOdd, Window, Relocatable;
      assert q[..0] == [];
      assert reader.rem == [] + BitsOf(TERMINATOR, 27) == BitsOf(TERMINATOR, 27);
      reader.LastWordInStock(TERMINATOR);
      stop := if reader.bitstock != TERMINATOR then 107 else 0;
    }

    // The tape is read up to what follows the routine, and no parity test has failed.
    ghost predicate BehindRoutine()
      reads this, reader, reader.store
    {
      reader.Valid() && reader.ParityRight() && !reader.fromStore && reader.tape[reader.position..] == reader.trailer
    }

    // Loads a routine from the tape; the tape is left right behind it.
    method LoadRoutine(ll: int, ghost q: seq<Instr>, ghost p: Places) returns (stop: nat)
      requires AllRelocatable(q, p) && |q| == ll && Loading(q, p, ll) && AllEmittable(q)
      requires ConstantsOfLibrary(p) && !reader.fromStore
      modifies this`flib, reader, store
      ensures stop == (if RoomFor(q, old(Here())) then 0 else 98) && reader.trailer == old(reader.trailer)
      ensures stop == 0 ==> Holds(store, listAddress, listAddress + ll, Image(q, p)) && BehindRoutine()
      ensures forall k :: 0 <= k < old(Floor()) || listAddress + ll <= k < store.Length ==> store[k] == old(store[k])
    {
      hide WordBits, InstrBits, Relocated, HeptadeBits, BitsOf, Odd, GroupOdd, Window, Relocatable, ProgramBits;
      hide TapeOf, Emittable, RoomFor;
      stop := ReadList(ll, q, p);
      if stop == 0 {
        stop := TestBitStock(q, p);
      }
    }
  }

  // Where a program of rlsc words and klsc constants begins.
  function ResultBase(rlsc: int, klsc: int): int {
    Quotient(KLIE - rlsc - klsc, 32) * 32
  }

  // The highest multiple of 32 that leaves room for the program and the constants.
  lemma HighestBase(rlsc: int, klsc: int)
    requires rlsc + klsc <= KLIE
    ensures var base := ResultBase(rlsc, klsc);
            base % 32 == 0 && base + rlsc + klsc <= KLIE < base + 32 + rlsc + klsc
  {
  }

  function Increased(fli: seq<int>, d: int): (r: seq<int>)
    ensures |r| == |fli|
  {
    seq(|fli|, i requires 0 <= i < |fli| => fli[i] + d)
  }

  // Adds d to the words from..from + count.
  method IncreaseEntries(store: array<int>, from: int, count: int, d: int, ghost fli: seq<int>)
    requires 0 <= count && Holds(store, from, from + count, fli)
    modifies store
    ensures Holds(store, from, from + count, Increased(fli, d))
    ensures forall k :: 0 <= k < store.Length && !(from <= k < from + count) ==> store[k] == old(store[k])
  {
    for i := 0 to count
      invariant forall k :: 0 <= k < i ==> store[from + k] == fli[k] + d
      invariant forall k :: i <= k < count ==> store[from + k] == fli[k]
      invariant forall k :: 0 <= k < store.Length && !(from <= k < from + count) ==> store[k] == old(store[k])
    {
      store[from + i] := store[from + i] + d;
    }
  }

  // Moves the constant list up to its final place, last word first.
  method MoveConstants(store: array<int>, from: int, to: int, count: int, ghost kli: seq<int>)
    requires 0 <= count && Holds(store, from, from + count, kli) && from <= to && to + count <= store.Length
    modifies store
    ensures Holds(store, to, to + count, kli)
    ensures forall k :: 0 <= k < store.Length && !(to <= k < to + count) ==> store[k] == old(store[k])
  {
    for i := count downto 0
      invariant forall k :: i <= k < count ==> store[to + k] == kli[k]
      invariant forall k :: 0 <= k < i ==> store[from + k] == kli[k]
      invariant forall k :: 0 <= k < store.Length && !(to <= k < to + count) ==> store[k] == old(store[k])
    {
      store[to + i] := store[from + i];
    }
  }

  // Future list entries become addresses, and the constants go to their final place.
  method PrepareLists(c: Compiler, flsc: int, rlib: int)
    requires c.Valid() && 0 <= flsc <= |c.lists.fli| && c.store[BIM - 1] == TERMINATOR
             && rlib == ResultBase(c.rlsc, c.klsc)
    modifies c.store
    ensures Holds(c.store, c.flib, c.flib + flsc, Increased(c.lists.fli[..flsc], rlib))
    ensures Holds(c.store, rlib + c.rlsc, rlib + c.rlsc + c.klsc, c.lists.kli)
    ensures Holds(c.store, BIM - 1, c.rnsb, [TERMINATOR] + c.words)
    ensures c.flib + flsc <= rlib + c.rlsc && CRFB < rlib + c.rlsc
  {
    hide WordBits, InstrBits, BitsOf, Window, ProgramBits;
    RoomAtTop(c.rlsc, c.klsc);
    IncreaseEntries(c.store, c.flib, flsc, rlib, c.lists.fli[..flsc]);
    MoveConstants(c.store, c.klib, rlib + c.rlsc, c.klsc, c.lists.kli);
  }

  // The loader up to the loaded object program, with the test on the order it begins with.  The
  // library routines, whose addresses it also enters in the future list, are not loaded here.
  method LoadProgram(c: Compiler, flsc: int, tape: seq<nat>) returns (stop: nat, rlib: int)
    requires c.Valid() && 0 <= flsc <= |c.lists.fli| && c.store[BIM - 1] == TERMINATOR
    requires forall i :: 0 <= i < |c.program| && c.program[i].opc == 2 ==> c.program[i].w % 32768 < flsc
    modifies c.store
    ensures rlib == ResultBase(c.rlsc, c.klsc)
    ensures stop == 98 <==> !RoomFor(c.program, Site(rlib, c.flib, flsc, BIM - 1, true))
    ensures c.flib + flsc < rlib ==> stop != 98
    ensures var p := FinalPlaces(rlib, c.lists.fli[..flsc], c.rlsc);
            AllRelocatable(c.program, p)
            && (stop != 98 ==> Holds(c.store, rlib, rlib + c.rlsc, Image(c.program, p))
                               && Holds(c.store, rlib + c.rlsc, rlib + c.rlsc + c.klsc, c.lists.kli)
                               && stop == (if c.store[rlib] == START then 0 else 101))
  {
    hide WordBits, InstrBits, Relocated, BitsOf, Window, Relocatable, ProgramBits, ResultBase, Increased, HeptadeBits;
    hide TapeOf, Odd, GroupOdd, Emittable, RoomFor, Reader.Valid, Reader.ParityRight;
    rlib := ResultBase(c.rlsc, c.klsc);
    ghost var q, p := c.program, FinalPlaces(rlib, c.lists.fli[..flsc], c.rlsc);
    StreamWithEnd(q, c.bitstock, c.bitcount, c.words);
    PrepareLists(c, flsc, rlib);
    ProgramRelocatable(q, flsc, p);
    var loader := OpenObjectCode(c, flsc, rlib, tape, q, p);
    loader.FitsAbove(q, p);
    stop := loader.ReadList(c.rlsc, q, p);
    RoomAtTop(c.rlsc, c.klsc);
    if stop == 0 && c.store[rlib] != START {
      stop := 101;
    }
  }

  // The loader about to read the last instruction of the program.
  method OpenObjectCode(c: Compiler, flsc: int, rlib: int, tape: seq<nat>, ghost q: seq<Instr>, ghost p: Places)
    returns (loader: Loader)
    requires 0 <= c.bitcount <= 27 && 0 <= c.bitstock < Pow2(c.bitcount) && 0 <= flsc && c.rnsb <= c.flib
    requires p.listAddress == rlib && p.klib == rlib + c.rlsc && CRFB < rlib + c.rlsc
    requires AllRelocatable(q, p) && |q| == c.rlsc && AllEmittable(q)
    requires AllWords([TERMINATOR] + c.words) && Holds(c.store, BIM - 1, c.rnsb, [TERMINATOR] + c.words)
    requires BitsOf(c.bitstock, c.bitcount) + WordBits([TERMINATOR] + c.words)
             == ProgramBits(q) + BitsOf(TERMINATOR, 27)
    requires Holds(c.store, c.flib, c.flib + flsc, p.fli)
    requires c.flib + flsc <= rlib + c.rlsc <= c.store.Length
    ensures fresh(loader) && fresh(loader.reader) && loader.store == c.store
    ensures loader.Here() == Site(rlib, c.flib, flsc, BIM - 1, true)
    ensures loader.Loading(q, p, |q|) && loader.ConstantsOfLibrary(p)
  {
    hide WordBits, InstrBits, Relocated, BitsOf, Window, Relocatable, ProgramBits, HeptadeBits, TapeOf, Odd, GroupOdd;
    hide Emittable, Pow2, Relocatable, Reader.Stocked, Reader.ParityRight;
    var reader := new Reader(c.store, tape);
    var stopped := reader.PrepareFromStore(c.bitstock, c.bitcount, c.rnsb, BIM - 1, [TERMINATOR] + c.words);
    loader := new Loader(reader, c.flib, flsc, rlib + c.rlsc);
    loader.listAddress := rlib;
    assert q[..|q|] == q;
  }

  lemma ProgramRelocatable(q: seq<Instr>, flsc: nat, p: Places)
    requires AllEmittable(q) && |p.fli| == flsc && p.klib != CRFB
    requires forall i :: 0 <= i < |q| && q[i].opc == 2 ==> q[i].w % 32768 < flsc
    ensures AllRelocatable(q, p)
  {
  }

  // The constants end just below the top of the store.
  lemma RoomAtTop(rlsc: int, klsc: int)
    ensures var top := ResultBase(rlsc, klsc) + rlsc; KLIE - 32 < top + klsc <= KLIE + 31
    ensures 0 <= rlsc && 0 <= klsc ==> ResultBase(rlsc, klsc) <= KLIE
  {
  }

  lemma StreamWithEnd(q: seq<Instr>, stock: nat, count: nat, words: seq<int>)
    requires AllWords(words) && AllEmittable(q) && BitsOf(stock, count) + WordBits(words) == ProgramBits(q)
    ensures AllWords([TERMINATOR] + words)
    ensures BitsOf(stock, count) + WordBits([TERMINATOR] + words) == ProgramBits(q) + BitsOf(TERMINATOR, 27)
    ensures |WordBits([TERMINATOR] + words)| >= 27
  {
    hide BitsOf, WordBits, ProgramBits;
    FirstWordLast(TERMINATOR, words);
    Regroup(BitsOf(stock, count), WordBits(words), BitsOf(TERMINATOR, 27));
  }

  // The parts of the program when it begins at rlib.
  function FinalPlaces(rlib: int, fli: seq<int>, rlsc: int): Places {
    Places(rlib, Increased(fli, rlib), rlib + rlsc, [])
  }
}
