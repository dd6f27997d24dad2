/**
 A library routine from the tape writer through the tape to the store of the loader.
 */
module TapeRoundTrip {
  import opened Bits
  import opened Parity
  import opened ObjectCode
  import opened WordStore
  import opened DigitSupply
  import opened TapeFormat
  import opened DigitReader
  import opened ProgramLoader
  import opened ObjectFile

  // Reads the length and the number of the next routine on the tape.
  method ReadRoutineHeader(reader: Reader, ghost blank: nat, ghost num: nat, ghost q: seq<Instr>,
                           ghost ws: seq<int>, ghost end: seq<nat>)
    returns (stop: nat, ll: int, number: int)
    requires AllEmittable(q) && |q| < 8192 && num < 8192
    requires AllWords(ws) && RoutineWords(ws, num, q)
    requires 0 <= reader.position && reader.position + blank < |reader.tape|
    requires forall k :: reader.position <= k < reader.position + blank ==> reader.tape[k] == 0
    requires reader.tape[reader.position + blank..] == [HEADER] + TapeOf(ws) + end
    modifies reader
    ensures stop == 0 && ll == |q| && number == num
    ensures reader.Valid() && reader.bitcount <= 0 && !reader.fromStore && reader.ParityRight()
    ensures reader.rem == ProgramBits(q) + BitsOf(TERMINATOR, 27) && reader.trailer == end
    ensures reader.readLocation == old(reader.readLocation)
  {
    hide BitsOf, WordBits, TapeOf, ProgramBits, Odd, GroupOdd, Pow2, HeptadeBits;
    ghost var code := ProgramBits(q) + BitsOf(TERMINATOR, 27);
    ghost var z :| WordBits(ws) == Zeros(z) + RoutineBits(num, q);
    ghost var header := reader.position + blank;
    assert reader.tape[header] == reader.tape[header..][0] == HEADER;
    assert reader.tape[header + 1..] == reader.tape[header..][1..] == TapeOf(ws) + end;
    RoutineNotEmpty(ws, z, num, q);
    Pow2Values();
    stop := reader.FindHeader(blank, ws, end);
    stop := reader.SkipFilling(z, BitsOf(|q|, 13) + (BitsOf(num, 13) + code));
    stop, ll := reader.ReadCode(13, |q|, BitsOf(num, 13) + code);
    stop, number := reader.ReadCode(13, num, code);
  }

  lemma RoutineNotEmpty(ws: seq<int>, z: nat, num: nat, q: seq<Instr>)
    requires AllWords(ws) && AllEmittable(q) && WordBits(ws) == Zeros(z) + RoutineBits(num, q)
    ensures |ws| >= 1
  {
    WordBitsLength(ws);
  }

  // From the tape there is room for a list unless it would begin below the unread object code in
  // store, or right at its end with more than one word to come or nothing unread set free.
  lemma RoomFromTape(q: seq<Instr>, at: Site)
    requires AllEmittable(q) && !at.inStore
    ensures RoomFor(q, at)
            <==> |q| == 0 || at.floor + at.flsc < at.listAddress
                 || (at.listAddress == at.floor + at.flsc && |q| == 1 && at.flib != at.floor)
  {
    if |q| > 0 && at.listAddress <= at.floor + at.flsc {
      assert Collides(q, 0, at) || (|q| == 1 && at.listAddress == at.floor + at.flsc && at.flib != at.floor);
    }
  }

  // Punches a routine, and reads the tape again as far as its header.
  method PunchAndOpen(memory: array<int>, num: nat, q: seq<Instr>, blank: nat, end: seq<nat>, location: int)
    returns (reader: Reader, ll: int, number: int)
    requires AllEmittable(q) && |q| < 8192 && num < 8192
    ensures fresh(reader) && reader.store == memory && ll == |q| && number == num
    ensures reader.Valid() && reader.bitcount <= 0 && !reader.fromStore && reader.ParityRight()
    ensures reader.rem == ProgramBits(q) + BitsOf(TERMINATOR, 27) && reader.trailer == end
    ensures reader.readLocation == location
  {
    hide BitsOf, WordBits, TapeOf, ProgramBits, Odd, GroupOdd, Pow2, HeptadeBits, Emittable, Window, RoutineWords;
    var heptades;
    ghost var ws;
    heptades, ws := PunchRoutine(num, q);
    BehindBlank(blank, heptades, end);
    reader := new Reader(memory, Blank(blank) + heptades + end);
    reader.position, reader.readLocation := 0, location;
    var stop;
    stop, ll, number := ReadRoutineHeader(reader, blank, num, q, ws, end);
  }

  // A routine that was punched is loaded as itself, relocated, and the tape is left behind it.
  method PunchAndLoad(memory: array<int>, num: nat, q: seq<Instr>, blank: nat, end: seq<nat>, location: int, flib: int,
                      place: int, ghost mli: seq<int>)
    returns (stop: nat, number: int, left: seq<nat>)
    requires AllEmittable(q) && |q| < 8192 && num < 8192
    requires AllRelocatable(q, Places(place, [], CRFB, mli)) && Holds(memory, MLIB, MLIB + |mli|, mli)
    requires MLIB + |mli| <= location <= flib <= place + |q| <= memory.Length
    modifies memory
    ensures number == num
    ensures stop == 0 <==> |q| == 0 || location < place || (place == location && |q| == 1 && flib != location)
    ensures stop == 0 ==> Holds(memory, place, place + |q|, Image(q, Places(place, [], CRFB, mli))) && left == end
    ensures stop != 0 ==> stop == 98
    ensures forall k :: 0 <= k < location || place + |q| <= k < memory.Length ==> memory[k] == old(memory[k])
  {
    hide BitsOf, WordBits, TapeOf, ProgramBits, Odd, GroupOdd, Pow2, HeptadeBits, Relocatable, Relocated, Emittable;
    hide RoomFor, Image, Window;
    ghost var p := Places(place, [], CRFB, mli);
    var reader, ll;
    reader, ll, number := PunchAndOpen(memory, num, q, blank, end, location);
    var loader := new Loader(reader, flib, 0, CRFB);
    loader.listAddress := place;
    assert q[..|q|] == q;
    RoomFromTape(q, loader.Here());
    stop := loader.LoadRoutine(ll, q, p);
    left := if stop == 0 then reader.tape[reader.position..] else [];
  }

  lemma BehindBlank(blank: nat, t: seq<nat>, end: seq<nat>)
    ensures (Blank(blank) + t + end)[blank..] == t + end
    ensures forall k :: 0 <= k < blank ==> (Blank(blank) + t + end)[k] == 0
  {
    assert Blank(blank) + t + end == Blank(blank) + (t + end);
  }

  function Blank(n: nat): (s: seq<nat>)
    ensures |s| == n && forall k :: 0 <= k < n ==> s[k] == 0
  {
    seq(n, _ => 0)
  }

  // Reads a group that was damaged where f has ones, and the heptade behind it: the stop comes
  // exactly if an odd number of digits is wrong.
  method ReadDamaged(reader: Reader, x: nat, f: seq<nat>) returns (stop: nat)
    requires x < 0x8000000 && |f| == 4 && Heptades(f)
    requires reader.heptadeCount == 0 && 0 <= reader.parityWord < 128 && Odd(reader.parityWord)
    requires 0 <= reader.position && reader.position + 4 < |reader.tape|
    requires reader.tape[reader.position..reader.position + 4] == Damaged(TapeWord(x), f)
    requires reader.tape[reader.position + 4] < 128
    modifies reader
    ensures stop == if GroupOdd(f) then 105 else 0
  {
    hide Odd, GroupOdd, Xor, TapeWord, GroupSum, Damaged;
    ghost var g, first := Damaged(TapeWord(x), f), reader.position;
    WordParity(x);
    DamagedHeptades(TapeWord(x), f);
    SumOfOne(g);
    var w;
    stop, w := reader.TakeHeptade();
    for i := 1 to 4
      invariant reader.position == first + i && reader.heptadeCount == i - 4
      invariant 0 <= reader.parityWord < 128 && reader.parityWord == GroupSum(g[..i])
    {
      assert reader.tape[first + i] == g[i];
      SumOfMore(g, i);
      stop, w := reader.TakeHeptade();
    }
    assert g[..4] == g;
    SumParity(g);
    DamagedParity(TapeWord(x), f);
    stop, w := reader.TakeHeptade();
  }

  lemma SumOfOne(g: seq<nat>)
    requires |g| >= 1
    ensures GroupSum(g[..1]) == g[0]
  {
    assert g[..1][..0] == [];
    XorZero(g[0]);
  }

  lemma {:induction false} XorZero(y: nat)
    ensures Xor(0, y) == y
    decreases y
  {
    if y > 0 {
      XorZero(y / 2);
    }
  }

  lemma SumOfMore(g: seq<nat>, i: nat)
    requires i < |g|
    ensures GroupSum(g[..i + 1]) == Xor(GroupSum(g[..i]), g[i])
  {
    hide Xor;
    assert g[..i + 1][..i] == g[..i];
  }
}
