/**
 The tape writer: it codes a library routine as the translator codes a program, and punches the
 result so that the loader reads it from the last instruction to the first.
 */
module ObjectFile {
  import opened Bits
  import opened Parity
  import opened Shifting
  import opened ObjectCode
  import opened WordStore
  import opened TapeFormat
  import opened CompilerStore
  import opened DigitReader

  function Reversed(s: seq<nat>): (r: seq<nat>)
    ensures |r| == |s|
  {
    if s == [] then [] else [s[|s| - 1]] + Reversed(s[..|s| - 1])
  }

  lemma ReversedLast(s: seq<nat>, x: nat)
    ensures Reversed(s + [x]) == [x] + Reversed(s)
  {
    assert (s + [x])[..|s|] == s;
  }

  lemma ReversedWord(s: seq<nat>, x: nat, y: nat, z: nat, w: nat)
    ensures Reversed(s + [x, y, z, w]) == [w, z, y, x] + Reversed(s)
  {
    hide Reversed;
    ReversedLast(s, x);
    ReversedLast(s + [x], y);
    ReversedLast(s + [x] + [y], z);
    ReversedLast(s + [x] + [y] + [z], w);
    assert s + [x] + [y] + [z] + [w] == s + [x, y, z, w];
  }

  // The digit that makes the parity of a word odd, by folding the word one digit at a time.
  method OddParityOf(x: int) returns (p: int)
    requires 0 <= x < 0x8000000
    ensures p == OddParity(x)
  {
    var a := x;
    Pow2Values();
    for i := 0 to 27
      invariant 0 <= a && (Odd(a) <==> Odd(x)) && (i < 27 ==> a < Pow2(27 - i)) && (i == 27 ==> a < 2)
    {
      FoldDigit(a, 27 - i);
      a := Xor(a % 2, a / 2);
    }
    assert Odd(a) <==> a == 1;
    p := if a == 0 then 1 else 0;
  }

  lemma FoldDigit(a: nat, n: nat)
    requires 1 <= n && a < Pow2(n)
    ensures var b := Xor(a % 2, a / 2);
            (Odd(b) <==> Odd(a)) && (n > 1 ==> b < Pow2(n - 1)) && (n == 1 ==> b < 2)
  {
    XorParity(a % 2, a / 2);
    HalfParity(a);
    assert Odd(a % 2) <==> a % 2 == 1;
    if n > 1 {
      assert Pow2(n - 1) >= 2 by { assert Pow2(n - 1) == 2 * Pow2(n - 2); }
      XorBound(a % 2, a / 2, n - 1);
    } else {
      assert Pow2(1) == 2;
      XorBound(a % 2, a / 2, 1);
    }
  }

  class Punch {
    var store: seq<nat>
    var bitstock: int
    var bitcount: int
    ghost var words: seq<int>
    ghost var stream: seq<bit>

    ghost predicate Valid()
      reads this
    {
      && 0 <= bitcount <= 27 && 0 <= bitstock < Pow2(bitcount)
      && AllWords(words) && stream == BitsOf(bitstock, bitcount) + WordBits(words)
      && Reversed(store) == TapeOf(words)
    }

    // The terminator is punched last, so it comes first.
    constructor ()
      ensures Valid() && stream == BitsOf(TERMINATOR, 27)
    {
      store, bitstock, bitcount := [0, 0, 0, 127], 0, 0;
      words, stream := [TERMINATOR], BitsOf(TERMINATOR, 27);
      new;
      TerminatorOnTape();
    }

    static lemma TerminatorOnTape()
      ensures Reversed([0, 0, 0, 127]) == TapeOf([TERMINATOR])
      ensures BitsOf(0, 0) + WordBits([TERMINATOR]) == BitsOf(TERMINATOR, 27)
    {
      hide Odd, BitsOf;
      ReversedWord([], 0, 0, 0, 127);
      assert [] + [0, 0, 0, 127] == [0, 0, 0, 127];
      TerminatorParity();
      assert TapeWord(TERMINATOR) == [127, 0, 0, 0];
      assert [TERMINATOR][..0] == [];
    }

    static lemma TerminatorParity()
      ensures !Odd(TERMINATOR)
    {
      Pow2Values();
      ShlValues(63);
      SplitParity(63, 0, 21);
      assert !Odd(63) && !Odd(0);
    }

    // A full word becomes four heptades.
    method PushWord(x: int)
      requires 0 <= x < 0x8000000 && AllWords(words) && Reversed(store) == TapeOf(words)
      modifies this`store, this`words
      ensures words == old(words) + [x] && Reversed(store) == TapeOf(words)
    {
      hide Reversed, Odd;
      var p := OddParityOf(x);
      ReversedWord(store, x % 128, x / 128 % 128, x / 16384 % 128, x / 0x200000 * 2 + p);
      store := store + [x % 128, x / 128 % 128, x / 16384 % 128, x / 0x200000 * 2 + p];
      assert TapeWord(x) == [x / 0x200000 * 2 + p, x / 16384 % 128, x / 128 % 128, x % 128];
      words := words + [x];
      assert words[..|words| - 1] == old(words);
    }

    // Appends one code to the stream.
    method BitStringMaker(c: int)
      requires Valid() && 0 <= c && IsCode(c)
      modifies this
      ensures Valid() && stream == CodeBits(c) + old(stream)
      ensures bitcount == old(bitcount) + c / 1024
              || (bitcount == old(bitcount) + c / 1024 - 27 && (c % 1024 == 0 ==> bitstock == 0))
    {
      hide WordBits, BitsOf, Pow2, Shifted, Reversed, TapeOf;
      var head, tail := Compiler.ShiftLeft(c % 1024, bitcount);
      var low, count := bitstock + tail, bitcount + c / 1024;
      ghost var digits, after := BitsOf(bitstock, bitcount), CodeBits(c) + stream;
      if c % 1024 == 0 {
        NothingShifted(bitcount);
      }
      if count <= 27 {
        StockFits(c % 1024, c / 1024, bitstock, bitcount);
        Regroup(CodeBits(c), digits, WordBits(words));
        bitstock, bitcount, stream := low, count, after;
        return;
      }
      StockSpills(c % 1024, c / 1024, bitstock, bitcount);
      WordFilled(words, CodeBits(c), digits, BitsOf(head, count - 27), low);
      PushWord(low);
      bitstock, bitcount, stream := head, count - 27, after;
    }

    static lemma {:induction false} NothingShifted(i: nat)
      ensures Shifted(0, i) == (0, 0)
      decreases i
    {
      if i > 0 {
        NothingShifted(i - 1);
      }
    }

    method AddressCoder(a: int)
      requires Valid() && 0 <= a
      modifies this
      ensures Valid() && stream == AddressBits(a) + old(stream)
    {
      hide WordBits, BitsOf, Pow2, Reversed, TapeOf, CodeBits;
      var low, middle, high := a % 32, a / 32 % 32, a / 1024 % 32;
      BitStringMaker(LowCode(low));
      BitStringMaker(MiddleCode(middle));
      BitStringMaker(HighCode(high));
      ConcatRight(CodeBits(HighCode(high)), CodeBits(MiddleCode(middle)), CodeBits(LowCode(low)), old(stream));
    }

    // Appends one instruction.
    method FillResultList(opc: int, w: int)
      requires Valid() && Emittable(Instr(opc, w))
      modifies this
      ensures Valid() && stream == InstrBits(Instr(opc, w)) + old(stream)
    {
      hide WordBits, BitsOf, Pow2, Reversed, TapeOf, CodeBits, MaskCode, AddressBits, OpCode;
      ghost var escape, address: seq<bit> := [], [];
      var c;
      if opc < 8 {
        AddressCoder(w);
        address := AddressBits(w);
        c := MaskCode(w / 32768 * 32768 + opc);
        MaskInverts(w / 32768, opc);
        if c == ESCAPE {
          AddressCoder(w / 32768 + opc * 4096);
          escape := AddressBits(w / 32768 + opc * 4096);
        }
      } else {
        c := OpCode(opc);
        OpCodeShape(opc);
      }
      CodeShapes(c);
      BitStringMaker(c);
      ConcatRight(CodeBits(c), escape, address, old(stream));
      InstrBitsParts(Instr(opc, w), c, escape, address);
    }

    // Appends 13 digits of a number, the lowest first.
    method PunchNumber(x: int)
      requires Valid() && 0 <= x
      modifies this
      ensures Valid() && stream == BitsOf(x, 13) + old(stream)
    {
      hide WordBits, BitsOf, Pow2, Reversed, TapeOf;
      NumberStart(x);
      for i := 0 to 13
        invariant Valid() && stream == BitsOf(x, i) + old(stream)
      {
        NumberDigit(x, i);
        BitStringMaker(1024 + Shr(x, i) % 2);
        Regroup([Shr(x, i) % 2], BitsOf(x, i), old(stream));
      }
    }

    // Fills up the last word with zeros; whatever is left in stock then is zero too.
    method Pad() returns (ghost zeros: nat)
      requires Valid() && stream != [] && stream[0] == 1
      modifies this
      ensures Valid() && bitstock == 0 && WordBits(words) == Zeros(zeros) + old(stream)
    {
      hide WordBits, BitsOf, Pow2, Reversed, TapeOf;
      zeros := 0;
      while bitstock != 0
        invariant Valid() && stream == Zeros(zeros) + old(stream)
        decreases bitstock != 0, 27 - bitcount
      {
        ZeroDigit();
        BitStringMaker(1024);
        zeros := zeros + 1;
        Regroup([0], Zeros(zeros - 1), old(stream));
      }
      ZeroBits(bitcount);
      LeadingZeros(bitcount, WordBits(words), zeros, old(stream));
      zeros := zeros - bitcount;
    }
  }

  lemma LeadingZeros(b: nat, w: seq<bit>, n: nat, s: seq<bit>)
    requires Zeros(b) + w == Zeros(n) + s && s != [] && s[0] == 1
    ensures b <= n && w == Zeros(n - b) + s
  {
    AllZeros(b);
    AllZeros(n);
    AllZeros(n - b);
    assert (Zeros(n) + s)[n] == 1;
    assert w == (Zeros(b) + w)[b..] == (Zeros(n) + s)[b..];
  }

  lemma {:induction false} AllZeros(n: int)
    ensures n >= 0 ==> forall i :: 0 <= i < n ==> Zeros(n)[i] == 0
    decreases n
  {
    if n > 0 {
      AllZeros(n - 1);
    }
  }

  // x moved n places to the right.
  function Shr(x: nat, n: nat): nat
    decreases n
  {
    if n == 0 then x else Shr(x / 2, n - 1)
  }

  lemma {:induction false} BitsOfHead(x: nat, i: nat)
    ensures BitsOf(x, i + 1) == [Shr(x, i) % 2] + BitsOf(x, i)
    decreases i
  {
    if i == 0 {
      assert BitsOf(x / 2, 0) == [] && BitsOf(x, 0) == [];
    } else {
      BitsOfHead(x / 2, i - 1);
      Regroup([Shr(x, i) % 2], BitsOf(x / 2, i - 1), [x % 2]);
    }
  }

  lemma NumberStart(x: nat)
    ensures BitsOf(x, 0) == []
  {
  }

  lemma NumberDigit(x: nat, i: nat)
    ensures var c := 1024 + Shr(x, i) % 2;
            IsCode(c) && CodeBits(c) == [Shr(x, i) % 2] && BitsOf(x, i + 1) == [Shr(x, i) % 2] + BitsOf(x, i)
  {
    BitsOfHead(x, i);
    var b := Shr(x, i) % 2;
    assert BitsOf(b / 2, 0) == [];
    assert BitsOf(b, 1) == [b];
    assert Pow2(1) == 2;
  }

  lemma ZeroDigit()
    ensures IsCode(1024) && CodeBits(1024) == [0]
  {
    assert BitsOf(0, 0) == [];
    assert Pow2(1) == 2;
  }

  lemma {:induction false} ZeroBits(n: nat)
    ensures BitsOf(0, n) == Zeros(n)
    decreases n
  {
    if n > 0 {
      ZeroBits(n - 1);
      ZerosEnd(n - 1);
    }
  }

  lemma {:induction false} ZerosEnd(n: nat)
    ensures Zeros(n) + [0] == [0] + Zeros(n)
    decreases n
  {
    if n > 0 {
      ZerosEnd(n - 1);
      Regroup([0], Zeros(n - 1), [0]);
    }
  }

  // What the tape of routine num with instructions q holds behind its header.
  ghost predicate RoutineWords(ws: seq<int>, num: nat, q: seq<Instr>)
    requires AllWords(ws) && AllEmittable(q)
  {
    exists z :: WordBits(ws) == Zeros(z) + RoutineBits(num, q)
  }

  function RoutineBits(num: nat, q: seq<Instr>): seq<bit>
    requires AllEmittable(q)
  {
    [1] + (BitsOf(|q|, 13) + (BitsOf(num, 13) + (ProgramBits(q) + BitsOf(TERMINATOR, 27))))
  }

  // Codes a routine and punches it: the header first, then the heptades from the last to the first.
  method PunchRoutine(num: nat, q: seq<Instr>) returns (tape: seq<nat>, ghost ws: seq<int>)
    requires AllEmittable(q)
    ensures AllWords(ws) && RoutineWords(ws, num, q) && tape == [HEADER] + TapeOf(ws)
  {
    hide WordBits, BitsOf, Pow2, TapeOf, ProgramBits, InstrBits;
    var punch := new Punch();
    NothingPunched(q);
    for len := 0 to |q|
      invariant fresh(punch) && punch.Valid() && AllEmittable(q[..len])
      invariant punch.stream == ProgramBits(q[..len]) + BitsOf(TERMINATOR, 27)
    {
      punch.FillResultList(q[len].opc, q[len].w);
      OneMorePunched(q, len);
    }
    assert q[..|q|] == q;
    punch.PunchNumber(num);
    punch.PunchNumber(|q|);
    MarkerDigit();
    punch.BitStringMaker(1025);
    ghost var z := punch.Pad();
    tape := [HEADER] + Reversed(punch.store);
    ws := punch.words;
  }

  lemma NothingPunched(q: seq<Instr>)
    ensures ProgramBits([]) + BitsOf(TERMINATOR, 27) == BitsOf(TERMINATOR, 27) && q[..0] == []
  {
    hide BitsOf;
  }

  lemma OneMorePunched(q: seq<Instr>, len: nat)
    requires AllEmittable(q) && len < |q|
    ensures AllEmittable(q[..len]) && AllEmittable(q[..len + 1])
    ensures InstrBits(q[len]) + (ProgramBits(q[..len]) + BitsOf(TERMINATOR, 27))
            == ProgramBits(q[..len + 1]) + BitsOf(TERMINATOR, 27)
  {
    hide InstrBits, BitsOf;
    assert q[..len + 1][..len] == q[..len];
    Regroup(InstrBits(q[len]), ProgramBits(q[..len]), BitsOf(TERMINATOR, 27));
  }

  lemma MarkerDigit()
    ensures IsCode(1025) && CodeBits(1025) == [1]
  {
    assert BitsOf(0, 0) == [];
    assert Pow2(1) == 2;
  }
}
