/**
 Parity of binary numbers, and the parity test the loader makes on a group of four heptades.
 */
module Parity {
  import opened Bits

  // x has an odd number of ones.
  predicate Odd(x: nat) {
    x != 0 && (x % 2 == 1) != Odd(x / 2)
  }

  // Digit by digit sum without carry.
  function Xor(x: nat, y: nat): nat {
    if x == 0 && y == 0 then 0 else (x % 2 + y % 2) % 2 + 2 * Xor(x / 2, y / 2)
  }

  lemma {:induction false} XorParity(x: nat, y: nat)
    ensures Odd(Xor(x, y)) == (Odd(x) != Odd(y))
    decreases x + y
  {
    if x != 0 || y != 0 {
      hide Xor, Odd;
      XorParity(x / 2, y / 2);
      HalfParity(x);
      HalfParity(y);
      HalfParity(Xor(x, y));
      HalfXor(x, y);
    }
  }

  lemma HalfParity(x: nat)
    ensures Odd(x) == ((x % 2 == 1) != Odd(x / 2))
  {
  }

  lemma HalfXor(x: nat, y: nat)
    ensures Xor(x, y) % 2 == (x % 2 + y % 2) % 2 && Xor(x, y) / 2 == Xor(x / 2, y / 2)
  {
  }

  lemma {:induction false} XorBound(x: nat, y: nat, n: nat)
    requires x < Pow2(n) && y < Pow2(n)
    ensures Xor(x, y) < Pow2(n)
    decreases n
  {
    if n > 0 {
      XorBound(x / 2, y / 2, n - 1);
    }
  }

  lemma {:induction false} SplitParity(h: nat, l: nat, n: nat)
    requires l < Pow2(n)
    ensures Odd(Shl(h, n) + l) == (Odd(h) != Odd(l))
    decreases n
  {
    if n > 0 {
      assert (Shl(h, n) + l) / 2 == Shl(h, n - 1) + l / 2 && (Shl(h, n) + l) % 2 == l % 2;
      hide Odd;
      SplitParity(h, l / 2, n - 1);
      HalfParity(Shl(h, n) + l);
      HalfParity(l);
    }
  }

  // The lowest n digits of a sum are the sum of the lowest n digits.
  lemma {:induction false} XorLow(h: nat, l: nat, y: nat, n: nat) returns (high: nat)
    requires l < Pow2(n) && y < Pow2(n)
    ensures Xor(Shl(h, n) + l, y) == Shl(high, n) + Xor(l, y)
    decreases n
  {
    if n == 0 {
      high := Xor(h, 0);
    } else {
      high := XorLow(h, l / 2, y / 2, n - 1);
      assert (Shl(h, n) + l) / 2 == Shl(h, n - 1) + l / 2;
      HalfXor(Shl(h, n) + l, y);
      HalfXor(l, y);
    }
  }

  // The bits of 0x9669: the four-digit numbers with an even number of ones.
  predicate EvenOfFour(p: nat) {
    p in {0, 3, 5, 6, 9, 10, 12, 15}
  }

  // The test folds seven digits into four and looks them up: it fails exactly on even parity.
  lemma FoldedTest(w: nat)
    requires w < 128
    ensures EvenOfFour(Xor(w, w / 16) % 16) <==> !Odd(w)
  {
    hide Xor, Odd, Shl, Pow2;
    var h, l := w / 16, w % 16;
    Pow2Values();
    ShlValues(h);
    var high := XorLow(h, l, h, 4);
    ShlValues(high);
    XorBound(l, h, 4);
    XorParity(l, h);
    SplitParity(h, l, 4);
    FourDigits(Xor(l, h));
  }

  lemma FourDigits(p: nat)
    requires p < 16
    ensures EvenOfFour(p) <==> !Odd(p)
  {
    FourDigitTable();
  }

  lemma FourDigitTable()
    ensures forall p :: 0 <= p < 16 ==> (EvenOfFour(p) <==> !Odd(p))
  {
    assert !Odd(0) && !Odd(3) && !Odd(5) && !Odd(6) && !Odd(9) && !Odd(10) && !Odd(12) && !Odd(15);
    assert Odd(1) && Odd(2) && Odd(4) && Odd(7) && Odd(8) && Odd(11) && Odd(13) && Odd(14);
  }

  // The heptades of a group together have an odd number of ones.
  predicate GroupOdd(g: seq<nat>) {
    g != [] && Odd(g[0]) != GroupOdd(g[1..])
  }

  // What the loader adds up while it reads a group.
  function GroupSum(g: seq<nat>): nat {
    if g == [] then 0 else Xor(GroupSum(g[..|g| - 1]), g[|g| - 1])
  }
}
