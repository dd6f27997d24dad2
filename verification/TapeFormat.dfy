/**
 A word on the library tape: four heptades of seven digits, of which the first holds six digits of
 the word and one that makes the number of ones in the group odd.
 */
module TapeFormat {
  import opened Bits
  import opened Parity
  import opened WordStore
  import opened DigitSupply

  // The digit that makes the number of ones odd.
  function OddParity(x: nat): (p: nat) {
    if Odd(x) then 0 else 1
  }

  function TapeWord(x: nat): (g: seq<nat>) {
    [TopSix(x) * 2 + OddParity(x)] + Sevens(x)
  }

  // Words in reading order, the last one first.
  function TapeOf(ws: seq<int>): seq<nat>
    requires AllWords(ws)
  {
    if ws == [] then [] else TapeWord(ws[|ws| - 1]) + TapeOf(ws[..|ws| - 1])
  }

  // The first heptade carries the six top digits; the four together have an odd number of ones.
  lemma TapeWordSplits(x: nat)
    requires x < 0x8000000
    ensures var h := TapeWord(x)[0];
            h < 128 && h / 2 == TopSix(x) && Odd(h) != GroupOdd(Sevens(x))
    ensures TapeWord(x)[1..] == Sevens(x)
  {
    hide Odd, GroupOdd;
    var a, b, c, d := FourGroups(x);
    WordParities(a, b, c, d);
    HalfParity(a * 2 + OddParity(x));
  }

  lemma WordParities(a: nat, b: nat, c: nat, d: nat)
    requires a < 64 && b < 128 && c < 128 && d < 128
    ensures Odd(a * 0x200000 + b * 16384 + c * 128 + d) == (Odd(a) != GroupOdd([b, c, d]))
  {
    hide Odd, GroupOdd, Shl, Pow2;
    ThreeParities(b, c, d);
    Pow2Values();
    ShlValues(a);
    ShlValues(c);
    FourteenPlaces(b);
    SplitParity(c, d, 7);
    SplitParity(b, c * 128 + d, 14);
    SplitParity(a, b * 16384 + c * 128 + d, 21);
  }

  lemma FourteenPlaces(b: nat)
    ensures Pow2(14) == 16384 && Shl(b, 14) == 16384 * b
  {
  }

  lemma ThreeParities(b: nat, c: nat, d: nat)
    ensures GroupOdd([b, c, d]) == (Odd(b) != (Odd(c) != Odd(d)))
  {
    hide Odd;
    assert [d][1..] == [] && GroupOdd([d]) == Odd(d);
    assert [c, d][1..] == [d] && GroupOdd([c, d]) == (Odd(c) != Odd(d));
    assert [b, c, d][1..] == [c, d];
  }

  // ----- damage on the tape -----

  // A group in which the ones of f mark the digits that were read wrongly.
  function Damaged(g: seq<nat>, f: seq<nat>): (d: seq<nat>)
    requires |g| == |f|
    ensures |d| == |g|
  {
    if g == [] then [] else [Xor(g[0], f[0])] + Damaged(g[1..], f[1..])
  }

  lemma {:induction false} DamagedParity(g: seq<nat>, f: seq<nat>)
    requires |g| == |f|
    ensures GroupOdd(Damaged(g, f)) == (GroupOdd(g) != GroupOdd(f))
    decreases g
  {
    if g != [] {
      XorParity(g[0], f[0]);
      DamagedParity(g[1..], f[1..]);
      assert Damaged(g, f)[1..] == Damaged(g[1..], f[1..]);
    }
  }

  lemma {:induction false} SumParity(g: seq<nat>)
    ensures Odd(GroupSum(g)) == GroupOdd(g)
    decreases g
  {
    if g != [] {
      SumParity(g[..|g| - 1]);
      XorParity(GroupSum(g[..|g| - 1]), g[|g| - 1]);
      ParityAppend(g[..|g| - 1], g[|g| - 1]);
      assert g[..|g| - 1] + [g[|g| - 1]] == g;
    }
  }

  lemma {:induction false} ParityAppend(g: seq<nat>, h: nat)
    ensures GroupOdd(g + [h]) == (GroupOdd(g) != Odd(h))
    decreases g
  {
    if g == [] {
      assert g + [h] == [h];
    } else {
      ParityAppend(g[1..], h);
      assert (g + [h])[1..] == g[1..] + [h];
    }
  }

  lemma {:induction false} SumBound(g: seq<nat>)
    requires Heptades(g)
    ensures GroupSum(g) < 128
    decreases g
  {
    if g != [] {
      SumBound(g[..|g| - 1]);
      assert Pow2(7) == 128;
      XorBound(GroupSum(g[..|g| - 1]), g[|g| - 1], 7);
    }
  }

  lemma WordParity(x: nat)
    requires x < 0x8000000
    ensures GroupOdd(TapeWord(x)) && Heptades(TapeWord(x))
  {
    TapeWordSplits(x);
  }

  // The loader rejects a group, when the next one starts, exactly if an odd number of its digits
  // was read wrongly.
  lemma DamageDetected(x: nat, f: seq<nat>)
    requires x < 0x8000000 && |f| == 4 && Heptades(f)
    ensures var sum := GroupSum(Damaged(TapeWord(x), f));
            EvenOfFour(Xor(sum, sum / 16) % 16) <==> GroupOdd(f)
  {
    hide GroupSum, GroupOdd, Odd, Xor;
    var d := Damaged(TapeWord(x), f);
    WordParity(x);
    DamagedHeptades(TapeWord(x), f);
    SumBound(d);
    FoldedTest(GroupSum(d));
    SumParity(d);
    DamagedParity(TapeWord(x), f);
  }

  lemma {:induction false} DamagedHeptades(g: seq<nat>, f: seq<nat>)
    requires |g| == |f| && Heptades(g) && Heptades(f)
    ensures Heptades(Damaged(g, f))
    decreases g
  {
    if g != [] {
      assert Pow2(7) == 128;
      XorBound(g[0], f[0], 7);
      DamagedHeptades(g[1..], f[1..]);
    }
  }
}
