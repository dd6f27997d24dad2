/**
 How the loader keeps digits in stock: the stock is a 27-digit window on the stream, refilled in
 chunks of 6, 7, 7 and 7 digits.
 */
module DigitSupply {
  import opened Bits

  // A chunk w of n digits goes behind the k digits in stock.
  lemma StockGrows(s: seq<bit>, k: nat, w: nat, n: nat, t: seq<bit>)
    requires k + n <= 27 && w < Pow2(n) && k <= |s| && s[k..] == BitsOf(w, n) + t
    ensures k + n <= |s| && s[k + n..] == t
    ensures Window(s[..k + n], 27) == Window(s[..k], 27) + Shl(w, 27 - k - n)
  {
    hide Window, BitsOf, Pow2, Shl;
    var c := BitsOf(w, n);
    assert s[..k + n] == s[..k] + c;
    WindowConcat(s[..k], c, 27);
    assert c + [] == c;
    WindowOfCode(w, n, [], 27 - k);
    WindowEmpty(27 - k - n);
  }

  lemma WindowEmpty(n: nat)
    ensures Window([], n) == 0
  {
  }

  // A word is a group of six digits and three of seven.
  function TopSix(x: nat): nat {
    x / 0x200000
  }

  function Sevens(x: nat): (g: seq<nat>)
    ensures Heptades(g)
  {
    [x / 16384 % 128, x / 128 % 128, x % 128]
  }

  predicate Heptades(g: seq<nat>) {
    forall i :: 0 <= i < |g| ==> g[i] < 128
  }

  function HeptadeBits(g: seq<nat>): (s: seq<bit>)
    ensures |s| == 7 * |g|
  {
    if g == [] then [] else BitsOf(g[0], 7) + HeptadeBits(g[1..])
  }

  lemma QuotientIs(x: nat, q: nat, r: nat, m: nat)
    requires m in {2, 128, 16384, 0x200000} && x == q * m + r && r < m
    ensures x / m == q && x % m == r
  {
  }

  // x written with its four groups.
  lemma FourGroups(x: nat) returns (a: nat, b: nat, c: nat, d: nat)
    requires x < 0x8000000
    ensures a < 64 && b < 128 && c < 128 && d < 128
    ensures x == a * 0x200000 + b * 16384 + c * 128 + d
    ensures TopSix(x) == a && Sevens(x) == [b, c, d] && x % 0x200000 == b * 16384 + c * 128 + d
  {
    d := x % 128;
    var u := x / 128;
    c := u % 128;
    var v := u / 128;
    b := v % 128;
    a := v / 128;
    QuotientIs(x, v, c * 128 + d, 16384);
    QuotientIs(x, a, b * 16384 + c * 128 + d, 0x200000);
  }

  lemma WordInGroups(x: nat)
    requires x < 0x8000000
    ensures TopSix(x) < 64 && BitsOf(x, 27) == BitsOf(TopSix(x), 6) + HeptadeBits(Sevens(x))
    ensures Window(HeptadeBits(Sevens(x)), 27) == x % 0x200000 * 64
  {
    hide BitsOf, Shl, Window;
    var a, b, c, d := FourGroups(x);
    var y := b * 16384 + c * 128 + d;
    SevensBits(b, c, d);
    Pow2Values();
    ShlValues(a);
    ShlValues(y);
    BitsOfConcat(a, 6, y, 21);
    WindowOfCode(y, 21, [], 27);
    WindowEmpty(6);
    assert BitsOf(y, 21) + [] == BitsOf(y, 21);
  }

  lemma SevensBits(b: nat, c: nat, d: nat)
    requires b < 128 && c < 128 && d < 128
    ensures BitsOf(b * 16384 + c * 128 + d, 21) == HeptadeBits([b, c, d])
  {
    Pow2Values();
    assert Pow2(14) == 16384 && Shl(b, 14) == 16384 * b;
    hide BitsOf, Shl, Pow2;
    ShlValues(c);
    BitsOfConcat(c, 7, d, 7);
    BitsOfConcat(b, 7, c * 128 + d, 14);
    assert [b, c, d][1..] == [c, d] && [c, d][1..] == [d] && [d][1..] == [];
    assert HeptadeBits([d]) == BitsOf(d, 7) + [] == BitsOf(d, 7);
  }

  // The next heptade at the head of what is left of a word.
  lemma HeptadeInStock(h: nat, t: seq<bit>)
    requires h < 128 && |t| <= 14
    ensures var stock := Window(BitsOf(h, 7) + t, 27);
            stock / 0x100000 == h && stock % 0x100000 * 128 == Window(t, 27)
  {
    hide BitsOf, Shl, Window, Pow2;
    Pow2Values();
    WindowOfCode(h, 7, t, 27);
    ShlValues(h);
    WindowPadded(t, 20, 7);
    ShlValues(Window(t, 20));
  }

  // Taking digits from the stock one at a time.
  lemma FirstDigit(s: seq<bit>)
    requires 0 < |s| <= 27
    ensures Window(s, 27) / 0x4000000 == s[0] && Window(s, 27) % 0x4000000 * 2 == Window(s[1..], 27)
  {
    Pow2Values();
    WindowShift(s, 27);
    hide Window;
    assert Window(s[1..], 26) < 0x4000000;
  }

  lemma DigitAppended(w: nat, i: nat, d: bit)
    requires w < Pow2(i)
    ensures w * 2 + d < Pow2(i + 1) && BitsOf(w * 2 + d, i + 1) == BitsOf(w, i) + [d]
  {
  }

  lemma {:induction false} BitsOfInjective(a: nat, b: nat, n: nat)
    requires a < Pow2(n) && b < Pow2(n) && BitsOf(a, n) == BitsOf(b, n)
    ensures a == b
    decreases n
  {
    if n > 0 {
      var s, t := BitsOf(a, n), BitsOf(b, n);
      assert s[n - 1] == a % 2 && t[n - 1] == b % 2;
      assert BitsOf(a / 2, n - 1) == s[..n - 1] == t[..n - 1] == BitsOf(b / 2, n - 1);
      BitsOfInjective(a / 2, b / 2, n - 1);
    }
  }
}
