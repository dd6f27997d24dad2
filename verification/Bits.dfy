/**
 Binary digits, most significant first.  The object code is a stream of digits that is written
 at one end and read back from the same end, so a stream is a sequence of digits in reading order.
 */
module Bits {
  type bit = b: nat | b < 2

  // x moved n places to the left.
  function Shl(x: nat, n: nat): nat
    decreases n
  {
    if n == 0 then x else 2 * Shl(x, n - 1)
  }

  function Pow2(n: nat): (p: nat)
    ensures p >= 1
  {
    if n == 0 then 1 else 2 * Pow2(n - 1)
  }

  // The lowest n binary digits of x.
  function BitsOf(x: nat, n: nat): (s: seq<bit>)
    ensures |s| == n
  {
    if n == 0 then [] else BitsOf(x / 2, n - 1) + [x % 2]
  }

  // The first n digits of s as a number; digits beyond the end of s read as zero.
  function Window(s: seq<bit>, n: nat): (w: nat)
    ensures w < Pow2(n)
  {
    if n == 0 || s == [] then 0 else (if s[0] == 1 then Pow2(n - 1) else 0) + Window(s[1..], n - 1)
  }

  function Zeros(n: nat): (s: seq<bit>)
    ensures |s| == n
  {
    if n == 0 then [] else [0] + Zeros(n - 1)
  }

  lemma ShlStart(x: nat)
    ensures Shl(x, 0) == x
  {
  }

  lemma ShlStep(x: nat, n: nat)
    ensures Shl(x, n + 1) == 2 * Shl(x, n)
  {
  }

  lemma Pow2Step(n: nat)
    ensures Pow2(n + 1) == 2 * Pow2(n)
  {
  }

  lemma {:induction false} Pow2Monotone(m: nat, n: nat)
    requires m <= n
    ensures Pow2(m) <= Pow2(n)
    decreases n
  {
    if m < n {
      Pow2Monotone(m, n - 1);
    }
  }

  lemma {:induction false} ShlPow2(m: nat, n: nat)
    ensures Shl(Pow2(m), n) == Pow2(m + n)
    decreases n
  {
    if n > 0 {
      ShlPow2(m, n - 1);
    }
  }

  lemma {:induction false} ShlSum(x: nat, y: nat, n: nat)
    ensures Shl(x + y, n) == Shl(x, n) + Shl(y, n)
    decreases n
  {
    if n > 0 {
      ShlSum(x, y, n - 1);
    }
  }

  lemma {:induction false} ShlBelow(x: nat, y: nat, n: nat)
    requires x < y
    ensures Shl(x, n) + Pow2(n) <= Shl(y, n)
    decreases n
  {
    if n > 0 {
      ShlBelow(x, y, n - 1);
    }
  }

  lemma {:induction false} ShlAgain(x: nat, m: nat, n: nat)
    ensures Shl(Shl(x, m), n) == Shl(x, m + n)
    decreases n
  {
    if n > 0 {
      ShlAgain(x, m, n - 1);
    }
  }

  lemma Pow2Values()
    ensures Pow2(1) == 2 && Pow2(2) == 4 && Pow2(3) == 8 && Pow2(4) == 16 && Pow2(5) == 32
    ensures Pow2(6) == 64 && Pow2(7) == 128 && Pow2(10) == 1024 && Pow2(13) == 8192 && Pow2(17) == 0x20000
    ensures Pow2(20) == 0x100000 && Pow2(21) == 0x200000 && Pow2(22) == 0x400000 && Pow2(23) == 0x800000
    ensures Pow2(24) == 0x1000000 && Pow2(25) == 0x2000000 && Pow2(26) == 0x4000000 && Pow2(27) == 0x8000000
  {
  }

  lemma ShlValues(x: nat)
    ensures Shl(x, 1) == 2 * x && Shl(x, 2) == 4 * x && Shl(x, 3) == 8 * x && Shl(x, 4) == 16 * x
    ensures Shl(x, 6) == 64 * x && Shl(x, 7) == 128 * x && Shl(x, 17) == 0x20000 * x && Shl(x, 20) == 0x100000 * x
    ensures Shl(x, 21) == 0x200000 * x && Shl(x, 22) == 0x400000 * x && Shl(x, 23) == 0x800000 * x
    ensures Shl(x, 24) == 0x1000000 * x && Shl(x, 25) == 0x2000000 * x && Shl(x, 26) == 0x4000000 * x
    ensures Shl(x, 27) == 0x8000000 * x
  {
  }

  // Two digit groups side by side are the digits of one number.
  lemma {:induction false} BitsOfConcat(x: nat, n: nat, y: nat, m: nat)
    requires y < Pow2(m)
    ensures BitsOf(Shl(x, m) + y, n + m) == BitsOf(x, n) + BitsOf(y, m)
    decreases m
  {
    if m > 0 {
      BitsOfConcat(x, n, y / 2, m - 1);
      assert (Shl(x, m) + y) / 2 == Shl(x, m - 1) + y / 2;
      Regroup(BitsOf(x, n), BitsOf(y / 2, m - 1), [y % 2]);
    }
  }

  lemma Regroup(a: seq<bit>, b: seq<bit>, c: seq<bit>)
    ensures (a + b) + c == a + (b + c)
  {
  }

  lemma ConcatRight(a: seq<bit>, b: seq<bit>, c: seq<bit>, d: seq<bit>)
    ensures a + b + c + d == a + (b + (c + d))
  {
  }

  lemma {:induction false} WindowConcat(s: seq<bit>, t: seq<bit>, n: nat)
    requires |s| <= n
    ensures Window(s + t, n) == Window(s, n) + Window(t, n - |s|)
    decreases s
  {
    if s == [] {
      assert s + t == t;
    } else {
      assert (s + t)[1..] == s[1..] + t;
      WindowConcat(s[1..], t, n - 1);
    }
  }

  // The digits of c at the head of a window.
  lemma {:induction false} WindowOfCode(c: nat, m: nat, t: seq<bit>, n: nat)
    requires c < Pow2(m) && m <= n
    ensures Window(BitsOf(c, m) + t, n) == Shl(c, n - m) + Window(t, n - m)
    decreases m
  {
    if m == 0 {
      assert BitsOf(c, m) + t == t;
      ShlZero(n);
    } else {
      var u: seq<bit> := [c % 2] + t;
      WindowOfCode(c / 2, m - 1, u, n);
      Regroup(BitsOf(c / 2, m - 1), [c % 2], t);
      assert Window(u, n - m + 1) == (if c % 2 == 1 then Pow2(n - m) else 0) + Window(t, n - m) by {
        assert u[1..] == t;
      }
      ShlHalf(c, n - m);
    }
  }

  lemma {:induction false} ShlZero(n: nat)
    ensures Shl(0, n) == 0
    decreases n
  {
    if n > 0 {
      ShlZero(n - 1);
    }
  }

  lemma {:induction false} ShlHalf(c: nat, n: nat)
    ensures Shl(c / 2, n + 1) + (if c % 2 == 1 then Pow2(n) else 0) == Shl(c, n)
    decreases n
  {
    if n > 0 {
      ShlHalf(c, n - 1);
    }
  }

  // One step to the left: the first digit leaves the window and the next one enters at the right.
  lemma WindowShift(s: seq<bit>, n: nat)
    requires 0 < |s| <= n
    ensures Window(s, n) == (if s[0] == 1 then Pow2(n - 1) else 0) + Window(s[1..], n - 1)
    ensures Window(s[1..], n) == 2 * Window(s[1..], n - 1)
  {
    WindowDouble(s[1..], n - 1);
  }

  lemma {:induction false} WindowDouble(s: seq<bit>, n: nat)
    requires |s| <= n
    ensures Window(s, n + 1) == 2 * Window(s, n)
    decreases s
  {
    if s != [] {
      WindowDouble(s[1..], n - 1);
    }
  }

  lemma {:induction false} WindowPadded(s: seq<bit>, m: nat, n: nat)
    requires |s| <= m
    ensures Window(s, m + n) == Shl(Window(s, m), n)
    decreases n
  {
    if n > 0 {
      WindowPadded(s, m, n - 1);
      WindowDouble(s, m + n - 1);
    }
  }
}
