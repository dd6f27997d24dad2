/**
 Shifting a code into its place in front of the digits already in stock, and cutting off a full
 27-digit word when the stock overflows.
 */
module Shifting {
  import opened Bits

  // v moved one place at a time to the left, as a head and a 27-digit tail.
  function Shifted(v: nat, places: nat): (nat, nat) {
    if places == 0 then (0, v)
    else
      var (head, tail) := Shifted(v, places - 1);
      (head * 2 + tail / 0x4000000, tail % 0x4000000 * 2)
  }

  lemma {:induction false} ShiftedValue(v: nat, i: nat)
    requires v < 0x8000000
    ensures var (head, tail) := Shifted(v, i); head * 0x8000000 + tail == Shl(v, i) && tail < 0x8000000
    decreases i
  {
    if i > 0 {
      ShiftedValue(v, i - 1);
    }
  }

  // The low digits of the tail are zero.
  lemma {:induction false} ShiftedTail(v: nat, i: nat) returns (q: nat)
    requires v < 0x8000000 && i <= 27
    ensures q < Pow2(27 - i) && Shifted(v, i).1 == Shl(q, i)
    decreases i
  {
    hide Shl, Pow2;
    Pow2Values();
    if i == 0 {
      q := v;
      ShlStart(v);
    } else {
      q := ShiftedTail(v, i - 1);
      var half := Pow2(27 - i);
      Pow2Step(27 - i);
      ShlPow2(27 - i, i - 1);
      if q >= half {
        ShlSum(half, q - half, i - 1);
        q := q - half;
      }
      ShlBelow(q, half, i - 1);
      ShlStep(q, i - 1);
    }
  }

  lemma WordMultiple(k: nat)
    ensures Pow2(27 + k) == 0x8000000 * Pow2(k)
  {
    Pow2Values();
    ShlPow2(27, k);
    TimesPow2(0x8000000, k);
  }

  lemma {:induction false} TimesPow2(x: nat, k: nat)
    ensures Shl(x, k) == x * Pow2(k)
    decreases k
  {
    if k > 0 {
      TimesPow2(x, k - 1);
    }
  }

  // The n digits of a code v in front of b digits in stock, when all of them fit in one word.
  lemma StockFits(v: nat, n: nat, stock: nat, b: nat)
    requires n + b <= 27 && v < Pow2(n) && stock < Pow2(b)
    ensures var low := stock + Shifted(v, b).1;
            low < Pow2(n + b) && BitsOf(low, n + b) == BitsOf(v, n) + BitsOf(stock, b)
  {
    hide Shl, Pow2, BitsOf, Shifted;
    Pow2Values();
    Pow2Monotone(n, 27);
    ShiftedValue(v, b);
    ShlBelow(v, Pow2(n), b);
    ShlPow2(n, b);
    Pow2Monotone(n + b, 27);
    BitsOfConcat(v, n, stock, b);
  }

  // The same when a full word is cut off and the head stays behind.
  lemma StockSpills(v: nat, n: nat, stock: nat, b: nat)
    requires b <= 27 < n + b && n <= 27 && v < Pow2(n) && stock < Pow2(b)
    ensures var (head, tail) := Shifted(v, b);
            && stock + tail < 0x8000000 && head < Pow2(n + b - 27)
            && BitsOf(head, n + b - 27) + BitsOf(stock + tail, 27) == BitsOf(v, n) + BitsOf(stock, b)
  {
    hide Shl, Pow2, BitsOf, Shifted;
    Pow2Values();
    Pow2Monotone(n, 27);
    ShiftedValue(v, b);
    var (head, tail) := Shifted(v, b);
    assert stock + tail < 0x8000000 by {
      var q := ShiftedTail(v, b);
      ShlBelow(q, Pow2(27 - b), b);
      ShlPow2(27 - b, b);
    }
    assert head < Pow2(n + b - 27) by {
      ShlBelow(v, Pow2(n), b);
      ShlPow2(n, b);
      WordMultiple(n + b - 27);
    }
    BitsOfConcat(v, n, stock, b);
    ShlValues(head);
    BitsOfConcat(head, n + b - 27, stock + tail, 27);
  }
}
