/**
 Real numbers in the source text: the digits read so far, as a number of 52 digits in two words, are
 divided by a power of ten, one factor of ten at a time.
 */
module DecimalScaling {
  const D23 := 0x800000
  const D25 := 0x2000000
  const D26 := 0x4000000

  // 2^51, the least normalized mantissa, and 2^50, a measure of the precision.
  const HALF := D25 * D26
  const UNIT := D25 * D25

  function Pow(b: nat, n: nat): (p: nat)
    requires b > 0
    ensures p > 0
    decreases n
  {
    if n == 0 then 1 else b * Pow(b, n - 1)
  }

  predicate Halves(fnw: int, inw: int) {
    0 <= fnw < D26 && 0 <= inw < D26
  }

  function Mantissa(fnw: int, inw: int): int {
    fnw * D26 + inw
  }

  /**
   The mantissa m stands for v0 / 10^k, with the binary exponent -s: never above it, and below it by
   at most k units of 2^-50 of it.
   */
  predicate Approximates(m: int, s: nat, v0: int, k: nat) {
    var x := v0 * Pow(2, s);
    m * Pow(10, k) <= x && (UNIT - k) * x <= UNIT * (m * Pow(10, k))
  }

  // Twice the mantissa with one less in the exponent is the same number.
  lemma Doubled(m: int, s: nat, v0: int)
    requires m == v0 * Pow(2, s)
    ensures 2 * m == v0 * Pow(2, s + 1)
  {
    var p := Pow(2, s);
    assert v0 * (2 * p) == 2 * (v0 * p);
  }

  method Normalize(fnw0: int, inw0: int) returns (fnw: int, inw: int, bexp: int)
    requires Halves(fnw0, inw0) && Mantissa(fnw0, inw0) > 0
    ensures Halves(fnw, inw) && D25 <= fnw && bexp <= 2100
    ensures Mantissa(fnw, inw) == Mantissa(fnw0, inw0) * Pow(2, 2100 - bexp)
  {
    fnw, inw, bexp := fnw0, inw0, 2100;
    ghost var v0 := Mantissa(fnw0, inw0);
    assert Pow(2, 0) == 1;
    while fnw < D25
      invariant Halves(fnw, inw) && bexp <= 2100 && Mantissa(fnw, inw) > 0
      invariant Mantissa(fnw, inw) == v0 * Pow(2, 2100 - bexp)
      decreases HALF - Mantissa(fnw, inw)
    {
      Doubled(Mantissa(fnw, inw), 2100 - bexp, v0);
      inw := inw * 2;
      fnw := fnw * 2 + inw / D26;
      inw := inw % D26;
      bexp := bexp - 1;
    }
  }

  // Half the mantissa, in the two words.
  method HalveWords(fnw0: int, inw0: int) returns (fnw: int, inw: int)
    requires Halves(fnw0, inw0)
    ensures Halves(fnw, inw) && Mantissa(fnw, inw) == Mantissa(fnw0, inw0) / 2
  {
    inw := inw0 / 2 + fnw0 % 2 * D25;
    fnw := fnw0 / 2;
  }

  // Eight fifths of the mantissa, in the two words.
  method EightFifths(fnw0: int, inw0: int) returns (fnw: int, inw: int)
    requires Halves(fnw0, inw0) && fnw0 < 5 * D23
    ensures Halves(fnw, inw) && Mantissa(fnw, inw) == 8 * Mantissa(fnw0, inw0) / 5
  {
    inw := inw0 * 8;
    fnw := fnw0 * 8 + inw / D26;
    ghost var m := 8 * Mantissa(fnw0, inw0);
    assert m == fnw * D26 + inw % D26;
    ghost var a, b := fnw, inw % D26;
    inw := inw % D26 + fnw % 5 * D26;
    fnw := fnw / 5;
    Fifth(a, b, m);
    inw := inw / 5;
  }

  // Long division by five, word by word.
  lemma Fifth(a: int, b: int, m: int)
    requires 0 <= a < 8 * 5 * D23 + 8 && 0 <= b < D26 && m == a * D26 + b
    ensures m / 5 == a / 5 * D26 + (b + a % 5 * D26) / 5
    ensures 0 <= (b + a % 5 * D26) / 5 < D26
  {
    var r := b + a % 5 * D26;
    assert m == 5 * (a / 5 * D26) + r;
    FifthOfSum(a / 5 * D26, r);
  }

  lemma FifthOfSum(q: int, r: int)
    ensures (5 * q + r) / 5 == q + r / 5
  {
  }

  lemma Shifted(v0: int, s: nat, d: nat)
    requires d in {3, 4}
    ensures v0 * Pow(2, s + d) == (if d == 3 then 8 else 16) * (v0 * Pow(2, s))
  {
    Doubled(v0 * Pow(2, s), s, v0);
    Doubled(v0 * Pow(2, s + 1), s + 1, v0);
    Doubled(v0 * Pow(2, s + 2), s + 2, v0);
    Doubled(v0 * Pow(2, s + 3), s + 3, v0);
  }

  // The bounds with the products as unknowns: y is m * p, z is n * p and w is k * x.
  lemma BoundsLinear(y: int, z: int, p: int, x: int, w: int, f: int)
    requires f == 8 || f == 16
    requires y <= x && UNIT * x - w <= UNIT * y && 2 * UNIT * p <= x
    requires if f == 8 then 8 * y - 16 * p <= 10 * z <= 8 * y else 16 * y - 32 * p <= 10 * z <= 16 * y
    ensures if f == 8 then 10 * z <= 8 * x && 8 * (UNIT * x - w - x) <= UNIT * (10 * z)
            else 10 * z <= 16 * x && 16 * (UNIT * x - w - x) <= UNIT * (10 * z)
  {
  }

  // A factor f of m and x keeps the bounds when at most 2 * f units of the mantissa get lost.
  lemma BoundsKept(m: int, n: int, p: nat, x: int, k: nat, f: nat)
    requires (f == 8 && 8 * m - 16 <= 10 * n <= 8 * m) || (f == 16 && 16 * m - 32 <= 10 * n <= 16 * m)
    requires HALF <= m && 0 < p
    requires m * p <= x && (UNIT - k) * x <= UNIT * (m * p)
    ensures n * (10 * p) <= f * x
    ensures (UNIT - (k + 1)) * (f * x) <= UNIT * (n * (10 * p))
  {
    var y, z, w := m * p, n * p, k * x;
    Monotone(HALF, m, p);
    Products(m, n, p, x, k, f);
    BoundsLinear(y, z, p, x, w, f);
  }

  lemma Products(m: int, n: int, p: nat, x: int, k: nat, f: nat)
    requires (f == 8 && 8 * m - 16 <= 10 * n <= 8 * m) || (f == 16 && 16 * m - 32 <= 10 * n <= 16 * m)
    ensures (UNIT - k) * x == UNIT * x - k * x
    ensures (UNIT - (k + 1)) * (f * x) == (if f == 8 then 8 * (UNIT * x - k * x - x) else 16 * (UNIT * x - k * x - x))
    ensures n * (10 * p) == 10 * (n * p)
    ensures if f == 8 then 8 * (m * p) - 16 * p <= 10 * (n * p) <= 8 * (m * p)
            else 16 * (m * p) - 32 * p <= 10 * (n * p) <= 16 * (m * p)
  {
    Less(UNIT, k, x);
    Less(UNIT - k, 1, x);
    Times(10, n, p);
    var c := UNIT - (k + 1);
    if f == 8 {
      Times(8, c, x);
      Times(8, m, p);
      Monotone(10 * n, 8 * m, p);
      Monotone(8 * m - 16, 10 * n, p);
      Less(8 * m, 16, p);
    } else {
      Times(16, c, x);
      Times(16, m, p);
      Monotone(10 * n, 16 * m, p);
      Monotone(16 * m - 32, 10 * n, p);
      Less(16 * m, 32, p);
    }
  }

  lemma Less(a: int, b: int, c: int)
    ensures (a - b) * c == a * c - b * c
  {
  }

  lemma Times(f: int, a: int, b: int)
    ensures (f * a) * b == f * (a * b) && a * (f * b) == f * (a * b)
  {
  }

  lemma Monotone(a: int, b: int, p: nat)
    requires a <= b
    ensures a * p <= b * p
  {
  }

  // One factor of ten: eight fifths in the mantissa, and three or four in the exponent.
  method DivideByTen(fnw0: int, inw0: int, bexp0: int, ghost v0: int, ghost k: nat)
    returns (fnw: int, inw: int, bexp: int)
    requires Halves(fnw0, inw0) && D25 <= fnw0 && bexp0 <= 2100 && v0 >= 0
    requires Approximates(Mantissa(fnw0, inw0), 2100 - bexp0, v0, k)
    ensures Halves(fnw, inw) && D25 <= fnw && bexp < bexp0
    ensures Approximates(Mantissa(fnw, inw), 2100 - bexp, v0, k + 1)
  {
    hide Pow;
    fnw, inw, bexp := fnw0, inw0, bexp0;
    ghost var m, s, d := Mantissa(fnw0, inw0), 2100 - bexp0, if fnw0 >= 5 * D23 then 3 else 4;
    if fnw >= 5 * D23 {
      fnw, inw := HalveWords(fnw, inw);
      bexp := bexp + 1;
    }
    ghost var h := Mantissa(fnw, inw);
    fnw, inw := EightFifths(fnw, inw);
    bexp := bexp - 4;
    ghost var n := Mantissa(fnw, inw);
    OneFactor(m, h, n, d == 3);
    Shifted(v0, s, d);
    NextPower(k);
    BoundsKept(m, n, Pow(10, k), v0 * Pow(2, s), k, if d == 3 then 8 else 16);
  }

  lemma NextPower(k: nat)
    ensures Pow(10, k + 1) == 10 * Pow(10, k)
  {
  }

  lemma OneFactor(m: int, h: int, n: int, halved: bool)
    requires h == (if halved then m / 2 else m) && n == 8 * h / 5
    ensures if halved then 8 * m - 16 <= 10 * n <= 8 * m else 16 * m - 32 <= 10 * n <= 16 * m
  {
  }

  /**
   A non-zero number with the decimal exponent -count: the result is normalized, not above its value,
   and below it by at most count units of 2^-50 of it.
   */
  method ScaleDown(fnw0: int, inw0: int, count: nat) returns (fnw: int, inw: int, bexp: int)
    requires Halves(fnw0, inw0) && Mantissa(fnw0, inw0) > 0
    ensures Halves(fnw, inw) && D25 <= fnw && bexp <= 2100
    ensures Approximates(Mantissa(fnw, inw), 2100 - bexp, Mantissa(fnw0, inw0), count)
  {
    ghost var v0 := Mantissa(fnw0, inw0);
    fnw, inw, bexp := Normalize(fnw0, inw0);
    Exact(Mantissa(fnw, inw), 2100 - bexp, v0);
    var elsc := 0 - count;
    while elsc != 0
      invariant 0 <= count + elsc && elsc <= 0 && Halves(fnw, inw) && D25 <= fnw && bexp <= 2100
      invariant Approximates(Mantissa(fnw, inw), 2100 - bexp, v0, count + elsc)
    {
      fnw, inw, bexp := DivideByTen(fnw, inw, bexp, v0, count + elsc);
      elsc := elsc + 1;
    }
  }

  lemma Exact(m: int, s: nat, v0: int)
    requires m == v0 * Pow(2, s)
    ensures Approximates(m, s, v0, 0)
  {
    assert Pow(10, 0) == 1;
  }
}
