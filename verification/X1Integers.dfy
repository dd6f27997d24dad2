/**
 Integers of the machine: words of 27 digits in one's complement, with two zeros.
 */
module X1Integers {
  const LARGEST := 0x3FFFFFF
  const MINUS_ZERO := 0x7FFFFFF

  predicate IsWord(w: int) {
    0 <= w < 0x8000000
  }

  function ToInt(w: int): int {
    if w >= 0x4000000 then w - MINUS_ZERO else w
  }

  predicate Fits(n: int) {
    -LARGEST <= n <= LARGEST
  }

  function FromInt(n: int): int {
    if n < 0 then MINUS_ZERO + n else n
  }

  function Negated(w: int): int {
    MINUS_ZERO - w
  }

  function Abs(a: int): nat {
    if a < 0 then -a else a
  }

  function Sign(x: int): int {
    if x > 0 then 1 else if x < 0 then -1 else 0
  }

  // The machine's division, towards zero.
  function Quotient(a: int, b: int): int
    requires b != 0
  {
    if (a >= 0) == (b > 0) then Abs(a) / Abs(b) else -(Abs(a) / Abs(b))
  }

  // Taking the product from a leaves r, smaller than b and with the sign of a.
  predicate Remainder(a: int, b: int, product: int, r: int) {
    a == product + r && Abs(r) < Abs(b) && (r == 0 || (r > 0 <==> a > 0))
  }

  predicate LeftOver(a: int, b: int, q: int, r: int) {
    Remainder(a, b, b * q, r)
  }

  // q is a divided by b without the fraction.
  ghost predicate Divides(a: int, b: int, q: int) {
    exists r: int :: LeftOver(a, b, q, r)
  }

  lemma MagnitudesDivide(a: int, b: int)
    requires b != 0
    ensures Abs(a) == Abs(b) * (Abs(a) / Abs(b)) + Abs(a) % Abs(b) && 0 <= Abs(a) % Abs(b) < Abs(b)
  {
  }

  lemma SignedProduct(b: int, q: int, negative: bool)
    ensures b * (if negative == (b < 0) then q else -q) == if negative then -(Abs(b) * q) else Abs(b) * q
  {
    SignedProducts(b, q);
  }

  // The signs put back.
  lemma SignsDivide(a: int, b: int, q: int, left: int)
    requires 0 <= q && 0 <= left && Abs(a) == Abs(b) * q + left && left < Abs(b)
    ensures Divides(a, b, if (a < 0) == (b < 0) then q else -q)
  {
    hide Abs, Remainder;
    var p := if (a < 0) == (b < 0) then q else -q;
    SignedProduct(b, q, a < 0);
    NoSign(Abs(b), q);
    RemainderSigned(a, b, Abs(b) * q, left);
    assert LeftOver(a, b, p, if a < 0 then -left else left);
  }

  lemma NoSign(b: nat, q: nat)
    ensures b * q >= 0
  {
  }

  lemma RemainderSigned(a: int, b: int, product: int, left: int)
    requires 0 <= product && Abs(a) == product + left && 0 <= left < Abs(b)
    ensures if a < 0 then Remainder(a, b, -product, -left) else Remainder(a, b, product, left)
  {
  }

  lemma QuotientDivides(a: int, b: int)
    requires b != 0
    ensures Divides(a, b, Quotient(a, b))
  {
    hide Divides;
    MagnitudesDivide(a, b);
    SignsDivide(a, b, Abs(a) / Abs(b), Abs(a) % Abs(b));
  }

  lemma SignedProducts(b: int, q: int)
    ensures b * -q == -(b * q) && -b * -q == b * q && -b * q == -(b * q)
  {
  }

  // There is only one such number.
  lemma DivisionUnique(a: int, b: int, q: int, p: int)
    requires b != 0 && Divides(a, b, q) && Divides(a, b, p)
    ensures q == p
  {
    var r: int :| LeftOver(a, b, q, r);
    var t: int :| LeftOver(a, b, p, t);
    assert b * (q - p) == t - r;
    assert Abs(t - r) < Abs(b);
    if q != p {
      LargeProduct(b, q - p);
    }
  }

  lemma LargeProduct(b: int, d: int)
    requires d != 0
    ensures Abs(b * d) >= Abs(b)
  {
    SignedProducts(b, d);
    AtLeastOnce(Abs(b), Abs(d));
  }

  lemma AtLeastOnce(b: nat, d: int)
    requires d >= 1
    ensures b * d >= b
  {
  }

  lemma IntComesBack(n: int)
    requires Fits(n)
    ensures IsWord(FromInt(n)) && ToInt(FromInt(n)) == n
  {
  }

  lemma NegatedValue(w: int)
    requires IsWord(w)
    ensures IsWord(Negated(w)) && ToInt(Negated(w)) == -ToInt(w) && Fits(ToInt(w))
  {
  }
}
