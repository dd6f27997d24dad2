/**
 Real numbers of the machine: 54 digits in one's complement, 40 of them a mantissa, 12 an exponent;
 and their conversion from and to the long double numbers of the simulator's host.
 */
module RealNumbers {
  const ALL := 0x3FFFFFFFFFFFFF
  const LOW := 0x1000000
  const HALF_LOW := 0x800000
  const P39 := 0x8000000000
  const P40 := 0x10000000000

  /**
   A finite long double as frexp splits it: mantissa / 2^64 in the interval from one half to one, times
   2^exponent; or a zero.
   */
  datatype Host = Host(negative: bool, mantissa: int, exponent: int)

  predicate IsHost(x: Host) {
    x.mantissa == 0 || 0x8000000000000000 <= x.mantissa < 0x10000000000000000
  }

  datatype Result = Word(w: int) | Overflow

  function Signed(negative: bool, w: int): int {
    if negative then ALL - w else w
  }

  // Mantissa and exponent in their places.
  function Packed(r: int, e: int): int {
    r / 0x4000 * 0x8000000 + r % 0x4000 * 0x1000 + (e + 2048)
  }

  // The mantissa of 40 digits with its exponent, rounded; a carry out of it is shifted back in.
  function Rounded(x: Host): (int, int) {
    var r := x.mantissa / LOW;
    if x.mantissa % LOW >= HALF_LOW then
      if r + 1 == P40 then (P39, x.exponent + 1) else (r + 1, x.exponent)
    else (r, x.exponent)
  }

  function FromHost(x: Host): Result {
    if x.mantissa == 0 then Word(Signed(x.negative, 0))
    else
      var (r, e) := Rounded(x);
      if e > 2047 then Overflow
      else if e < -2048 then Word(Signed(x.negative, 0))
      else Word(Signed(x.negative, Packed(r, e)))
  }

  // The number a word stands for: a mantissa of 40 digits, of 2^-40 each, and an exponent.
  datatype Number = Number(negative: bool, r: int, e: int)

  function Decoded(w: int): Number {
    var negative := w / 0x20000000000000 % 2 == 1;
    var v := if negative then ALL - w else w;
    Number(negative, v / 0x8000000 * 0x4000 + v / 0x1000 % 0x4000, v % 0x1000 - 2048)
  }

  // The long double with that value, when the mantissa is normalized or zero.
  function ToHost(w: int): Host {
    var n := Decoded(w);
    Host(n.negative, n.r * LOW, n.e)
  }

  // Words the machine makes: normalized, and with the same sign in both halves.
  predicate Normalized(w: int) {
    && 0 <= w <= ALL
    && var n := Decoded(w);
       P39 <= n.r < P40 && (if n.negative then ALL - w else w) / 0x4000000 % 2 == 0
  }

  lemma PackedParts(r: int, e: int)
    requires 0 <= r < P40 && -2048 <= e <= 2047
    ensures var w := Packed(r, e);
            && 0 <= w < 0x20000000000000
            && w / 0x8000000 == r / 0x4000 && w / 0x1000 % 0x4000 == r % 0x4000 && w % 0x1000 == e + 2048
            && w / 0x4000000 % 2 == 0
  {
    var h, l, x := r / 0x4000, r % 0x4000, e + 2048;
    var w := Packed(r, e);
    assert w == 0x1000 * (0x8000 * h + l) + x;
    assert w / 0x1000 == 0x8000 * h + l;
    assert w == 0x4000000 * (2 * h) + (0x1000 * l + x);
    assert w / 0x4000000 == 2 * h;
  }

  lemma SignOf(negative: bool, w: int)
    requires 0 <= w < 0x20000000000000
    ensures var s := Signed(negative, w); 0 <= s <= ALL && (s / 0x20000000000000 % 2 == 1) == negative
  {
  }

  // A packed number is read back.
  lemma DecodedPacked(negative: bool, r: int, e: int)
    requires 0 <= r < P40 && -2048 <= e <= 2047
    ensures Decoded(Signed(negative, Packed(r, e))) == Number(negative, r, e)
    ensures P39 <= r ==> Normalized(Signed(negative, Packed(r, e)))
  {
    PackedParts(r, e);
    SignOf(negative, Packed(r, e));
    hide Packed;
    assert r / 0x4000 * 0x4000 + r % 0x4000 == r;
  }

  lemma RoundedRange(x: Host)
    requires IsHost(x) && x.mantissa != 0
    ensures var (r, e) := Rounded(x);
            && P39 <= r < P40
            && (e == x.exponent || (e == x.exponent + 1 && r == P39))
            && -HALF_LOW <= (if e == x.exponent then r else 2 * r) * LOW - x.mantissa <= HALF_LOW
  {
    var q, f := x.mantissa / LOW, x.mantissa % LOW;
    assert x.mantissa == q * LOW + f;
  }

  /**
   The conversion to the machine: a normalized number within half a unit of the last digit, with a
   carry out of the mantissa taken up by the exponent; too large exactly when the exponent of the
   rounded number is, and a zero of the same sign when it is too small.
   */
  lemma FromHostRight(x: Host)
    requires IsHost(x)
    ensures FromHost(x) == Overflow <==> x.mantissa != 0 && Rounded(x).1 > 2047
    ensures FromHost(x) != Overflow ==>
              var n := Decoded(FromHost(x).w);
              && n.negative == x.negative
              && (n.r == 0 <==> x.mantissa == 0 || Rounded(x).1 < -2048)
              && (n.r != 0 ==>
                    && Normalized(FromHost(x).w) && n.e in {x.exponent, x.exponent + 1}
                    && -HALF_LOW <= (if n.e == x.exponent then n.r else 2 * n.r) * LOW - x.mantissa <= HALF_LOW)
  {
    SignOf(x.negative, 0);
    ZeroDecoded(x.negative);
    if x.mantissa != 0 {
      RoundedRange(x);
      var (r, e) := Rounded(x);
      if -2048 <= e <= 2047 {
        DecodedPacked(x.negative, r, e);
      }
    }
  }

  lemma ZeroDecoded(negative: bool)
    ensures Decoded(Signed(negative, 0)) == Number(negative, 0, -2048)
  {
  }

  // Every normalized word is the packing of what it is read as.
  lemma NormalizedPacked(w: int)
    requires Normalized(w)
    ensures var n := Decoded(w); w == Signed(n.negative, Packed(n.r, n.e)) && -2048 <= n.e <= 2047
  {
    var n := Decoded(w);
    var v := if n.negative then ALL - w else w;
    var h, m, x := v / 0x8000000, v / 0x1000 % 0x8000, v % 0x1000;
    assert v == 0x1000 * (v / 0x1000) + x;
    assert v / 0x1000 / 0x8000 == h;
    assert v / 0x4000000 % 2 == 0;
    LowDigits(v);
    var l := v / 0x1000 % 0x4000;
    RecombineR(h, l);
  }

  lemma LowDigits(v: int)
    requires 0 <= v && v / 0x4000000 % 2 == 0
    ensures v == v / 0x8000000 * 0x8000000 + v / 0x1000 % 0x4000 * 0x1000 + v % 0x1000
  {
    var a := v / 0x1000;
    var b := a / 0x4000;
    assert b == v / 0x4000000;
    assert b / 2 == v / 0x8000000;
    assert a == 0x4000 * b + a % 0x4000;
  }

  lemma RecombineR(h: int, l: int)
    requires 0 <= l < 0x4000
    ensures (h * 0x4000 + l) / 0x4000 == h && (h * 0x4000 + l) % 0x4000 == l
  {
  }

  // No normalized number and neither zero is changed by going to the host and back.
  lemma RoundTrip(w: int)
    requires Normalized(w) || w == 0 || w == ALL
    ensures FromHost(ToHost(w)) == Word(w)
  {
    if w == 0 {
      ZeroDecoded(false);
    } else if w == ALL {
      ZeroDecoded(true);
    } else {
      NormalizedPacked(w);
      var n := Decoded(w);
      hide Decoded, Packed;
      assert n.r * LOW % LOW == 0 && n.r * LOW / LOW == n.r;
    }
  }
}
