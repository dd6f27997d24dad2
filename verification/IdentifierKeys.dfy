/**
 Identifiers: the two words the scanner packs their first nine symbols into, the words a library name
 is entered with, and how a label is typed back from them.
 */
module IdentifierKeys {
  const D21 := 0x200000
  const D24 := 0x1000000
  const D27 := 0x8000000

  // Symbols up to 62 are digits and letters; letters begin at 10.
  predicate IsIdentifier(s: seq<int>) {
    s != [] && 10 <= s[0] <= 62 && forall i :: 0 <= i < |s| ==> 0 <= s[i] <= 62
  }

  // Symbol i, or what stands in its place behind the end of the identifier.
  function SymbolAt(s: seq<int>, i: nat): int {
    if i < |s| then s[i] else 63
  }

  // The first word of a library name.
  function Word1(s: seq<int>): int
    requires s != []
  {
    if |s| == 1 then s[0] * D21
    else if |s| == 2 then s[1] * D21 + s[0] * 0x8000
    else if |s| == 3 then s[2] * D21 + s[1] * 0x8000 + s[0] * 0x200
    else if |s| == 4 then s[3] * D21 + s[2] * 0x8000 + s[1] * 0x200 + s[0] * 8
    else s[4] * D21 + s[3] * 0x8000 + s[2] * 0x200 + s[1] * 8 + s[0] / 8
  }

  // The second word, of a name of five symbols or more.
  function Word2(s: seq<int>): int
    requires 5 <= |s|
  {
    s[0] % 8 + SymbolAt(s, 5) * 8 + SymbolAt(s, 6) * 0x200 + SymbolAt(s, 7) * 0x8000 + SymbolAt(s, 8) * D21
  }

  // Two entries of the name list stand for the same name.
  predicate SameName(inw: int, fnw: int, otherInw: int, otherFnw: int) {
    inw == otherInw && (inw % 8 == 0 || fnw == otherFnw)
  }

  // Where the identifier at place from ends.
  predicate EndsAt(text: seq<int>, from: nat, end: nat) {
    from < end < |text| && IsIdentifier(text[from..end]) && 62 < text[end]
  }

  lemma Split(q: int, r: int)
    requires 0 <= r < 64
    ensures (64 * q + r) / 64 == q && (64 * q + r) % 64 == r
  {
  }

  lemma Eights(a: int)
    requires 0 <= a
    ensures a * 8 / 64 == a / 8 && a * 8 % 64 == a % 8 * 8
  {
  }

  lemma LowThree(q: int, r: int)
    requires 0 <= r < 8
    ensures (8 * q + r) % 8 == r && (8 * q + r) / 8 == q
  {
  }

  // The low three digits of the first word tell the long names.
  lemma ShortOrLong(s: seq<int>)
    requires IsIdentifier(s)
    ensures Word1(s) % 8 == 0 <==> |s| < 5
    ensures 5 <= |s| ==> Word1(s) % 8 == s[0] / 8
  {
    if |s| == 1 { LowThree(s[0] * 0x40000, 0); }
    else if |s| == 2 { LowThree(s[1] * 0x40000 + s[0] * 0x1000, 0); }
    else if |s| == 3 { LowThree(s[2] * 0x40000 + s[1] * 0x1000 + s[0] * 0x40, 0); }
    else if |s| == 4 { LowThree(s[3] * 0x40000 + s[2] * 0x1000 + s[1] * 0x40 + s[0], 0); }
    else { LowThree(s[4] * 0x40000 + s[3] * 0x1000 + s[2] * 0x40 + s[1], s[0] / 8); }
  }

  // One more symbol moves the others one place on.
  lemma OneMore(s: seq<int>)
    requires IsIdentifier(s) && 2 <= |s| <= 5
    ensures Word1(s) == Word1(s[..|s| - 1]) / 64 + s[|s| - 1] * D21
    ensures |s| == 5 ==> Word1(s[..4]) % 64 * D21 == s[0] % 8 * D24
  {
    if |s| == 2 { Split(s[0] * 0x8000, 0); }
    else if |s| == 3 { Split(s[1] * 0x8000 + s[0] * 0x200, 0); }
    else if |s| == 4 { Split(s[2] * 0x8000 + s[1] * 0x200 + s[0] * 8, 0); }
    else {
      Eights(s[0]);
      Split(s[3] * 0x8000 + s[2] * 0x200 + s[1] * 8 + s[0] / 8, s[0] % 8 * 8);
    }
  }

  // One of the first five symbols goes in front of those in inw.
  lemma NextSymbol(s: seq<int>, inw: int)
    requires IsIdentifier(s) && |s| <= 5 && inw == if |s| == 1 then 0 else Word1(s[..|s| - 1])
    ensures inw / 64 + s[|s| - 1] * D21 == Word1(s) && (Word1(s) % 8 <= 0 <==> |s| < 5)
    ensures |s| == 5 ==> inw % 64 * D21 == s[0] % 8 * D24
  {
    ShortOrLong(s);
    if |s| > 1 { OneMore(s); }
  }

  // The first five symbols.
  method ScanFirst(text: seq<int>, from: nat, ghost end: nat) returns (inw: int, fnw: int, at: nat)
    requires EndsAt(text, from, end)
    ensures at == (if end - from < 5 then end else from + 5) && inw == Word1(text[from..at])
    ensures at == from + 5 ==> fnw == text[from] % 8 * D24
  {
    hide Word1;
    inw, fnw, at := 0, 0, from;
    var more := true;
    while more
      invariant from <= at <= end && at <= from + 5
      invariant at == from ==> more && inw == 0
      invariant from < at ==> inw == Word1(text[from..at]) && more == (at - from < 5 && at < end)
      invariant at == from + 5 ==> fnw == text[from] % 8 * D24
      decreases from + 5 - at
    {
      ghost var s := text[from..end][..at + 1 - from];
      assert s == text[from..at + 1] && IsIdentifier(s) && s[..at - from] == text[from..at];
      NextSymbol(s, inw);
      fnw := inw % 64 * D21;
      inw := inw / 64 + text[at] * D21;
      at := at + 1;
      assert at < end ==> text[at] == text[from..end][at - from];
      more := inw % 8 <= 0 && text[at] <= 62;
    }
  }

  // The second word after the symbols up to n, with the mark that shows when it is full.
  function Filling(s: seq<int>, n: nat): int
    requires 5 <= |s| && 5 <= n <= 9
  {
    if n == 5 then s[0] % 8 * D24 + D21 * 4
    else if n == 6 then s[0] % 8 * 0x40000 + 0x20000 + SymbolAt(s, 5) * D21
    else if n == 7 then s[0] % 8 * 0x1000 + 0x800 + SymbolAt(s, 5) * 0x8000 + SymbolAt(s, 6) * D21
    else if n == 8 then s[0] % 8 * 0x40 + 0x20 + SymbolAt(s, 5) * 0x200 + SymbolAt(s, 6) * 0x8000 + SymbolAt(s, 7) * D21
    else Word2(s)
  }

  lemma FillOneMore(s: seq<int>, n: nat)
    requires 5 <= |s| && 5 <= n < 9 && 0 <= s[0] && forall i :: 0 <= i < |s| ==> 0 <= s[i] < 64
    ensures Filling(s, n + 1) == Filling(s, n) / 64 + SymbolAt(s, n) * D21
    ensures Filling(s, n) % 64 == if n == 8 then 32 else 0
  {
    var a := s[0] % 8;
    if n == 5 { Split(a * 0x40000 + 0x20000, 0); }
    else if n == 6 { Split(a * 0x1000 + 0x800 + SymbolAt(s, 5) * 0x8000, 0); }
    else if n == 7 { Split(a * 0x40 + 0x20 + SymbolAt(s, 5) * 0x200 + SymbolAt(s, 6) * 0x8000, 0); }
    else { Split(a + SymbolAt(s, 5) * 8 + SymbolAt(s, 6) * 0x200 + SymbolAt(s, 7) * 0x8000, 32); }
  }

  // The second word, of the symbols up to the ninth and a filling.
  method ScanSecond(text: seq<int>, from: nat, start: int, ghost end: nat) returns (fnw: int, at: nat)
    requires EndsAt(text, from, end) && from + 5 <= end && start == text[from] % 8 * D24
    ensures fnw == Word2(text[from..end]) && at == if end - from < 9 then end else from + 9
  {
    hide Filling, Word2;
    ghost var s := text[from..end];
    assert forall i :: 0 <= i < |s| ==> s[i] == text[from + i];
    FillStart(s);
    fnw, at := start + D21 * 4, from + 5;
    var marker := 0;
    ghost var n := 5;
    while marker == 0 && text[at] < 63
      invariant 5 <= n <= 9 && at == from + n <= end && fnw == Filling(s, n) && (marker != 0 <==> n == 9)
      decreases 9 - n
    {
      FillOneMore(s, n);
      marker := fnw % 64 * D21;
      fnw := fnw / 64 + text[at] * D21;
      at := at + 1;
      n := n + 1;
    }
    while marker == 0
      invariant 5 <= n <= 9 && at <= from + n && fnw == Filling(s, n) && (marker != 0 <==> n == 9)
      invariant n < 9 ==> |s| <= n
      decreases 9 - n
    {
      FillOneMore(s, n);
      marker := fnw % 64 * D21;
      fnw := fnw / 64 + D21 * 63;
      n := n + 1;
    }
  }

  lemma FillStart(s: seq<int>)
    requires 5 <= |s|
    ensures Filling(s, 5) == s[0] % 8 * D24 + D21 * 4 && Filling(s, 9) == Word2(s)
  {
  }

  // The symbols behind the ninth are skipped, up to one that is no digit or letter, or is the last letter.
  method SkipRest(text: seq<int>, at: nat, ghost end: nat) returns (stop: nat)
    requires at <= end < |text| && 62 < text[end]
    ensures at <= stop <= end && 62 <= text[stop] && forall i :: at <= i < stop ==> text[i] < 62
  {
    stop := at;
    while text[stop] < 62
      invariant at <= stop <= end && forall i :: at <= i < stop ==> text[i] < 62
      decreases end - stop
    {
      stop := stop + 1;
    }
  }

  /**
   The scanner makes the words a library name is entered with.  It goes on behind the identifier,
   unless the last letter of the alphabet is among the symbols behind the ninth.
   */
  method ScanIdentifier(text: seq<int>, from: nat, ghost end: nat) returns (inw: int, fnw: int, at: nat)
    requires EndsAt(text, from, end)
    ensures inw == Word1(text[from..end]) && (5 <= end - from ==> fnw == Word2(text[from..end]))
    ensures at == end <==> forall i :: from + 9 <= i < end ==> text[i] != 62
    ensures at <= end && 62 <= text[at] && forall i :: from + 9 <= i < at ==> text[i] < 62
  {
    hide Word1, Word2;
    ghost var s := text[from..end];
    assert forall i :: 0 <= i < |s| ==> s[i] == text[from + i];
    inw, fnw, at := ScanFirst(text, from, end);
    assert forall i :: 0 <= i < at - from ==> text[from..at][i] == s[i];
    if inw % 8 > 0 {
      LongOnes(text[from..at]);
      SamePrefix(text[from..at], s);
      fnw, at := ScanSecond(text, from, fnw, end);
      at := SkipRest(text, at, end);
    } else {
      LongOnes(text[from..at]);
      assert text[from..at] == s;
    }
  }

  // Ten letters and a late last letter of the alphabet, in front of a semicolon: the scanner goes on
  // at that letter and not behind it.
  method ScanLateLetter() returns (at: nat)
    ensures at == 10
  {
    var text := [10, 10, 10, 10, 10, 10, 10, 10, 10, 10, 62, 91];
    var inw, fnw;
    inw, fnw, at := ScanIdentifier(text, 0, 11);
    assert text[10] == 62;
    assert text[9] < 62;
  }

  lemma LongOnes(s: seq<int>)
    requires IsIdentifier(s)
    ensures Word1(s) % 8 > 0 <==> 5 <= |s|
  {
    ShortOrLong(s);
    hide Word1;
  }

  lemma SamePrefix(a: seq<int>, s: seq<int>)
    requires |a| == 5 && a <= s
    ensures Word1(a) == Word1(s)
  {
  }

  // The number with these digits to the base 64, the lowest one first.
  function Num(d: seq<int>): int {
    if d == [] then 0 else d[0] + 64 * Num(d[1..])
  }

  predicate Digits(d: seq<int>) {
    forall i :: 0 <= i < |d| ==> 0 <= d[i] < 64
  }

  // What the typewriter prints: it leaves out the filling.
  function Offered(d: seq<int>): seq<int> {
    if d == [] then [] else (if d[0] < 63 then [d[0]] else []) + Offered(d[1..])
  }

  lemma {:induction false} OfferedAppend(d: seq<int>, c: int)
    ensures Offered(d + [c]) == Offered(d) + if c < 63 then [c] else []
  {
    if d == [] {
      assert [] + [c] == [c] && [c][1..] == [];
    } else {
      assert (d + [c])[1..] == d[1..] + [c];
      OfferedAppend(d[1..], c);
    }
  }

  lemma {:induction false} NotNegative(d: seq<int>)
    requires Digits(d)
    ensures 0 <= Num(d)
  {
    if d != [] {
      NotNegative(d[1..]);
    }
  }

  lemma LastDigit(d: seq<int>)
    requires d != [] && Digits(d)
    ensures Num(d) % 64 == d[0] && Num(d) / 64 == Num(d[1..]) && 0 <= Num(d)
  {
    NotNegative(d);
    Split(Num(d[1..]), d[0]);
  }

  lemma {:induction false} NumAppend(d: seq<int>, c: int)
    ensures Num(d + [c]) == Num(d) + c * Num(Unit(|d|))
  {
    if d == [] {
      assert [] + [c] == [c] && [c][1..] == [] && Unit(0) == [1] && [1][1..] == [];
    } else {
      assert (d + [c])[1..] == d[1..] + [c] && Unit(|d|)[1..] == Unit(|d| - 1);
      NumAppend(d[1..], c);
      var u := Num(Unit(|d| - 1));
      assert Num(Unit(|d|)) == 64 * u;
      assert c * (64 * u) == 64 * (c * u);
    }
  }

  // One, in place n.
  function Unit(n: nat): seq<int> {
    if n == 0 then [1] else [0] + Unit(n - 1)
  }

  method Offer(typed: seq<int>, c: int, ghost done: seq<int>) returns (more: seq<int>)
    requires typed == Offered(done) && 0 <= c
    ensures more == Offered(done + [c % 64])
  {
    OfferedAppend(done, c % 64);
    more := typed;
    if c % 64 < 63 {
      more := more + [c % 64];
    }
  }

  // The first word of a short name, in digits from the lowest one on.
  lemma ShortDigits(s: seq<int>)
    requires IsIdentifier(s) && |s| <= 4
    ensures var d := seq(4 - |s|, _ => 0) + s; |d| == 4 && Digits(d) && Word1(s) / 8 == Num(d)
  {
    var d := seq(4 - |s|, _ => 0) + s;
    assert Num(d) == d[0] + 64 * (d[1] + 64 * (d[2] + 64 * d[3])) by {
      FourDigits(d[0], d[1], d[2], d[3]);
      assert d == [d[0], d[1], d[2], d[3]];
    }
    LowThree(Num(d), 0);
  }

  lemma FourDigits(a: int, b: int, c: int, d: int)
    ensures Num([a, b, c, d]) == a + 64 * (b + 64 * (c + 64 * d))
  {
    assert [a, b, c, d][1..] == [b, c, d] && [b, c, d][1..] == [c, d] && [c, d][1..] == [d] && [d][1..] == [];
    assert Num([d]) == d && Num([c, d]) == c + 64 * Num([d]) && Num([b, c, d]) == b + 64 * Num([c, d]);
  }

  // A short name is typed from its only word.
  method TypeShort(inw: int, ghost s: seq<int>) returns (typed: seq<int>)
    requires IsIdentifier(s) && |s| <= 4 && inw == Word1(s)
    ensures typed == s
  {
    hide Word1, Num, Offered;
    ShortDigits(s);
    ghost var d, k := seq(4 - |s|, _ => 0) + s, 0;
    var id, i := inw / 8, 4;
    assert d[k..] == d && d[4 - |s|] == s[0] && forall j :: 0 <= j < 4 - |s| ==> d[j] == 0;
    while id % 64 == 0
      invariant 0 <= k <= 4 - |s| && i == 4 - k && id == Num(d[k..])
      decreases i
    {
      LastDigit(d[k..]);
      assert d[k..][1..] == d[k + 1..] && d[k..][0] == d[k];
      i := i - 1;
      id := id / 64;
      k := k + 1;
    }
    LastDigit(d[k..]);
    assert d[k..][0] == d[k] && d[k..] == s;
    typed := [];
    ghost var done := 0;
    NothingOffered();
    while i != 0
      invariant 0 <= i == |s| - done && id == Num(s[done..]) && typed == Offered(s[..done])
      decreases i
    {
      LastDigit(s[done..]);
      assert s[done..][1..] == s[done + 1..] && s[..done + 1] == s[..done] + [s[done]];
      typed := Offer(typed, id, s[..done]);
      i := i - 1;
      id := id / 64;
      done := done + 1;
    }
    assert s[..done] == s;
    AllOffered(s);
  }

  lemma NothingOffered()
    ensures Offered([]) == []
  {
  }

  lemma {:induction false} AllOffered(s: seq<int>)
    requires forall i :: 0 <= i < |s| ==> s[i] < 63
    ensures Offered(s) == s
  {
    if s != [] {
      AllOffered(s[1..]);
    }
  }

  function NineSymbols(s: seq<int>): (d: seq<int>)
    ensures |d| == 9
  {
    seq(9, i requires 0 <= i => SymbolAt(s, i))
  }

  lemma NineDigits(d: seq<int>)
    requires |d| == 9
    ensures Num(d) == Num(d[..4]) + D24 * (d[4] + 64 * Num(d[5..]))
  {
    FourDigits(d[0], d[1], d[2], d[3]);
    assert d[..4] == [d[0], d[1], d[2], d[3]];
    assert Num(d) == d[0] + 64 * Num(d[1..]);
    assert d[1..][1..] == d[2..] && d[2..][1..] == d[3..] && d[3..][1..] == d[4..] && d[4..][1..] == d[5..];
    assert Num(d[1..]) == d[1] + 64 * Num(d[2..]);
    assert Num(d[2..]) == d[2] + 64 * Num(d[3..]);
    assert Num(d[3..]) == d[3] + 64 * Num(d[4..]);
    assert Num(d[4..]) == d[4] + 64 * Num(d[5..]);
  }

  lemma Quotients(q: int, r: int)
    requires 0 <= r < D24
    ensures (D24 * q + r) / D24 == q && (D24 * q + r) % D24 == r
  {
  }

  // The digits of the first word of a long name below the last three.
  function Low(s: seq<int>): int
    requires 5 <= |s|
  {
    s[4] % 8 * D21 + s[3] * 0x8000 + s[2] * 0x200 + s[1] * 8 + s[0] / 8
  }

  // The digits of its second word above the lowest three.
  function High(s: seq<int>): int {
    SymbolAt(s, 5) + 64 * SymbolAt(s, 6) + 0x1000 * SymbolAt(s, 7) + 0x40000 * SymbolAt(s, 8)
  }

  lemma WordsInParts(s: seq<int>)
    requires IsIdentifier(s) && 5 <= |s|
    ensures 0 <= Low(s) < D24 && 0 <= High(s) < D24 && 0 <= s[4] / 8 < 8
    ensures Word1(s) == D24 * (s[4] / 8) + Low(s) && Word2(s) == 8 * High(s) + s[0] % 8
  {
    LowThree(High(s), s[0] % 8);
    assert s[4] == s[4] / 8 * 8 + s[4] % 8;
  }

  lemma NineInParts(s: seq<int>)
    requires IsIdentifier(s) && 5 <= |s|
    ensures Num(NineSymbols(s)) == Low(s) * 8 + s[0] % 8 + D27 * (High(s) * 8 + s[4] / 8)
  {
    var d := NineSymbols(s);
    NineDigits(d);
    FourDigits(d[0], d[1], d[2], d[3]);
    FourDigits(d[5], d[6], d[7], d[8]);
    assert d[..4] == [d[0], d[1], d[2], d[3]] && d[5..] == [d[5], d[6], d[7], d[8]];
    hide Num;
    assert s[0] == s[0] / 8 * 8 + s[0] % 8 && s[4] == s[4] / 8 * 8 + s[4] % 8;
  }

  // The two words of a long name, put together, are its nine symbols.
  lemma LongDigits(s: seq<int>, inw: int, fnw: int)
    requires IsIdentifier(s) && 5 <= |s| && inw == Word1(s) && fnw == Word2(s)
    ensures var id2 := fnw / 8 + fnw % 8 * D24;
            var a, b := inw % D24 * 8 + id2 / D24, id2 % D24 * 8 + inw / D24;
            && 0 <= a < D27 && 0 <= b < D27 && a + D27 * b == Num(NineSymbols(s))
  {
    WordsInParts(s);
    NineInParts(s);
    hide Word1, Word2, Low, High, Num, SymbolAt;
    var c, t := s[0] % 8, s[4] / 8;
    LowThree(High(s), c);
    Quotients(c, High(s));
    Quotients(t, Low(s));
  }

  // Rotating the two words by six digits.
  lemma Rotated(a: int, b: int, d: seq<int>)
    requires 0 <= a < D27 && 0 <= b < D27 && |d| == 9 && Digits(d) && a + D27 * b == Num(d)
    ensures a % 64 == d[0]
    ensures var a1, b1 := a / 64 + b % 64 * D21, b / 64 + a % 64 * D21;
            0 <= a1 < D27 && 0 <= b1 < D27 && a1 + D27 * b1 == Num(d[1..] + [d[0]])
  {
    var x := a / 64 + D21 * b;
    LastDigit(d);
    assert a + D27 * b == 64 * x + a % 64;
    Split(x, a % 64);
    NumAppend(d[1..], d[0]);
    EighthPlace();
    hide Num, Unit;
    assert b == 64 * (b / 64) + b % 64;
  }

  lemma EighthPlace()
    ensures Num(Unit(8)) == D24 * D24
  {
    assert Num(Unit(0)) == 1 && Num(Unit(1)) == 64 by {
      assert Unit(0)[1..] == [] && Unit(1)[1..] == Unit(0);
    }
    NextPlace(1);
    NextPlace(2);
    NextPlace(3);
    NextPlace(4);
    NextPlace(5);
    NextPlace(6);
    NextPlace(7);
  }

  lemma NextPlace(n: nat)
    ensures Num(Unit(n + 1)) == 64 * Num(Unit(n))
  {
    assert Unit(n + 1)[1..] == Unit(n);
  }

  // A long name is typed from its two words: its first nine symbols.
  method TypeLong(inw: int, fnw: int, ghost s: seq<int>) returns (typed: seq<int>)
    requires IsIdentifier(s) && 5 <= |s| && inw == Word1(s) && fnw == Word2(s)
    ensures typed == Offered(NineSymbols(s))
  {
    hide Word1, Word2, Num, Offered;
    LongDigits(s, inw, fnw);
    ghost var d, done := NineSymbols(s), 0;
    var id2 := fnw / 8 + fnw % 8 * D24;
    var w := id2 % D24 * 8 + inw / D24;
    var id1 := inw % D24 * 8 + id2 / D24;
    id2 := w;
    var i := 9;
    typed := [];
    NothingOffered();
    assert d[..0] == [] && d[0..] + d[..0] == d;
    while i != 0
      invariant 0 <= i == 9 - done && 0 <= id1 < D27 && 0 <= id2 < D27
      invariant id1 + D27 * id2 == Num(d[done..] + d[..done]) && typed == Offered(d[..done])
      decreases i
    {
      ghost var r := d[done..] + d[..done];
      assert r[0] == d[done] && r[1..] + [r[0]] == d[done + 1..] + d[..done + 1]
        && d[..done + 1] == d[..done] + [d[done]];
      Rotated(id1, id2, r);
      typed := Offer(typed, id1, d[..done]);
      i := i - 1;
      w := id2 / 64 + id1 % 64 * D21;
      id1 := id1 / 64 + id2 % 64 * D21;
      id2 := w;
      done := done + 1;
    }
    assert d[..done] == d;
  }

  // The part of an identifier that counts.
  function Nine(s: seq<int>): seq<int> {
    if |s| <= 9 then s else s[..9]
  }

  lemma {:induction false} FillingLeftOut(s: seq<int>, n: nat)
    requires forall i :: 0 <= i < |s| ==> s[i] < 63
    ensures Offered(s + seq(n, _ => 63)) == s
    decreases |s| + n
  {
    if s != [] {
      assert (s + seq(n, _ => 63))[1..] == s[1..] + seq(n, _ => 63);
      FillingLeftOut(s[1..], n);
    } else if n > 0 {
      assert (s + seq(n, _ => 63))[1..] == [] + seq(n - 1, _ => 63);
      FillingLeftOut([], n - 1);
    }
  }

  lemma NineOffered(s: seq<int>)
    requires IsIdentifier(s)
    ensures Offered(NineSymbols(s)) == Nine(s)
  {
    var n := Nine(s);
    assert NineSymbols(s) == n + seq(9 - |n|, _ => 63);
    FillingLeftOut(n, 9 - |n|);
  }

  /**
   A label is typed as its first nine symbols, whatever its length.
   */
  method TypeLabel(inw: int, fnw: int, ghost s: seq<int>) returns (typed: seq<int>)
    requires IsIdentifier(s) && inw == Word1(s) && (5 <= |s| ==> fnw == Word2(s))
    ensures typed == Nine(s)
  {
    hide Word1, Word2;
    LongOnes(s);
    NotNegativeWord(s);
    if inw % 8 == 0 {
      typed := TypeShort(inw, s);
    } else {
      typed := TypeLong(inw, fnw, s);
      NineOffered(s);
    }
  }

  lemma NotNegativeWord(s: seq<int>)
    requires IsIdentifier(s)
    ensures 0 <= Word1(s)
  {
  }

  // Long names with the same words have the same nine symbols.
  lemma {:induction false} NumInjective(d: seq<int>, e: seq<int>)
    requires |d| == |e| && Digits(d) && Digits(e) && Num(d) == Num(e)
    ensures d == e
  {
    if d != [] {
      LastDigit(d);
      LastDigit(e);
      NumInjective(d[1..], e[1..]);
      assert d == [d[0]] + d[1..] && e == [e[0]] + e[1..];
    }
  }

  function Second(s: seq<int>): int {
    if 5 <= |s| then Word2(s) else 0
  }

  // The name list takes two identifiers for the same name exactly when their first nine symbols agree.
  lemma KeysTellNames(s: seq<int>, t: seq<int>)
    requires IsIdentifier(s) && IsIdentifier(t)
    ensures SameName(Word1(s), Second(s), Word1(t), Second(t)) <==> Nine(s) == Nine(t)
  {
    LongOnes(s);
    LongOnes(t);
    if SameName(Word1(s), Second(s), Word1(t), Second(t)) {
      hide Word1, Word2, Num;
      if |s| < 5 {
        SameShort(s, t);
      } else {
        LongDigits(s, Word1(s), Word2(s));
        LongDigits(t, Word1(t), Word2(t));
        NumInjective(NineSymbols(s), NineSymbols(t));
        NineOffered(s);
        NineOffered(t);
      }
    }
    if Nine(s) == Nine(t) {
      NineDecide(s);
      NineDecide(t);
    }
  }

  // Only the first nine symbols enter the words.
  lemma NineDecide(s: seq<int>)
    requires IsIdentifier(s)
    ensures Word1(s) == Word1(Nine(s)) && Second(s) == Second(Nine(s))
  {
  }

  lemma SameShort(s: seq<int>, t: seq<int>)
    requires IsIdentifier(s) && IsIdentifier(t) && |s| <= 4 && |t| <= 4 && Word1(s) == Word1(t)
    ensures s == t
  {
    hide Word1, Num;
    ShortDigits(s);
    ShortDigits(t);
    var d, e := seq(4 - |s|, _ => 0) + s, seq(4 - |t|, _ => 0) + t;
    NumInjective(d, e);
    assert d[4 - |s|] == s[0] && e[4 - |t|] == t[0];
    assert forall j :: 0 <= j < 4 - |s| ==> d[j] == 0;
    assert forall j :: 0 <= j < 4 - |t| ==> e[j] == 0;
    assert s == d[4 - |s|..] && t == e[4 - |t|..];
  }
}
