/**
 The source text between the two scans: the prescan packs three symbols in a word, the main scan
 takes them out again one at a time.
 */
module SymbolText {
  predicate AllSymbols(syms: seq<int>) {
    forall i :: 0 <= i < |syms| ==> 0 <= syms[i] < 128
  }

  // Symbol j; the places behind the last symbol hold zeros.
  function SymbolAt(syms: seq<int>, j: int): int
    requires 0 <= j
  {
    if j < |syms| then syms[j] else 0
  }

  function PackedWord(syms: seq<int>, i: int): int
    requires 0 <= i
  {
    SymbolAt(syms, 3 * i) * 32768 + SymbolAt(syms, 3 * i + 1) * 256 + SymbolAt(syms, 3 * i + 2) * 2
  }

  // The number of symbols in the last word, from the factor the last symbol was multiplied by.
  function Filled(rnsa: int): int {
    if rnsa == 0x400000 then 0 else if rnsa == 32768 then 1 else if rnsa == 256 then 2 else 3
  }

  // The words ws are what the prescan makes of syms; rnsa is the factor of the last symbol.
  predicate Packed(ws: seq<int>, rnsa: int, syms: seq<int>) {
    && AllSymbols(syms)
    && 1 <= |ws| && rnsa in {0x400000, 32768, 256, 2} && |syms| == 3 * |ws| - 3 + Filled(rnsa)
    && forall i :: 0 <= i < |ws| ==> ws[i] == PackedWord(syms, i)
  }

  // What is left of a word when the next symbol stands at factor rnsc.
  function Remaining(w: int, rnsc: int): seq<int>
    requires 0 <= w
  {
    (if rnsc == 32768 then [w / 32768 % 128] else [])
    + (if rnsc >= 256 then [w / 256 % 128] else [])
    + [w / 2 % 128]
  }

  predicate Factor(rnsc: int) {
    rnsc in {32768, 256, 2}
  }

  // The symbols still to be read from the words of the text.
  function Unread(ws: seq<int>, rnsc: int): seq<int>
    requires forall i :: 0 <= i < |ws| ==> 0 <= ws[i]
  {
    if ws == [] then [] else Remaining(ws[0], rnsc) + Unread(ws[1..], 32768)
  }

  lemma WordTakesApart(a: int, b: int, c: int)
    requires 0 <= a < 128 && 0 <= b < 128 && 0 <= c < 128
    ensures var w := a * 32768 + b * 256 + c * 2; w / 32768 % 128 == a && w / 256 % 128 == b && w / 2 % 128 == c
  {
    var w := a * 32768 + b * 256 + c * 2;
    assert w / 2 == a * 16384 + b * 128 + c;
    assert w / 256 == a * 128 + b;
    assert w / 32768 == a;
  }

  // What was packed is what will be read: the text itself, followed by the zeros of the last word.
  lemma {:induction false} PackedIsUnread(ws: seq<int>, syms: seq<int>, k: nat)
    requires AllSymbols(syms)
    requires forall i :: 0 <= i < |ws| ==> ws[i] == PackedWord(syms, k + i)
    ensures forall i :: 0 <= i < |ws| ==> 0 <= ws[i]
    ensures var u := Unread(ws, 32768);
            |u| == 3 * |ws| && forall j :: 0 <= j < |u| ==> u[j] == SymbolAt(syms, 3 * k + j)
    decreases ws
  {
    if ws != [] {
      var a, b, c := SymbolAt(syms, 3 * k), SymbolAt(syms, 3 * k + 1), SymbolAt(syms, 3 * k + 2);
      WordTakesApart(a, b, c);
      forall i | 0 <= i < |ws| - 1 ensures ws[1..][i] == PackedWord(syms, k + 1 + i) {
        assert ws[1..][i] == ws[i + 1];
      }
      PackedIsUnread(ws[1..], syms, k + 1);
      assert Remaining(ws[0], 32768) == [a, b, c];
    }
  }

  // The two scans agree on the text.
  lemma TextComesBack(ws: seq<int>, rnsa: int, syms: seq<int>)
    requires Packed(ws, rnsa, syms)
    ensures forall i :: 0 <= i < |ws| ==> 0 <= ws[i]
    ensures syms <= Unread(ws, 32768)
  {
    hide Unread, PackedWord;
    PackedIsUnread(ws, syms, 0);
    assert |syms| <= 3 * |ws|;
  }

  // Storing one more symbol: it goes into the last word, or opens a new one.
  lemma PackOneMore(ws: seq<int>, rnsa: int, syms: seq<int>, dl: int, now: seq<int>, factor: int)
    requires Packed(ws, rnsa, syms) && 0 <= dl < 128
    requires factor == (if rnsa > 128 then rnsa / 128 else 32768)
    requires if rnsa > 128 then now == ws[|ws| - 1 := ws[|ws| - 1] + dl * factor] else now == ws + [dl * factor]
    ensures Packed(now, factor, syms + [dl])
  {
    forall i | 0 <= i < |now| ensures now[i] == PackedWord(syms + [dl], i) {
      if i < |now| - 1 {
        assert ws[i] == PackedWord(syms, i);
      } else if rnsa > 128 {
        assert ws[i] == PackedWord(syms, i);
      }
    }
  }
}
