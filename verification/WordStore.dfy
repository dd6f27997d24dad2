/**
 Words of 27 digits, and stretches of such words in the store.
 */
module WordStore {
  import opened Bits

  const STORE_SIZE := 12288

  predicate AllWords(ws: seq<int>) {
    forall k :: 0 <= k < |ws| ==> 0 <= ws[k] < 0x8000000
  }

  // The words from..upto of the store are s.
  ghost predicate Holds(store: array<int>, from: int, upto: int, s: seq<int>)
    reads store
  {
    0 <= from <= upto <= store.Length && |s| == upto - from && forall k :: 0 <= k < |s| ==> store[from + k] == s[k]
  }

  // Words are read back from the last to the first.
  function WordBits(ws: seq<int>): seq<bit>
    requires AllWords(ws)
  {
    if ws == [] then [] else BitsOf(ws[|ws| - 1], 27) + WordBits(ws[..|ws| - 1])
  }

  lemma WordBitsAppend(ws: seq<int>, w: int)
    requires AllWords(ws) && 0 <= w < 0x8000000
    ensures AllWords(ws + [w]) && WordBits(ws + [w]) == BitsOf(w, 27) + WordBits(ws)
  {
    assert (ws + [w])[..|ws|] == ws;
  }

  // The stream when the code c in front of the stock s fills a word x and leaves the digits h.
  lemma WordFilled(ws: seq<int>, c: seq<bit>, s: seq<bit>, h: seq<bit>, x: int)
    requires AllWords(ws) && 0 <= x < 0x8000000 && h + BitsOf(x, 27) == c + s
    ensures AllWords(ws + [x]) && h + WordBits(ws + [x]) == c + (s + WordBits(ws))
  {
    WordBitsAppend(ws, x);
    Regroup(h, BitsOf(x, 27), WordBits(ws));
    Regroup(c, s, WordBits(ws));
  }

  lemma {:induction false} WordBitsLength(ws: seq<int>)
    requires AllWords(ws)
    ensures |WordBits(ws)| == 27 * |ws|
    decreases ws
  {
    if ws != [] {
      WordBitsLength(ws[..|ws| - 1]);
    }
  }

  // The first word is read last.
  lemma {:induction false} FirstWordLast(x: int, ws: seq<int>)
    requires 0 <= x < 0x8000000 && AllWords(ws)
    ensures AllWords([x] + ws) && WordBits([x] + ws) == WordBits(ws) + BitsOf(x, 27)
    decreases ws
  {
    hide BitsOf;
    var s := [x] + ws;
    if ws == [] {
      assert s[..0] == [] && s == [x];
    } else {
      var last, front := ws[|ws| - 1], ws[..|ws| - 1];
      assert s[|s| - 1] == last && s[..|s| - 1] == [x] + front;
      FirstWordLast(x, front);
      Regroup(BitsOf(last, 27), WordBits(front), BitsOf(x, 27));
    }
  }
}
