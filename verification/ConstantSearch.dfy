/**
 Looking for a constant in the constant list.  A constant is one word (an integer) or two (a real).
 The search runs up to a copy of the constant that was put behind the list, so it always ends.
 */
module ConstantSearch {
  predicate MatchAt(s: seq<int>, word: seq<int>, i: int) {
    0 <= i && i + |word| <= |s| && s[i..i + |word|] == word
  }

  predicate NoMatchBefore(s: seq<int>, word: seq<int>, n: int) {
    forall i :: 0 <= i < n ==> !MatchAt(s, word, i)
  }

  // The first place where word occurs in s, or |s|.
  function FirstMatch(s: seq<int>, word: seq<int>): (i: nat)
    ensures i < |s| ==> MatchAt(s, word, i)
    ensures NoMatchBefore(s, word, i)
  {
    MatchFrom(s, word, 0)
  }

  function MatchFrom(s: seq<int>, word: seq<int>, k: nat): (i: nat)
    requires k <= |s| && NoMatchBefore(s, word, k)
    ensures k <= i <= |s| && (i < |s| ==> MatchAt(s, word, i)) && NoMatchBefore(s, word, i)
    decreases |s| - k
  {
    if k == |s| || MatchAt(s, word, k) then k else MatchFrom(s, word, k + 1)
  }

  lemma FirstMatchIs(s: seq<int>, word: seq<int>, i: nat)
    requires i < |s| && MatchAt(s, word, i) && NoMatchBefore(s, word, i)
    ensures FirstMatch(s, word) == i
  {
  }

  lemma MatchByWords(s: seq<int>, word: seq<int>, i: nat)
    requires |word| in {1, 2} && i + |word| <= |s|
    ensures MatchAt(s, word, i) <==> s[i] == word[0] && (|word| == 1 || s[i + 1] == word[1])
  {
    var part := s[i..i + |word|];
    assert part[0] == s[i] && (|word| == 2 ==> part[1] == s[i + 1]);
  }

  lemma MatchAtEnd(s: seq<int>, word: seq<int>)
    ensures MatchAt(s + word, word, |s|)
  {
  }

  // The constant list after looking for a constant: it is appended unless the search ended earlier.
  function AfterLookup(kli: seq<int>, word: seq<int>): seq<int> {
    if FirstMatch(kli + word, word) == |kli| then kli + word else kli
  }

  // An integer is always found at the returned place, and is never entered twice.
  lemma IntegerLookup(kli: seq<int>, n: int)
    ensures var i := FirstMatch(kli + [n], [n]);
            && i < |AfterLookup(kli, [n])| && AfterLookup(kli, [n])[i] == n
            && AfterLookup(kli, [n]) == (if n in kli then kli else kli + [n])
            && n !in kli[..i]
  {
    var s := kli + [n];
    var i := FirstMatch(s, [n]);
    MatchAtEnd(kli, [n]);
    forall j | 0 <= j < |s| ensures MatchAt(s, [n], j) <==> s[j] == n {
      assert s[j..j + 1] == [s[j]];
    }
    forall j | 0 <= j < i ensures kli[j] != n {
      assert !MatchAt(s, [n], j) && s[j] == kli[j];
    }
  }

  // The place returned for a real holds that real.
  predicate Found(kli: seq<int>, word: seq<int>) {
    MatchAt(AfterLookup(kli, word), word, FirstMatch(kli + word, word))
  }

  // For a real the search can end one place too early, across the end of the list.  This happens
  // exactly when the real is not in the list, both its words are equal, and so is the last word
  // of the list.
  lemma RealLookup(kli: seq<int>, fnw: int, inw: int)
    ensures Found(kli, [fnw, inw])
        <==> !(fnw == inw && kli != [] && kli[|kli| - 1] == fnw && FirstMatch(kli, [fnw, inw]) == |kli|)
  {
    var word := [fnw, inw];
    var s, last := kli + word, |kli| - 1;
    MatchAtEnd(kli, word);
    SameMatches(kli, word);
    assert FirstMatch(kli, word) < |kli| ==> MatchAt(s, word, FirstMatch(kli, word));
    if kli != [] {
      assert s[last..last + 2] == [kli[last], fnw];
      assert MatchAt(s, word, last) <==> kli[last] == fnw == inw;
    }
  }

  // Inside the list nothing changes when words are put behind it.
  lemma SameMatches(kli: seq<int>, word: seq<int>)
    requires |word| == 2
    ensures forall j :: 0 <= j < |kli| - 1 ==> (MatchAt(kli, word, j) <==> MatchAt(kli + word, word, j))
  {
    forall j | 0 <= j < |kli| - 1 ensures MatchAt(kli, word, j) <==> MatchAt(kli + word, word, j) {
      assert (kli + word)[j..j + 2] == kli[j..j + 2];
    }
  }

  // A list and a real for which the search fails: the literal 33556532 and behind it the literal
  // 2251940775854080, a real whose two words are both 33556532 (its exponent in the lowest digits).
  lemma RealLookupFails()
    ensures !Found([33556532], [33556532, 33556532])
  {
    assert FirstMatch([33556532], [33556532, 33556532]) == 1;
    RealLookup([33556532], 33556532, 33556532);
  }
}
