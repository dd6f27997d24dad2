/**
 The list the prescan makes of the names of every block: two segments for each block, threaded
 through the store by links from head to head, the last one ending at the fixed place plie.
 */
module PrescanList {
  import opened WordStore

  // The words of the segments in the store, from address h on: every head names the next one.
  function Image(h: int, list: seq<seq<int>>): seq<int>
    decreases |list|
  {
    if list == [] then []
    else
      var next := h + 1 + |list[0]|;
      [next] + list[0] + Image(next, list[1..])
  }

  // The same with the first s links lowered by d.
  function Lowered(h: int, list: seq<seq<int>>, s: nat, d: int): seq<int>
    decreases s
  {
    if list == [] || s == 0 then Image(h, list)
    else
      var next := h + 1 + |list[0]|;
      [next - d] + list[0] + Lowered(next, list[1..], s - 1, d)
  }

  // How far head s is behind the first one.
  function Depth(list: seq<seq<int>>, s: nat): nat
    requires s <= |list|
    decreases s
  {
    if s == 0 then 0 else 1 + |list[0]| + Depth(list[1..], s - 1)
  }

  lemma {:induction false} LoweredLink(h: int, list: seq<seq<int>>, s: nat, d: int)
    requires s < |list|
    ensures Depth(list, s) < Depth(list, s + 1) <= |Lowered(h, list, s, d)| == |Lowered(h, list, s + 1, d)|
    ensures Lowered(h, list, s, d)[Depth(list, s)] == h + Depth(list, s + 1)
    ensures Lowered(h, list, s + 1, d) == Lowered(h, list, s, d)[Depth(list, s) := h + Depth(list, s + 1) - d]
    decreases s
  {
    hide Image, Lowered, Depth;
    var next := h + 1 + |list[0]|;
    DeeperDepth(list, s);
    OneSegment(h, list, s, d);
    LoweredMore(h, list, s, d);
    if s == 0 {
      DepthZero(list[1..], next, d);
    } else {
      LoweredLink(next, list[1..], s - 1, d);
      var a, k := [next - d] + list[0], Depth(list[1..], s - 1);
      var b := Lowered(next, list[1..], s - 1, d);
      assert (a + b)[|a| + k := b[k] - d] == a + b[k := b[k] - d];
    }
  }

  lemma LoweredMore(h: int, list: seq<seq<int>>, s: nat, d: int)
    requires s < |list|
    ensures var next := h + 1 + |list[0]|;
            Lowered(h, list, s + 1, d) == [next - d] + list[0] + Lowered(next, list[1..], s, d)
  {
  }

  lemma DeeperDepth(list: seq<seq<int>>, s: nat)
    requires s < |list|
    ensures Depth(list, s + 1) == 1 + |list[0]| + Depth(list[1..], s)
  {
  }

  lemma DepthZero(list: seq<seq<int>>, h: int, d: int)
    ensures Depth(list, 0) == 0 && Lowered(h, list, 0, d) == Image(h, list)
  {
  }

  // Words entered behind head s, with the cells in front of them moved down: the list as it should be.
  lemma {:induction false} Entered(h: int, list: seq<seq<int>>, s: nat, words: seq<int>)
    requires s < |list|
    ensures var l, k := Lowered(h, list, s, |words|), Depth(list, s) + 1;
            && k <= |l|
            && Image(h - |words|, list[s := words + list[s]]) == l[..k] + words + l[k..]
    decreases s
  {
    hide Image, Lowered, Depth;
    var d, next := |words|, h + 1 + |list[0]|;
    var list2 := list[s := words + list[s]];
    OneSegment(h, list, s, d);
    if s == 0 {
      assert list2[1..] == list[1..];
      OneSegment(h - d, list2, 0, d);
      InFront([next], words, list[0], Image(next, list[1..]));
    } else {
      Entered(next, list[1..], s - 1, words);
      assert list2[1..] == list[1..][s - 1 := words + list[1..][s - 1]] && list2[0] == list[0];
      OneSegment(h - d, list2, s, d);
      Deeper([next - d] + list[0], Lowered(next, list[1..], s - 1, d), Depth(list[1..], s - 1) + 1, words);
    }
  }

  lemma InFront(a: seq<int>, words: seq<int>, b: seq<int>, r: seq<int>)
    requires |a| == 1
    ensures a + (words + b) + r == (a + b + r)[..1] + words + (a + b + r)[1..]
  {
    assert (a + b + r)[..1] == a && (a + b + r)[1..] == b + r;
  }

  lemma Deeper(a: seq<int>, l: seq<int>, k: nat, words: seq<int>)
    requires k <= |l|
    ensures a + (l[..k] + words + l[k..]) == (a + l)[..|a| + k] + words + (a + l)[|a| + k..]
  {
    assert (a + l)[..|a| + k] == a + l[..k] && (a + l)[|a| + k..] == l[k..];
  }

  lemma OneSegment(h: int, list: seq<seq<int>>, s: nat, d: int)
    requires s < |list|
    ensures var next := h + 1 + |list[0]|;
            && Image(h, list) == [next] + list[0] + Image(next, list[1..])
            && Lowered(h, list, s, d)
               == (if s == 0 then Image(h, list) else [next - d] + list[0] + Lowered(next, list[1..], s - 1, d))
            && Depth(list, s) == if s == 0 then 0 else 1 + |list[0]| + Depth(list[1..], s - 1)
  {
  }

  lemma {:induction false} TwoSegments(h: int, list: seq<seq<int>>, more: seq<seq<int>>)
    ensures Image(h, list + more) == Image(h, list) + Image(h + |Image(h, list)|, more)
    decreases list
  {
    if list == [] {
      assert [] + more == more;
    } else {
      var next := h + 1 + |list[0]|;
      assert (list + more)[1..] == list[1..] + more;
      TwoSegments(next, list[1..], more);
      var a := [next] + list[0];
      assert |a + Image(next, list[1..])| == |a| + |Image(next, list[1..])|;
    }
  }

  // A segment is a list of names: one word, or two when the last three digits of the first are not 0.
  predicate NamesOnly(ws: seq<int>)
    decreases |ws|
  {
    ws == [] || if ws[0] % 8 == 0 then NamesOnly(ws[1..]) else 2 <= |ws| && NamesOnly(ws[2..])
  }

  // What the names of a segment become in the name list: the words in reverse, and what is known.
  function Entries(ws: seq<int>, known: int): seq<int>
    requires NamesOnly(ws)
    decreases |ws|
  {
    if ws == [] then []
    else if ws[0] % 8 == 0 then [ws[0], known] + Entries(ws[1..], known)
    else [ws[1], ws[0], known] + Entries(ws[2..], known)
  }

  class Prescan {
    const store: array<int>
    const plie: int
    var plib: int
    var bc: nat
    ghost var segs: seq<seq<int>>

    // The segments lie in the store from plib up to plie, whose cell is always ready for new ones.
    ghost predicate Valid()
      reads this, store
    {
      Holds(store, plib, plie + 1, Image(plib, segs) + [plie - 1])
    }

    // Every segment can be taken apart into names again.
    ghost predicate AllNames()
      reads this
    {
      forall i :: 0 <= i < |segs| ==> NamesOnly(segs[i])
    }

    // The prescan begins: only the cell plie, and then two empty segments for the program itself.
    constructor (memory: array<int>, last: int)
      requires 2 <= last < memory.Length
      modifies memory
      ensures store == memory && plie == last && bc == 0 && segs == [[], []]
      ensures Valid() && AllNames() && plib == plie - 2
      ensures forall k :: 0 <= k < memory.Length && !(plib <= k <= plie) ==> memory[k] == old(memory[k])
    {
      store, plie, plib, bc, segs := memory, last, last, 0, [];
      new;
      store[plie] := plie - 1;
      assert [] + [plie - 1] == [plie - 1];
      AugmentPrescanList();
    }

    // The links in front of segment s give way by d places.
    method LowerLinks(s: nat, d: int) returns (j: int)
      requires Valid() && s <= |segs|
      modifies store
      ensures Holds(store, plib, plie + 1, Lowered(plib, segs, s, d) + [plie - 1])
      ensures j == plib + Depth(segs, s) <= plie && |Lowered(plib, segs, s, d)| == plie - plib
      ensures forall k :: 0 <= k < store.Length && !(plib <= k <= plie) ==> store[k] == old(store[k])
    {
      hide Lowered, Image, Depth;
      Start(d);
      j := plib;
      for t := 0 to s
        invariant Holds(store, plib, plie + 1, Lowered(plib, segs, t, d) + [plie - 1])
                  && j == plib + Depth(segs, t) <= plie
        invariant forall k :: 0 <= k < store.Length && !(plib <= k <= plie) ==> store[k] == old(store[k])
      {
        LoweredLink(plib, segs, t, d);
        ghost var l := Lowered(plib, segs, t, d);
        ghost var x := Depth(segs, t);
        assert (l + [plie - 1])[x] == l[x];
        assert (l + [plie - 1])[x := l[x] - d] == l[x := l[x] - d] + [plie - 1];
        var k := store[j];
        store[j] := k - d;
        j := k;
      }
    }

    lemma Start(d: int)
      ensures Lowered(plib, segs, 0, d) == Image(plib, segs) && Depth(segs, 0) == 0
    {
    }

    // Moves the cells from..upto down by d places.
    method ShiftDown(from: int, upto: int, d: int)
      requires 0 <= from - d <= from <= upto + 1 <= store.Length && 0 <= d
      modifies store
      ensures forall k :: from - d <= k <= upto - d ==> store[k] == old(store[k + d])
      ensures forall k :: 0 <= k < store.Length && !(from - d <= k <= upto - d) ==> store[k] == old(store[k])
    {
      for k := from - d to upto - d + 1
        invariant forall i :: from - d <= i < k ==> store[i] == old(store[i + d])
        invariant forall i :: 0 <= i < store.Length && !(from - d <= i < k) ==> store[i] == old(store[i])
      {
        store[k] := store[k + d];
      }
    }

    static function NameWords(dflag: int, inw: int, fnw: int): seq<int> {
      if dflag == 0 then [inw] else [inw, fnw]
    }

    // The cells from..j move down, and one or two words are entered behind them.
    method OpenGap(j: int, dflag: int, inw: int, fnw: int, ghost l: seq<int>)
      requires Holds(store, plib, plie + 1, l) && plib <= j <= plie && dflag in {0, 1} && dflag < plib
      modifies store
      ensures var k := j + 1 - plib;
              Holds(store, plib - dflag - 1, plie + 1, l[..k] + NameWords(dflag, inw, fnw) + l[k..])
      ensures forall k :: 0 <= k < store.Length && !(plib - dflag - 1 <= k <= plie) ==> store[k] == old(store[k])
    {
      var d := dflag + 1;
      ghost var k, from := j + 1 - plib, plib - d;
      ShiftDown(plib, j, d);
      PutWords(j - dflag, dflag, inw, fnw);
      forall x | 0 <= x < |l| ensures store[if x < k then from + x else from + d + x] == l[x] {
        assert l[x] == old(store[plib + x]);
      }
      GapFilled(store, from, l, k, NameWords(dflag, inw, fnw));
    }

    method PutWords(from: int, dflag: int, inw: int, fnw: int)
      requires dflag in {0, 1} && 0 <= from && from + dflag < store.Length
      modifies store
      ensures Holds(store, from, from + dflag + 1, NameWords(dflag, inw, fnw))
      ensures forall k :: 0 <= k < store.Length && !(from <= k <= from + dflag) ==> store[k] == old(store[k])
    {
      store[from] := inw;
      if dflag != 0 {
        store[from + 1] := fnw;
      }
    }

    // Words in a list whose parts stand on both sides of them.
    static lemma GapFilled(store: array<int>, from: int, l: seq<int>, k: nat, words: seq<int>)
      requires k <= |l| && 0 <= from && from + |l| + |words| <= store.Length
      requires forall x :: 0 <= x < |l| ==> store[if x < k then from + x else from + |words| + x] == l[x]
      requires Holds(store, from + k, from + k + |words|, words)
      ensures Holds(store, from, from + |l| + |words|, l[..k] + words + l[k..])
    {
      var m := l[..k] + words + l[k..];
      forall x | 0 <= x < |m| ensures store[from + x] == m[x] {
        if x < k {
          assert l[x] == m[x];
        } else if x < k + |words| {
          assert store[from + k + (x - k)] == words[x - k];
        } else {
          assert l[x - |words|] == m[x];
        }
      }
    }

    // One or two words behind head s, or behind the last cell when s is the number of segments.
    method EnterWords(s: nat, dflag: int, inw: int, fnw: int)
      requires Valid() && dflag in {0, 1} && s <= |segs| && dflag < plib
      modifies this`plib, store
      ensures plib == old(plib) - dflag - 1
      ensures var l, k := Lowered(old(plib), segs, s, dflag + 1) + [plie - 1], Depth(segs, s) + 1;
              k <= |l| && Holds(store, plib, plie + 1, l[..k] + NameWords(dflag, inw, fnw) + l[k..])
      ensures forall k :: 0 <= k < store.Length && !(plib <= k <= plie) ==> store[k] == old(store[k])
    {
      hide Image, Lowered, Depth, Holds, NameWords;
      ghost var l := Lowered(plib, segs, s, dflag + 1) + [plie - 1];
      var j := LowerLinks(s, dflag + 1);
      OpenGap(j, dflag, inw, fnw, l);
      plib := plib - dflag - 1;
    }

    // One or two words in front of names, when the low digits of the first say which.
    static lemma OneName(dflag: int, inw: int, fnw: int, names: seq<int>)
      ensures dflag in {0, 1} && NamesOnly(names) && (dflag == 0 <==> inw % 8 == 0)
              ==> NamesOnly(NameWords(dflag, inw, fnw) + names)
    {
      assert ([inw] + names)[1..] == names && ([inw, fnw] + names)[2..] == names;
    }

    /**
     Enters a name of one or two words at the front of segment 2 * bc + n; every other segment keeps
     its names.
     */
    method FillPrescanList(n: nat, dflag: int, inw: int, fnw: int)
      requires Valid() && dflag in {0, 1} && 2 * bc + n < |segs| && dflag < plib
      modifies this`plib, this`segs, store
      ensures segs == old(segs[2 * bc + n := NameWords(dflag, inw, fnw) + segs[2 * bc + n]])
      ensures Valid() && plib == old(plib) - dflag - 1
      ensures old(AllNames()) && (dflag == 0 <==> inw % 8 == 0) ==> AllNames()
      ensures forall k :: 0 <= k < store.Length && !(plib <= k <= plie) ==> store[k] == old(store[k])
    {
      hide Image, Lowered, Depth, Holds, NamesOnly;
      OneName(dflag, inw, fnw, segs[2 * bc + n]);
      ghost var s, words := 2 * bc + n, NameWords(dflag, inw, fnw);
      ghost var l, k := Lowered(plib, segs, s, dflag + 1), Depth(segs, s) + 1;
      Entered(plib, segs, s, words);
      EnterWords(2 * bc + n, dflag, inw, fnw);
      assert (l + [plie - 1])[..k] == l[..k] && (l + [plie - 1])[k..] == l[k..] + [plie - 1];
      assert l[..k] + words + (l[k..] + [plie - 1]) == (l[..k] + words + l[k..]) + [plie - 1];
      segs := segs[s := words + segs[s]];
    }

    /**
     Two empty segments for a new block.  The last cell, plie, is taken along as the head of the first
     of them.
     */
    method AugmentPrescanList()
      requires Valid() && |segs| == 2 * bc && 2 <= plib
      modifies this`plib, this`segs, store
      ensures segs == old(segs) + [[], []]
      ensures Valid() && plib == old(plib) - 2 && (old(AllNames()) ==> AllNames())
      ensures forall k :: 0 <= k < store.Length && !(plib <= k <= plie) ==> store[k] == old(store[k])
    {
      hide Image, Lowered, Depth;
      AllLowered(plib, segs, 2);
      EmptyTwo(plie - 2);
      TwoSegments(plib - 2, segs, [[], []]);
      DepthOfAll(plib, segs);
      ImageLength(plib, plib - 2, segs);
      ghost var i := Image(plib - 2, segs);
      EnterWords(2 * bc, 1, plie, plie - 1);
      assert (i + [plie - 1])[..|i| + 1] == i + [plie - 1] && (i + [plie - 1])[|i| + 1..] == [];
      assert i + [plie - 1] + [plie, plie - 1] + [] == (i + [plie - 1, plie]) + [plie - 1];
      segs := segs + [[], []];
    }

    static lemma {:induction false} ImageLength(h: int, other: int, list: seq<seq<int>>)
      ensures |Image(h, list)| == |Image(other, list)|
      decreases list
    {
      if list != [] {
        ImageLength(h + 1 + |list[0]|, other + 1 + |list[0]|, list[1..]);
      }
    }

    static lemma {:induction false} DepthOfAll(h: int, list: seq<seq<int>>)
      ensures Depth(list, |list|) == |Image(h, list)|
      decreases list
    {
      if list != [] {
        DepthOfAll(h + 1 + |list[0]|, list[1..]);
      }
    }

    // With every link lowered the list is ready to lie d places further down.
    static lemma {:induction false} AllLowered(h: int, list: seq<seq<int>>, d: int)
      ensures Lowered(h, list, |list|, d) == Image(h - d, list)
      decreases list
    {
      if list != [] {
        AllLowered(h + 1 + |list[0]|, list[1..], d);
      }
    }

    static lemma EmptyTwo(h: int)
      ensures Image(h, [[], []]) == [h + 1, h + 2]
    {
      var two: seq<seq<int>> := [[], []];
      var one: seq<seq<int>> := [[]];
      assert two[1..] == one && one[1..] == [];
      assert Image(h + 1, one) == [h + 2] + [] + Image(h + 2, one[1..]);
    }

    var nlib: int
    var nlsc: int
    ghost var names: seq<int>

    // The name list below the segments.
    ghost predicate WithNames()
      reads this, store
    {
      Valid() && Holds(store, nlib, nlib + nlsc, names) && nlib + nlsc <= plib
    }

    // A name from address i is entered in the name list.  Returns 15 when it would run into what is
    // still to be read.
    method MoveName(i: int, known: int, ghost ws: seq<int>, ghost upto: int) returns (stop: nat, next: int)
      requires Holds(store, i, upto, ws) && ws != [] && NamesOnly(ws)
      requires Holds(store, nlib, nlib + nlsc, names) && nlib + nlsc <= i
      modifies this`nlsc, this`names, store
      ensures stop in {0, 15} && next == i + (if old(store[i]) % 8 == 0 then 1 else 2)
      ensures stop == 0 <==> old(nlsc) + nlib + (if old(store[i]) % 8 == 0 then 2 else 3) <= next
      ensures var n := if ws[0] % 8 == 0 then 1 else 2;
              stop == 0 ==>
                && names == old(names) + (if n == 1 then [ws[0], known] else [ws[1], ws[0], known])
                && Holds(store, nlib, nlib + nlsc, names) && nlib + nlsc <= next
      ensures stop == 0 ==> forall k :: next <= k < store.Length ==> store[k] == old(store[k])
    {
      var w := store[i];
      next := i;
      if w % 8 == 0 {
        next := next + 1;
      } else {
        store[nlib + nlsc] := store[next + 1];
        next := next + 2;
        nlsc := nlsc + 1;
      }
      store[nlib + nlsc] := w;
      nlsc := nlsc + 2;
      if nlib + nlsc > next {
        return 15, next;
      }
      store[nlib + nlsc - 1] := known;
      names := names + if w % 8 == 0 then [w, known] else [ws[1], w, known];
      stop := 0;
    }

    // The names in from..upto go to the name list, in their order.
    method MoveNames(from: int, upto: int, known: int, ghost ws: seq<int>) returns (stop: nat)
      requires Holds(store, from, upto, ws) && NamesOnly(ws)
      requires Holds(store, nlib, nlib + nlsc, names) && nlib + nlsc <= from
      modifies this`nlsc, this`names, store
      ensures stop in {0, 15}
      ensures stop == 0 ==> names == old(names) + Entries(ws, known)
      ensures stop == 0 ==> Holds(store, nlib, nlib + nlsc, names) && nlib + nlsc <= upto
      ensures stop == 0 ==> forall k :: upto <= k < store.Length ==> store[k] == old(store[k])
    {
      hide Entries, NamesOnly;
      ghost var rest := ws;
      var i := from;
      while i != upto
        invariant i <= upto && Holds(store, i, upto, rest) && NamesOnly(rest)
        invariant names + Entries(rest, known) == old(names) + Entries(ws, known)
        invariant Holds(store, nlib, nlib + nlsc, names) && nlib + nlsc <= i
        invariant forall k :: upto <= k < store.Length ==> store[k] == old(store[k])
        decreases upto - i
      {
        FirstName(rest, known);
        stop, i := MoveName(i, known, rest, upto);
        if stop != 0 {
          return;
        }
        rest := if rest[0] % 8 == 0 then rest[1..] else rest[2..];
      }
      NoName(known);
      stop := 0;
    }

    static lemma NoName(known: int)
      ensures NamesOnly([]) && Entries([], known) == []
    {
    }

    static lemma FirstName(ws: seq<int>, known: int)
      requires NamesOnly(ws) && ws != []
      ensures ws[0] % 8 != 0 ==> 2 <= |ws|
      ensures var n := if ws[0] % 8 == 0 then 1 else 2;
              && NamesOnly(ws[n..])
              && Entries(ws, known)
                 == (if n == 1 then [ws[0], known] else [ws[1], ws[0], known]) + Entries(ws[n..], known)
    {
    }

    // The names of the first segment go to the name list.
    method MoveSegment(known: int) returns (stop: nat)
      requires WithNames() && segs != [] && NamesOnly(segs[0])
      modifies this`plib, this`segs, this`nlsc, this`names, store
      ensures stop in {0, 15}
      ensures stop == 0 ==> WithNames() && segs == old(segs[1..]) && names == old(names) + Entries(old(segs[0]), known)
    {
      hide Image, Entries, NamesOnly;
      FirstSegment(plib, segs);
      var i := plib;
      plib := store[i];
      stop := MoveNames(i + 1, plib, known, segs[0]);
      segs := segs[1..];
    }

    // The first head, the first segment, and the list of the others.
    lemma FirstSegment(h: int, list: seq<seq<int>>)
      requires list != [] && Holds(store, h, plie + 1, Image(h, list) + [plie - 1])
      ensures var next := h + 1 + |list[0]|;
              && store[h] == next && Holds(store, h + 1, next, list[0])
              && Holds(store, next, plie + 1, Image(next, list[1..]) + [plie - 1]) && h < next <= plie
    {
      var next := h + 1 + |list[0]|;
      var a, b := [next] + list[0], Image(next, list[1..]) + [plie - 1];
      var c := Image(h, list) + [plie - 1];
      assert c == a + b;
      hide Image;
      assert store[h + 0] == c[0];
      forall k | 0 <= k < |list[0]| ensures store[h + 1 + k] == list[0][k] {
        assert store[h + (1 + k)] == c[1 + k] == list[0][k];
      }
      forall k | 0 <= k < |b| ensures store[next + k] == b[k] {
        assert store[h + (|a| + k)] == c[|a| + k] == b[k];
      }
    }

    /**
     The names of a new block: those of the first segment are known as labels and such, those of the
     second as procedures.
     */
    method IntroNewBlock(bn: int) returns (stop: nat)
      requires WithNames() && 2 <= |segs| && NamesOnly(segs[0]) && NamesOnly(segs[1])
      modifies this`plib, this`segs, this`nlsc, this`names, store
      ensures stop in {0, 15}
      ensures stop == 0 ==>
                && WithNames() && segs == old(segs[2..])
                && names == old(names) + Entries(old(segs[0]), bn * 0x80000 + 0x20000 + 0x8000)
                                       + Entries(old(segs[1]), bn * 0x80000 + 0x40000 + 0x8000)
    {
      ghost var all := segs;
      assert all[1..][1..] == all[2..] && all[1..][0] == all[1];
      stop := MoveSegment(bn * 0x80000 + 0x20000 + 0x8000);
      if stop == 0 {
        stop := MoveSegment(bn * 0x80000 + 0x40000 + 0x8000);
      }
    }
  }
}
