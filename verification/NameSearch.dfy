/**
 Looking for a name: the name list is searched from its end, so that an identifier means what its latest
 declaration says, which is that of the innermost block.
 */
module NameSearch {
  import opened WordStore
  import opened IdentifierKeys
  import opened PrescanList

  // An entry; the second word is there only when the low digits of the first say so.
  datatype Declaration = Declaration(first: int, second: int, id: int)

  predicate Short(w: int) {
    w % 8 == 0
  }

  function Cells(d: Declaration): (c: seq<int>)
    ensures |c| == if Short(d.first) then 2 else 3
  {
    if Short(d.first) then [d.first, d.id] else [d.second, d.first, d.id]
  }

  // The name list.
  function Flat(ds: seq<Declaration>): seq<int> {
    if ds == [] then [] else Flat(ds[..|ds| - 1]) + Cells(ds[|ds| - 1])
  }

  predicate Declares(d: Declaration, inw: int, fnw: int) {
    SameName(inw, fnw, d.first, d.second)
  }

  // The last declaration of the name in these words; -1 when there is none.
  function Latest(ds: seq<Declaration>, inw: int, fnw: int): (k: int)
    ensures -1 <= k < |ds| && (0 <= k ==> Declares(ds[k], inw, fnw))
    ensures forall j :: k < j < |ds| ==> !Declares(ds[j], inw, fnw)
  {
    if ds == [] then -1
    else if Declares(ds[|ds| - 1], inw, fnw) then |ds| - 1
    else Latest(ds[..|ds| - 1], inw, fnw)
  }

  lemma LastCells(ds: seq<Declaration>, n: nat)
    requires 0 < n <= |ds|
    ensures Flat(ds[..n]) == Flat(ds[..n - 1]) + Cells(ds[n - 1])
  {
    assert ds[..n][..n - 1] == ds[..n - 1];
  }

  lemma {:induction false} PrefixCells(ds: seq<Declaration>, n: nat)
    requires n <= |ds|
    ensures Flat(ds[..n]) <= Flat(ds)
    decreases |ds| - n
  {
    if n < |ds| {
      PrefixCells(ds, n + 1);
      LastCells(ds, n + 1);
    } else {
      assert ds[..n] == ds;
    }
  }

  // The last declaration of the first n, in the store.
  lemma EntryHeld(store: array<int>, nlib: int, nlsc: int, ds: seq<Declaration>, n: nat)
    requires 0 < n <= |ds| && Holds(store, nlib, nlib + nlsc, Flat(ds))
    ensures var i, d := nlib + |Flat(ds[..n])|, ds[n - 1];
            && nlib + 2 <= i <= nlib + nlsc && store[i - 1] == d.id && store[i - 2] == d.first
            && (!Short(d.first) ==> nlib + 3 <= i && store[i - 3] == d.second)
            && |Flat(ds[..n - 1])| == |Flat(ds[..n])| - if Short(d.first) then 2 else 3
  {
    hide Flat, Short;
    LastCells(ds, n);
    PrefixCells(ds, n);
    var c, m := Cells(ds[n - 1]), nlib + |Flat(ds[..n - 1])|;
    PartHeld(store, nlib, nlsc, Flat(ds), Flat(ds[..n - 1]), c);
    var held, d, i := store[m..m + |c|], ds[n - 1], m + |c|;
    assert i == nlib + |Flat(ds[..n])|;
    if Short(d.first) {
      assert held[0] == store[i - 2] && held[1] == store[i - 1];
    } else {
      assert held[0] == store[i - 3] && held[1] == store[i - 2] && held[2] == store[i - 1];
    }
  }

  // Cells of a list that follow its first part.
  lemma PartHeld(store: array<int>, nlib: int, nlsc: int, list: seq<int>, part: seq<int>, c: seq<int>)
    requires Holds(store, nlib, nlib + nlsc, list) && part + c <= list
    ensures 0 <= nlib <= nlib + |part| + |c| <= nlib + nlsc <= store.Length
    ensures store[nlib + |part|..nlib + |part| + |c|] == c
  {
    forall k | 0 <= k < |c| ensures store[nlib + |part| + k] == c[k] {
      assert store[nlib + (|part| + k)] == list[|part| + k] == (part + c)[|part| + k];
    }
  }

  // The list is never empty: it begins with the names of the standard functions.
  method LookForName(store: array<int>, nlib: int, nlsc: int, inw: int, fnw: int, ghost ds: seq<Declaration>)
    returns (stop: nat, nid: int, id: int, pflag: int, jflag: int, fflag: int)
    requires ds != [] && Holds(store, nlib, nlib + nlsc, Flat(ds))
    ensures var k := Latest(ds, inw, fnw);
            && stop == (if k < 0 then 7 else 0)
            && (0 <= k ==>
                  && nid == |Flat(ds[..k + 1])| - 1 && id == ds[k].id
                  && pflag == id / 0x40000 % 2 && jflag == id / 0x20000 % 2 && fflag == id / 0x10000 % 2)
  {
    hide Flat, Latest;
    var i := nlib + nlsc;
    ghost var n := |ds|;
    assert ds[..n] == ds;
    stop, nid, id, pflag, jflag, fflag := 7, 0, 0, 0, 0, 0;
    while true
      invariant 0 < n <= |ds| && i == nlib + |Flat(ds[..n])| && stop == 7
      invariant forall j :: n <= j < |ds| ==> !Declares(ds[j], inw, fnw)
      decreases n
    {
      EntryHeld(store, nlib, nlsc, ds, n);
      var w := store[i - 2];
      if w == inw && (w % 8 == 0 || store[i - 3] == fnw) {
        break;
      }
      i := if w % 8 == 0 then i - 2 else i - 3;
      n := n - 1;
      EmptyFirst(ds, n);
      if i <= nlib {
        return;
      }
    }
    LatestIs(ds, inw, fnw, n - 1);
    stop, nid, id := 0, i - nlib - 1, store[i - 1];
    pflag, jflag, fflag := id / 0x40000 % 2, id / 0x20000 % 2, id / 0x10000 % 2;
  }

  lemma EmptyFirst(ds: seq<Declaration>, n: nat)
    requires n <= |ds|
    ensures |Flat(ds[..n])| == 0 <==> n == 0
  {
    if n > 0 {
      LastCells(ds, n);
    }
  }

  lemma LatestIs(ds: seq<Declaration>, inw: int, fnw: int, k: nat)
    requires k < |ds| && Declares(ds[k], inw, fnw) && forall j :: k < j < |ds| ==> !Declares(ds[j], inw, fnw)
    ensures Latest(ds, inw, fnw) == k
  {
    hide Latest, Declares;
  }

  // The entries ds are those of the identifiers ss, in order.
  predicate Keyed(ds: seq<Declaration>, ss: seq<seq<int>>) {
    && |ds| == |ss|
    && forall i :: 0 <= i < |ss| ==> IsIdentifier(ss[i]) && ds[i].first == Word1(ss[i]) && ds[i].second == Second(ss[i])
  }

  /**
   The declaration found for an identifier is the last one of an identifier with the same first nine symbols,
   and nothing is found exactly when there is none.
   */
  lemma DeclarationFound(ds: seq<Declaration>, ss: seq<seq<int>>, s: seq<int>)
    requires Keyed(ds, ss) && IsIdentifier(s)
    ensures var k := Latest(ds, Word1(s), Second(s));
            && (0 <= k ==> Nine(ss[k]) == Nine(s))
            && forall j :: k < j < |ss| ==> Nine(ss[j]) != Nine(s)
  {
    hide Latest, Word1, Second, Nine, SameName;
    forall j | 0 <= j < |ss| ensures Declares(ds[j], Word1(s), Second(s)) <==> Nine(s) == Nine(ss[j]) {
      KeysTellNames(s, ss[j]);
    }
  }

  // An inner declaration hides those of the blocks around it.
  lemma {:induction false} InnerFirst(outer: seq<Declaration>, inner: seq<Declaration>, inw: int, fnw: int)
    ensures var k := Latest(inner, inw, fnw);
            Latest(outer + inner, inw, fnw) == if 0 <= k then |outer| + k else Latest(outer, inw, fnw)
  {
    hide Declares;
    var all, k := outer + inner, Latest(inner, inw, fnw);
    if 0 <= k {
      assert all[|outer| + k] == inner[k];
      LatestIs(all, inw, fnw, |outer| + k);
    } else {
      var o := Latest(outer, inw, fnw);
      assert forall j :: 0 <= j < |outer| ==> all[j] == outer[j];
      assert forall j :: |outer| <= j < |all| ==> all[j] == inner[j - |outer|];
      if 0 <= o {
        LatestIs(all, inw, fnw, o);
      }
    }
  }

  lemma {:induction false} FlatParts(a: seq<Declaration>, b: seq<Declaration>)
    ensures Flat(a + b) == Flat(a) + Flat(b)
  {
    if b == [] {
      assert a + b == a;
    } else {
      assert (a + b)[..|a + b| - 1] == a + b[..|b| - 1];
      FlatParts(a, b[..|b| - 1]);
    }
  }

  // A segment of the prescan list as declarations.
  function Declared(ws: seq<int>, known: int): seq<Declaration>
    requires NamesOnly(ws)
    decreases |ws|
  {
    if ws == [] then []
    else if ws[0] % 8 == 0 then [Declaration(ws[0], 0, known)] + Declared(ws[1..], known)
    else [Declaration(ws[0], ws[1], known)] + Declared(ws[2..], known)
  }

  lemma OneDeclared(ws: seq<int>, known: int)
    requires NamesOnly(ws) && ws != []
    ensures ws[0] % 8 != 0 ==> 2 <= |ws|
    ensures var n, d := if ws[0] % 8 == 0 then 1 else 2, Declaration(ws[0], if ws[0] % 8 == 0 then 0 else ws[1], known);
            && NamesOnly(ws[n..]) && Declared(ws, known) == [d] + Declared(ws[n..], known)
            && Entries(ws, known) == Cells(d) + Entries(ws[n..], known)
  {
    hide NamesOnly, Entries;
    Prescan.FirstName(ws, known);
  }

  lemma NoneDeclared(known: int)
    ensures NamesOnly([]) && Entries([], known) == [] && Declared([], known) == [] && Flat([]) == []
  {
  }

  // What the names of a segment become is a name list again.
  lemma {:induction false} SegmentDeclared(ws: seq<int>, known: int)
    requires NamesOnly(ws)
    ensures Entries(ws, known) == Flat(Declared(ws, known))
    ensures forall d :: d in Declared(ws, known) ==> d.id == known
    decreases |ws|
  {
    hide NamesOnly, Entries, Declared, Flat, Cells;
    NoneDeclared(known);
    if ws != [] {
      OneDeclared(ws, known);
      var n, d := if ws[0] % 8 == 0 then 1 else 2, Declaration(ws[0], if ws[0] % 8 == 0 then 0 else ws[1], known);
      SegmentDeclared(ws[n..], known);
      FlatParts([d], Declared(ws[n..], known));
      LastCells([d], 1);
      assert [d][..1] == [d] && [d][..0] == [];
    }
  }

  // What is known of the names of a new block.
  function KnownLabel(bn: nat): nat {
    bn * 0x80000 + 0x20000 + 0x8000
  }

  function KnownProcedure(bn: nat): nat {
    bn * 0x80000 + 0x40000 + 0x8000
  }

  /**
   The name list behind the entry of block bn: a name of the block is found as a label or as a procedure of this
   block, whatever it means outside; any other name means what it meant before.
   */
  lemma BlockFound(outer: seq<Declaration>, labels: seq<int>, procedures: seq<int>, bn: nat, inw: int, fnw: int)
    requires NamesOnly(labels) && NamesOnly(procedures) && bn < 32
    ensures var l, p := Declared(labels, KnownLabel(bn)), Declared(procedures, KnownProcedure(bn));
            var ds, k := outer + l + p, Latest(outer + l + p, inw, fnw);
            && Flat(outer) + Entries(labels, KnownLabel(bn)) + Entries(procedures, KnownProcedure(bn)) == Flat(ds)
            && (if 0 <= Latest(p, inw, fnw) then
                  |outer| + |l| <= k && ds[k].id / 0x40000 % 2 == 1 && ds[k].id / 0x20000 % 2 == 0
                else if 0 <= Latest(l, inw, fnw) then
                  |outer| <= k < |outer| + |l| && ds[k].id / 0x40000 % 2 == 0 && ds[k].id / 0x20000 % 2 == 1
                else k == Latest(outer, inw, fnw))
            && (|outer| <= k ==> ds[k].id / 0x80000 % 32 == bn && ds[k].id / 0x10000 % 2 == 0)
  {
    hide NamesOnly, Entries, Declared, Flat, Latest, KnownLabel, KnownProcedure;
    var l, p := Declared(labels, KnownLabel(bn)), Declared(procedures, KnownProcedure(bn));
    SegmentDeclared(labels, KnownLabel(bn));
    SegmentDeclared(procedures, KnownProcedure(bn));
    FlatParts(outer, l);
    FlatParts(outer + l, p);
    InnerFirst(outer + l, p, inw, fnw);
    InnerFirst(outer, l, inw, fnw);
    KnownDigits(bn);
    var k := Latest(outer + l + p, inw, fnw);
    if |outer| + |l| <= k {
      assert (outer + l + p)[k] in p;
    } else if |outer| <= k {
      assert (outer + l + p)[k] in l;
    }
  }

  lemma KnownDigits(bn: nat)
    requires bn < 32
    ensures var l, p := KnownLabel(bn), KnownProcedure(bn);
            && l / 0x80000 % 32 == bn && p / 0x80000 % 32 == bn
            && l / 0x40000 % 2 == 0 && l / 0x20000 % 2 == 1 && l / 0x10000 % 2 == 0
            && p / 0x40000 % 2 == 1 && p / 0x20000 % 2 == 0 && p / 0x10000 % 2 == 0
  {
    LowDigitsStay(bn, 0x28000);
    LowDigitsStay(bn, 0x48000);
  }

  lemma LowDigitsStay(bn: nat, low: nat)
    requires bn < 32 && low in {0x28000, 0x48000}
    ensures var k := bn * 0x80000 + low;
            && k / 0x80000 % 32 == bn && k / 0x40000 % 2 == low / 0x40000 % 2
            && k / 0x20000 % 2 == low / 0x20000 % 2 && k / 0x10000 % 2 == low / 0x10000 % 2
  {
    DigitsAbove(bn, low);
  }

  // The digits below 2^19 are those of the low part.
  lemma DigitsAbove(bn: nat, low: nat)
    requires bn < 32 && low in {0x28000, 0x48000}
    ensures (bn * 0x80000 + low) / 0x80000 == bn
    ensures (bn * 0x80000 + low) / 0x40000 == 2 * bn + low / 0x40000
    ensures (bn * 0x80000 + low) / 0x20000 == 4 * bn + low / 0x20000
    ensures (bn * 0x80000 + low) / 0x10000 == 8 * bn + low / 0x10000
  {
  }

  lemma CellsOf(d: Declaration, second: seq<int>)
    requires second == if d.first % 8 > 0 then [d.second] else []
    ensures Cells(d) == second + [d.first, d.id]
  {
  }

  // A name declared in the block is the latest one.
  lemma NameEntered(ds: seq<Declaration>, first: int, second: seq<int>, id: int)
    requires |second| == (if first % 8 > 0 then 1 else 0)
    ensures var d := Declaration(first, if second != [] then second[0] else 0, id);
            Flat(ds) + (second + [first, id]) == Flat(ds + [d]) && Latest(ds + [d], first, d.second) == |ds|
  {
    hide Flat, Latest, Short;
    var d := Declaration(first, if second != [] then second[0] else 0, id);
    assert (ds + [d])[..|ds|] == ds && (ds + [d])[..|ds| + 1] == ds + [d];
    LastCells(ds + [d], |ds| + 1);
    CellsOf(d, second);
    LatestIs(ds + [d], first, d.second, |ds|);
  }
}
