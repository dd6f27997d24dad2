/**
 A declaration of arrays with computed bounds as a whole: from the bounds on the stack to the arrays in
 place, with the stack in order.
 */
module ArrayDeclarations {
  import opened StackCells
  import opened X1Integers
  import opened ArrayStorage
  import opened ArrayFrames
  import opened RunTimeState
  import opened Activations
  import opened RunTimeSafety
  import opened Processing

  // Where storage function i of the declaration stands, when the first stands at base.
  function Place(base: nat, ndim: nat, i: nat): nat {
    base + i * (ndim + 3)
  }

  // Where array i begins, behind all storage functions and the arrays before it.
  function Location(base: nat, ndim: nat, items: nat, words: int, i: nat): int {
    Place(base, ndim, items) + i * words + STACK_BASE
  }

  // The array of the storage function at addr is in place.
  predicate ArrayAt(stack: seq<Cell>, addr: nat, dims: seq<Bounds>, size: int, location: int) {
    && addr + |dims| + 3 <= |stack| && Describes(StorageAt(stack, addr, |dims|), dims, size)
    && 0 <= location && stack[addr] == AddressCell(size, location)
  }

  // The first j of the arrays are in place, the others are not positioned yet.
  ghost predicate Declared(stack: seq<Cell>, base: nat, dims: seq<Bounds>, size: int, items: nat, j: nat) {
    && (forall i :: j <= i < items ==> FrameAt(stack, Place(base, |dims|, i), dims, size))
    && forall i :: 0 <= i < j ==>
         ArrayAt(stack, Place(base, |dims|, i), dims, size, Location(base, |dims|, items, Words(dims, size), i))
  }

  lemma {:induction false} PlacesRise(base: nat, ndim: nat, i: nat, k: nat)
    requires i < k
    ensures Place(base, ndim, i) + ndim + 3 <= Place(base, ndim, k)
  {
    Scaled(i + 1, k, ndim + 3);
    NextMultiple(i, ndim + 3);
  }

  lemma NextPlace(base: nat, ndim: nat, items: nat, words: int, i: nat)
    ensures Place(base, ndim, i + 1) == Place(base, ndim, i) + ndim + 3 && Place(base, ndim, 0) == base
    ensures Location(base, ndim, items, words, i + 1) == Location(base, ndim, items, words, i) + words
    ensures Location(base, ndim, items, words, 0) == Place(base, ndim, items) + STACK_BASE
  {
    NextMultiple(i, ndim + 3);
    NextMultiple(i, words);
  }

  // Cells behind the storage functions do not matter to them.
  lemma FrameStays(stack: seq<Cell>, other: seq<Cell>, addr: nat, dims: seq<Bounds>, size: int)
    requires FrameAt(stack, addr, dims, size) && |stack| <= |other|
    requires forall i :: addr <= i < addr + |dims| + 3 ==> other[i] == stack[i]
    ensures FrameAt(other, addr, dims, size)
  {
    hide FrameCells;
    assert other[addr..addr + |dims| + 3] == stack[addr..addr + |dims| + 3];
  }

  lemma ArrayStays(stack: seq<Cell>, other: seq<Cell>, addr: nat, dims: seq<Bounds>, size: int, location: int)
    requires ArrayAt(stack, addr, dims, size, location) && |stack| <= |other|
    requires forall i :: addr <= i < addr + |dims| + 3 ==> other[i] == stack[i]
    ensures ArrayAt(other, addr, dims, size, location)
  {
    hide Describes;
    var a, b := StorageAt(stack, addr, |dims|), StorageAt(other, addr, |dims|);
    assert other[addr] == stack[addr] && other[addr + 1] == stack[addr + 1];
    forall k | 0 <= k < |dims| ensures a.strides[k] == b.strides[k] {
      assert a.strides[k] == NumberAt(stack, addr + 2 + k) && b.strides[k] == NumberAt(other, addr + 2 + k);
      assert other[addr + 2 + k] == stack[addr + 2 + k];
    }
    assert a.strides == b.strides && other[addr + 2 + |dims|] == stack[addr + 2 + |dims|];
  }

  // The cells of was are kept, except the two for addresses.
  predicate KeptBut(was: seq<Cell>, now: seq<Cell>, addr: nat) {
    |was| <= |now| && forall i :: 0 <= i < |was| && i != addr && i != addr + 1 ==> now[i] == was[i]
  }

  // One array more is positioned.
  lemma OneMorePositioned(s: State, base: nat, dims: seq<Bounds>, size: int, items: nat, j: nat)
    requires NonEmpty(dims) && size in {1, 2} && 0 < Words(dims, size) && j < items && s.stackBase in s.eis
    requires Fits(Words(dims, size)) && Fits(Offset(dims, size))
    requires Declared(s.stack, base, dims, size, items, j)
    requires s.stackBase + STACK_BASE == Location(base, |dims|, items, Words(dims, size), j)
    ensures var addr, pos := Place(base, |dims|, j), 2 + |dims|;
            && CanPosition(s, addr, pos)
            && var t := Positioned(s, addr, pos);
               && Declared(t.stack, base, dims, size, items, j + 1)
               && t.stackBase == s.stackBase + Words(dims, size) && |t.stack| == |s.stack| + Words(dims, size)
               && KeptBut(s.stack, t.stack, addr)
  {
    hide Strides, Words, Offset, NonEmpty, FrameAt, ArrayAt, Place, Location, Positioned, Fits;
    var addr, w := Place(base, |dims|, j), Words(dims, size);
    assert FrameAt(s.stack, addr, dims, size);
    FrameNumbers(s.stack, addr, dims, size);
    PositionedDescribes(s, addr, dims, size);
    var t := Positioned(s, addr, 2 + |dims|);
    forall i | j + 1 <= i < items ensures FrameAt(t.stack, Place(base, |dims|, i), dims, size) {
      PlacesRise(base, |dims|, j, i);
      FrameNumbers(s.stack, Place(base, |dims|, i), dims, size);
      FrameStays(s.stack, t.stack, Place(base, |dims|, i), dims, size);
    }
    forall i | 0 <= i < j + 1
      ensures ArrayAt(t.stack, Place(base, |dims|, i), dims, size, Location(base, |dims|, items, w, i))
    {
      if i < j {
        PlacesRise(base, |dims|, i, j);
        Reaches(s.stack, Place(base, |dims|, i), dims, size, Location(base, |dims|, items, w, i));
        ArrayStays(s.stack, t.stack, Place(base, |dims|, i), dims, size, Location(base, |dims|, items, w, i));
      } else {
        KindKept(s, addr, dims, size);
        Arrived(t.stack, addr, dims, size, s.stackBase + STACK_BASE);
      }
    }
  }

  lemma Reaches(stack: seq<Cell>, addr: nat, dims: seq<Bounds>, size: int, location: int)
    requires ArrayAt(stack, addr, dims, size, location)
    ensures addr + |dims| + 3 <= |stack|
  {
  }

  lemma KindKept(s: State, addr: nat, dims: seq<Bounds>, size: int)
    requires FrameAt(s.stack, addr, dims, size) && s.stackBase in s.eis && size in {1, 2}
    requires s.stack[addr + 1].Word? && Negative(s.stack[addr + 2 + |dims|])
    ensures var t := Positioned(s, addr, 2 + |dims|);
            addr < |t.stack| && t.stack[addr] == AddressCell(size, s.stackBase + STACK_BASE)
  {
    hide Strides, Words, Offset, FromInt, ToInt;
    assert s.stack[addr] == s.stack[addr..addr + |dims| + 3][0];
  }

  lemma Arrived(stack: seq<Cell>, addr: nat, dims: seq<Bounds>, size: int, location: int)
    requires addr + |dims| + 3 <= |stack| && Describes(StorageAt(stack, addr, |dims|), dims, size)
    requires 0 <= location && stack[addr] == AddressCell(size, location)
    ensures ArrayAt(stack, addr, dims, size, location)
  {
  }

  // What RSF leaves: all the storage functions, one behind the other.
  lemma {:induction false} CopiesAt(n: nat, c: seq<Cell>, i: nat)
    requires i < n
    ensures i * |c| + |c| <= |Copies(n, c)| && Copies(n, c)[i * |c|..i * |c| + |c|] == c
    decreases n
  {
    CopiesLength(n, c);
    CopiesLength(n - 1, c);
    Scaled(i + 1, n, |c|);
    NextMultiple(i, |c|);
    if i < n - 1 {
      CopiesAt(n - 1, c, i);
      assert Copies(n, c)[i * |c|..i * |c| + |c|] == Copies(n - 1, c)[i * |c|..i * |c| + |c|];
    }
  }

  lemma AllUnpositioned(s: State, dims: seq<Bounds>, size: int, items: nat)
    requires s.stackBase in s.eis && s.stackBase <= |s.stack| && BoundCells(s.stack[s.stackBase..])
    requires dims == BoundsOf(s.stack[s.stackBase..])
    ensures var t := FramesMade(s, size, items);
            && Declared(t.stack, s.stackBase, dims, size, items, 0)
            && |t.stack| == t.stackBase == Place(s.stackBase, |dims|, items)
            && t.stack[..s.stackBase] == s.stack[..s.stackBase]
  {
    hide BoundsOf, BoundCells, Words, FrameCells, Copies;
    var c, t := FrameCells(dims, size), FramesMade(s, size, items);
    CopiesLength(items, c);
    forall i | 0 <= i < items ensures FrameAt(t.stack, Place(s.stackBase, |dims|, i), dims, size) {
      CopiesAt(items, c, i);
      var a := i * |c|;
      assert t.stack[s.stackBase + a..s.stackBase + a + |c|] == Copies(items, c)[a..a + |c|];
    }
  }

  // The arrays with the bounds dims laid out on the stack of s.
  ghost predicate LaidOut(s: State, t: State, acts: seq<Act>, dims: seq<Bounds>, size: int, items: nat) {
    && Declared(t.stack, s.stackBase, dims, size, items, items)
    && |t.stack| == t.stackBase
    && t.stackBase + STACK_BASE == Location(s.stackBase, |dims|, items, Words(dims, size), items)
    && s.stackBase <= |s.stack| && s.stackBase <= |t.stack| && t.stack[..s.stackBase] == s.stack[..s.stackBase]
    && acts != [] && Inv(t, Below(acts) + [Top(acts).(base := t.stackBase)])
  }

  lemma Unpositioned(stack: seq<Cell>, base: nat, dims: seq<Bounds>, size: int, items: nat, j: nat)
    requires Declared(stack, base, dims, size, items, j) && j < items
    ensures FrameAt(stack, Place(base, |dims|, j), dims, size) && base <= Place(base, |dims|, j)
  {
  }

  lemma BaseKnown(s: State, acts: seq<Act>)
    requires Inv(s, acts) && acts != [] && Top(acts).kind != Thunk
    ensures s.stackBase in s.eis && Top(acts).base == s.stackBase && s.stackBase <= |s.stack|
    ensures Top(acts).frame + ARG + 2 * Top(acts).args <= s.stackBase
  {
    hide Good, FormalsOk, KindOk, Cached, Environment;
    TopOk(s, acts);
  }

  // LAP for each of the arrays.
  method PositionAll(p: Processor, ndim: nat, items: nat, size: int, base: nat, ghost dims: seq<Bounds>,
                     ghost acts: seq<Act>, ghost s: State) returns (thrown: bool)
    requires acts != [] && Top(acts).kind == Inside && size in {1, 2} && NonEmpty(dims) && |dims| == ndim
    requires Fits(Offset(dims, size)) && Fits(Words(dims, size)) && 0 < Words(dims, size)
    requires Declared(p.stack, base, dims, size, items, 0) && |p.stack| == p.stackBase == Place(base, ndim, items)
    requires s.stackBase == base <= |s.stack| && base <= |p.stack| && p.stack[..base] == s.stack[..base]
    requires Top(acts).frame + ARG + 2 * Top(acts).args <= base && 1 <= items
    requires Inv(p.Now(), Below(acts) + [Top(acts).(base := p.stackBase)])
    modifies p`stack, p`stackBase, p`eisOperation
    ensures thrown <==> ndim > 29
    ensures !thrown ==> LaidOut(s, p.Now(), acts, dims, size, items)
  {
    hide Words, Offset, Strides, NonEmpty, Fits, Inv, Declared, Place, Location, FrameAt, Positioned, FirstNegative;
    ghost var w := Words(dims, size);
    var addr := base;
    NextPlace(base, ndim, items, w, 0);
    thrown := false;
    for j := 0 to items
      invariant addr == Place(base, ndim, j) && (0 < j ==> ndim <= 29)
      invariant |p.stack| == p.stackBase && p.stackBase + STACK_BASE == Location(base, ndim, items, w, j)
      invariant base <= |p.stack| && p.stack[..base] == s.stack[..base]
      invariant Declared(p.stack, base, dims, size, items, j)
      invariant Inv(p.Now(), Below(acts) + [Top(acts).(base := p.stackBase)])
    {
      ghost var a1 := Below(acts) + [Top(acts).(base := p.stackBase)];
      NextPlace(base, ndim, items, w, j);
      Unpositioned(p.stack, base, dims, size, items, j);
      FrameNumbers(p.stack, addr, dims, size);
      FrameParts(p.stack, addr, dims, size);
      LengthFound(p.stack, addr, dims, size);
      BaseKnown(p.Now(), a1);
      OneMorePositioned(p.Now(), base, dims, size, items, j);
      PositionKeeps(p.Now(), a1, addr, 2 + ndim, p.values);
      thrown := p.PositionArray(addr);
      if thrown {
        return;
      }
      addr := addr + ndim + 3;
    }
  }

  // ----- the declaration as the bounds on the stack say -----

  // The bounds of dimension k, the first dimension lowest in the stack.
  function Lower(cells: seq<Cell>, k: nat): int
    requires BoundCells(cells) && 2 * k + 1 < |cells|
  {
    ToInt(cells[2 * k].w)
  }

  function Upper(cells: seq<Cell>, k: nat): int
    requires BoundCells(cells) && 2 * k + 1 < |cells|
  {
    ToInt(cells[2 * k + 1].w)
  }

  predicate Inhabited(cells: seq<Cell>) {
    BoundCells(cells) && forall k :: 0 <= k < |cells| / 2 ==> Lower(cells, k) <= Upper(cells, k)
  }

  predicate Within(cells: seq<Cell>, index: seq<int>)
    requires BoundCells(cells) && |index| == |cells| / 2
  {
    forall k :: 0 <= k < |index| ==> Lower(cells, k) <= index[k] <= Upper(cells, k)
  }

  // How far an element lies behind the first, from dimension k on: its neighbour there is factor words away.
  function Behind(cells: seq<Cell>, k: nat, factor: int, index: seq<int>): int
    requires BoundCells(cells) && |index| == |cells| / 2 && k <= |index|
    decreases |index| - k
  {
    if k == |index| then 0
    else
      (index[k] - Lower(cells, k)) * factor
      + Behind(cells, k + 1, factor * (Upper(cells, k) - Lower(cells, k) + 1), index)
  }

  // The size of an element times the number of elements.
  function Length(cells: seq<Cell>, k: nat, factor: int): int
    requires BoundCells(cells) && k <= |cells| / 2
    decreases |cells| - k
  {
    if k == |cells| / 2 then factor
    else Length(cells, k + 1, factor * (Upper(cells, k) - Lower(cells, k) + 1))
  }

  function Zeros(n: nat): (index: seq<int>)
    ensures |index| == n
  {
    seq(n, _ => 0)
  }

  lemma BoundsAt(cells: seq<Cell>, k: nat)
    requires BoundCells(cells) && k < |cells| / 2
    ensures BoundsOf(cells)[k] == Bounds(Lower(cells, k), Upper(cells, k))
    ensures BoundsOf(cells)[k..][0] == BoundsOf(cells)[k] && BoundsOf(cells)[k..][1..] == BoundsOf(cells)[k + 1..]
  {
  }

  lemma {:induction false} BehindIsDistance(cells: seq<Cell>, k: nat, factor: int, index: seq<int>)
    requires BoundCells(cells) && |index| == |cells| / 2 && k <= |index|
    ensures Behind(cells, k, factor, index) == Distance(BoundsOf(cells)[k..], factor, index[k..])
    decreases |index| - k
  {
    hide BoundsOf, BoundCells, Lower, Upper;
    if k < |index| {
      BoundsAt(cells, k);
      var extent := Upper(cells, k) - Lower(cells, k) + 1;
      BehindIsDistance(cells, k + 1, factor * extent, index);
      assert index[k..][0] == index[k] && index[k..][1..] == index[k + 1..];
    }
  }

  lemma {:induction false} LengthIsWords(cells: seq<Cell>, k: nat, factor: int)
    requires BoundCells(cells) && k <= |cells| / 2
    ensures Length(cells, k, factor) == Words(BoundsOf(cells)[k..], factor)
    decreases |cells| - k
  {
    hide BoundsOf, BoundCells, Lower, Upper;
    if k < |cells| / 2 {
      BoundsAt(cells, k);
      LengthIsWords(cells, k + 1, factor * (Upper(cells, k) - Lower(cells, k) + 1));
    }
  }

  lemma {:induction false} ZeroSum(strides: seq<int>)
    ensures Sum(strides, Zeros(|strides|)) == 0
  {
    if strides != [] {
      assert Zeros(|strides|)[1..] == Zeros(|strides| - 1);
      ZeroSum(strides[1..]);
    }
  }

  // The bounds of the storage function in terms of the cells.
  lemma OnCells(cells: seq<Cell>, size: int)
    requires BoundCells(cells)
    ensures var dims := BoundsOf(cells);
            && Length(cells, 0, size) == Words(dims, size)
            && Behind(cells, 0, size, Zeros(|dims|)) == -Offset(dims, size)
            && (Inhabited(cells) <==> NonEmpty(dims))
  {
    var dims := BoundsOf(cells);
    assert dims[0..] == dims;
    LengthIsWords(cells, 0, size);
    BehindIsDistance(cells, 0, size, Zeros(|dims|));
    assert Zeros(|dims|)[0..] == Zeros(|dims|);
    SumIsDistance(dims, size, Zeros(|dims|));
    ZeroSum(Strides(dims, size));
    SameEmptiness(cells);
  }

  lemma SameEmptiness(cells: seq<Cell>)
    requires BoundCells(cells)
    ensures Inhabited(cells) <==> NonEmpty(BoundsOf(cells))
  {
    hide Lower, Upper, BoundCells;
    forall k | 0 <= k < |cells| / 2 ensures BoundsOf(cells)[k] == Bounds(Lower(cells, k), Upper(cells, k)) {
      BoundsAt(cells, k);
    }
  }

  lemma WithinBounds(cells: seq<Cell>, index: seq<int>)
    requires BoundCells(cells) && |index| == |cells| / 2 && Within(cells, index)
    ensures InBounds(BoundsOf(cells), index)
  {
    hide Lower, Upper, BoundCells;
    forall k | 0 <= k < |index| ensures BoundsOf(cells)[k].lower <= index[k] <= BoundsOf(cells)[k].upper {
      BoundsAt(cells, k);
    }
  }

  // The indexer, given the storage function at addr, leads to this address and accepts it.
  predicate Leads(stack: seq<Cell>, addr: nat, index: seq<int>, address: int) {
    var fn := StorageAt(stack, addr, |index|);
    && (fn.base + Sum(fn.strides, index)) % ADDRESSES == address
    && -0xFFFFF <= fn.limit < 0 && fn.location <= address < fn.location - fn.limit
  }

  // Where array i of a declaration with the bounds in cells begins.
  function Beginning(cells: seq<Cell>, base: nat, size: int, items: nat, i: nat): int
    requires BoundCells(cells)
  {
    Location(base, |cells| / 2, items, Length(cells, 0, size), i)
  }

  /**
   Storage function i holds the address where array i begins, as an address of integers or of reals, and leads
   every index within the bounds to its element, if the array ends below address 2^20.
   */
  ghost predicate Accessible(stack: seq<Cell>, cells: seq<Cell>, base: nat, size: int, items: nat, i: nat)
    requires BoundCells(cells)
  {
    var addr, begin := Place(base, |cells| / 2, i), Beginning(cells, base, size, items, i);
    && addr < |stack| && 0 <= begin && stack[addr] == AddressCell(size, begin)
    && (begin + Length(cells, 0, size) <= ADDRESSES ==>
          forall index: seq<int> :: |index| == |cells| / 2 && Within(cells, index) ==>
            Leads(stack, addr, index, begin + Behind(cells, 0, size, index)))
  }

  lemma MadeAccessible(stack: seq<Cell>, cells: seq<Cell>, base: nat, size: int, items: nat, i: nat)
    requires Inhabited(cells) && size in {1, 2} && i < items
    requires Declared(stack, base, BoundsOf(cells), size, items, items)
    ensures Accessible(stack, cells, base, size, items, i)
  {
    hide BoundsOf, Words, Offset, Distance, Behind, Length, NonEmpty, InBounds, Within, Inhabited, Place, StorageAt;
    hide BoundCells, Describes, Leads, Sum;
    InhabitedBounds(cells);
    OnCells(cells, size);
    var dims, addr := BoundsOf(cells), Place(base, |cells| / 2, i);
    var begin := Beginning(cells, base, size, items, i);
    BoundPairs(cells);
    assert ArrayAt(stack, addr, dims, size, begin);
    if begin + Length(cells, 0, size) <= ADDRESSES {
      forall index: seq<int> | |index| == |cells| / 2 && Within(cells, index)
        ensures Leads(stack, addr, index, begin + Behind(cells, 0, size, index))
      {
        BehindInside(cells, size, index);
        BeginsHigh(base, dims, size, items, i);
        ElementLed(stack, addr, dims, size, index, begin);
      }
    }
  }

  lemma BeginsHigh(base: nat, dims: seq<Bounds>, size: int, items: nat, i: nat)
    requires NonEmpty(dims) && 0 < size
    ensures 0 < Words(dims, size) && 0 < Location(base, |dims|, items, Words(dims, size), i)
  {
    hide Words, NonEmpty;
    StridesSmall(dims, size);
    Scaled(0, i, Words(dims, size));
  }

  lemma ElementLed(stack: seq<Cell>, addr: nat, dims: seq<Bounds>, size: int, index: seq<int>, location: int)
    requires ArrayAt(stack, addr, dims, size, location) && NonEmpty(dims) && 0 < size && InBounds(dims, index)
    requires 0 < location && location + Words(dims, size) <= ADDRESSES
    ensures Leads(stack, addr, index, location + Distance(dims, size, index))
  {
    hide Words, Strides, Offset, Distance, Sum, NonEmpty;
    ElementInside(dims, size, index);
    AddressesRead(stack, addr, |dims|);
    IndexerRight(StorageAt(stack, addr, |dims|), dims, size, index);
  }

  // What a declaration with the bounds in cells leaves behind.
  ghost predicate InPlace(s: State, t: State, acts: seq<Act>, cells: seq<Cell>, size: int, items: nat) {
    && BoundCells(cells) && (forall i :: 0 <= i < items ==> Accessible(t.stack, cells, s.stackBase, size, items, i))
    && |t.stack| == t.stackBase && t.stackBase + STACK_BASE == Beginning(cells, s.stackBase, size, items, items)
    && s.stackBase <= |s.stack| && s.stackBase <= |t.stack| && t.stack[..s.stackBase] == s.stack[..s.stackBase]
    && acts != [] && Inv(t, Below(acts) + [Top(acts).(base := t.stackBase)])
  }

  lemma LaidOutInPlace(s: State, t: State, acts: seq<Act>, cells: seq<Cell>, size: int, items: nat)
    requires Inhabited(cells) && size in {1, 2} && LaidOut(s, t, acts, BoundsOf(cells), size, items)
    ensures InPlace(s, t, acts, cells, size, items)
  {
    hide BoundsOf, Words, Offset, Inhabited, Inv, Accessible, Declared, Length, Place, BoundCells;
    assert BoundCells(cells) by {
      InhabitedBounds(cells);
    }
    OnCells(cells, size);
    BoundPairs(cells);
    forall i | 0 <= i < items ensures Accessible(t.stack, cells, s.stackBase, size, items, i) {
      MadeAccessible(t.stack, cells, s.stackBase, size, items, i);
    }
  }

  lemma InhabitedBounds(cells: seq<Cell>)
    requires Inhabited(cells)
    ensures BoundCells(cells)
  {
  }

  /**
   The whole declaration.  For bounds that the Report defines an array for (section 5.2.4.4) it succeeds
   if and only if offset and length are machine integers and there are at most 29 dimensions; then every
   array has its storage function and cells of its own behind those of the others, the indexer leads every
   index within the bounds to its element, everything below is as it was, and the stack is in order.
   */
  method DeclareArrays(p: Processor, size: int, items: nat, ghost acts: seq<Act>) returns (thrown: bool)
    requires size in {1, 2} && 1 <= items && Inv(p.Now(), acts) && acts != [] && Top(acts).kind == Inside
    requires p.stackBase <= |p.stack| && Inhabited(p.stack[p.stackBase..])
    modifies p
    ensures var cells := old(p.stack[p.stackBase..]);
            thrown <==> !(Fits(Behind(cells, 0, size, Zeros(|cells| / 2))) && Fits(Length(cells, 0, size))
                          && |cells| <= 58)
    ensures !thrown ==> InPlace(old(p.Now()), p.Now(), acts, old(p.stack[p.stackBase..]), size, items)
  {
    hide BoundsOf, BoundCells, Words, Offset, Strides, FrameCells, Copies, Inv, Fits, Behind, Length, Inhabited;
    hide InPlace;
    var base := p.stackBase;
    ghost var s, cells := p.Now(), p.stack[p.stackBase..];
    InhabitedBounds(cells);
    ghost var dims := BoundsOf(cells);
    var ndim := (|p.stack| - p.stackBase) / 2;
    BoundPairs(cells);
    OnCells(cells, size);
    OppositeFits(Offset(dims, size));
    StridesSmall(dims, size);
    BaseKnown(s, acts);
    FramesKeep(p.Now(), acts, size, items, p.values);
    AllUnpositioned(p.Now(), dims, size, items);
    thrown := p.MakeStorageFunctionFrame(size, items);
    if thrown {
      return;
    }
    hide Declared, Place, Location, FramesMade;
    thrown := PositionAll(p, ndim, items, size, base, dims, acts, s);
    if !thrown {
      LaidOutInPlace(s, p.Now(), acts, cells, size, items);
    }
  }

  lemma OppositeFits(n: int)
    ensures Fits(-n) <==> Fits(n)
  {
  }

  lemma BoundPairs(cells: seq<Cell>)
    requires BoundCells(cells)
    ensures |BoundsOf(cells)| == |cells| / 2 && |cells| % 2 == 0
  {
  }

  // The address to which the indexer leads an index of array i.
  function AddressFor(stack: seq<Cell>, base: nat, i: nat, index: seq<int>): int {
    var fn := StorageAt(stack, Place(base, |index|, i), |index|);
    (fn.base + Sum(fn.strides, index)) % ADDRESSES
  }

  // Different elements of the declared arrays share no word, in one array or in two.
  lemma DeclaredApart(stack: seq<Cell>, cells: seq<Cell>, base: nat, size: int, items: nat, i: nat, k: nat,
                      index: seq<int>, other: seq<int>)
    requires Inhabited(cells) && size in {1, 2} && i < items && k < items && (i != k || index != other)
    requires Accessible(stack, cells, base, size, items, i) && Accessible(stack, cells, base, size, items, k)
    requires |index| == |other| == |cells| / 2 && Within(cells, index) && Within(cells, other)
    requires Beginning(cells, base, size, items, i) + Length(cells, 0, size) <= ADDRESSES
    requires Beginning(cells, base, size, items, k) + Length(cells, 0, size) <= ADDRESSES
    ensures Abs(AddressFor(stack, base, i, index) - AddressFor(stack, base, k, other)) >= size
  {
    hide BoundsOf, BoundCells, Words, Distance, Behind, Length, NonEmpty, InBounds, Within, Inhabited, Place, Abs;
    hide StorageAt, Sum, Beginning;
    InhabitedBounds(cells);
    assert Leads(stack, Place(base, |cells| / 2, i), index,
                 Beginning(cells, base, size, items, i) + Behind(cells, 0, size, index));
    assert Leads(stack, Place(base, |cells| / 2, k), other,
                 Beginning(cells, base, size, items, k) + Behind(cells, 0, size, other));
    PlacesApart(cells, base, size, items, i, k, index, other);
  }

  lemma PlacesApart(cells: seq<Cell>, base: nat, size: int, items: nat, i: nat, k: nat,
                    index: seq<int>, other: seq<int>)
    requires Inhabited(cells) && 0 < size && (i != k || index != other)
    requires |index| == |other| == |cells| / 2 && Within(cells, index) && Within(cells, other)
    ensures Abs(Beginning(cells, base, size, items, i) + Behind(cells, 0, size, index)
                - (Beginning(cells, base, size, items, k) + Behind(cells, 0, size, other))) >= size
  {
    hide BoundsOf, Words, Distance, Behind, Length, NonEmpty, InBounds, Within, Inhabited, Place;
    InhabitedBounds(cells);
    hide BoundCells;
    OnCells(cells, size);
    var dims, w := BoundsOf(cells), Length(cells, 0, size);
    BehindInside(cells, size, index);
    BehindInside(cells, size, other);
    if i == k {
      ElementsApart(dims, size, index, other);
    } else if i < k {
      Scaled(i + 1, k, w);
      NextMultiple(i, w);
    } else {
      Scaled(k + 1, i, w);
      NextMultiple(k, w);
    }
  }

  lemma BehindInside(cells: seq<Cell>, size: int, index: seq<int>)
    requires Inhabited(cells) && 0 < size && |index| == |cells| / 2 && Within(cells, index)
    ensures 0 <= Behind(cells, 0, size, index) <= Length(cells, 0, size) - size
    ensures BoundCells(cells) && Behind(cells, 0, size, index) == Distance(BoundsOf(cells), size, index)
    ensures InBounds(BoundsOf(cells), index)
  {
    hide BoundsOf, Words, Distance, Behind, Length, NonEmpty, InBounds, Within, Inhabited;
    InhabitedBounds(cells);
    hide BoundCells;
    var dims := BoundsOf(cells);
    OnCells(cells, size);
    WithinBounds(cells, index);
    BehindIsDistance(cells, 0, size, index);
    assert dims[0..] == dims && index[0..] == index;
    ElementInside(dims, size, index);
  }
}
