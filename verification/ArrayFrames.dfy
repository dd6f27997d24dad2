/**
 Arrays with computed bounds: the storage functions the run-time system leaves in the stack (RSF, ISF),
 and their positioning at the first statement of the block (LAP), which finds the length of an array as
 the first negative number of its storage function.
 */
module ArrayFrames {
  import opened StackCells
  import opened X1Integers
  import opened ArrayStorage
  import opened RunTimeState
  import opened Activations
  import opened RunTimeSafety
  import opened RunTimeRuns

  // The bounds wait as working cells, in pairs.
  predicate BoundCells(cells: seq<Cell>) {
    |cells| % 2 == 0 && forall k :: 0 <= k < |cells| ==> cells[k].Word? && IsWord(cells[k].w)
  }

  function BoundsOf(cells: seq<Cell>): (dims: seq<Bounds>)
    requires BoundCells(cells)
    ensures |dims| == |cells| / 2
  {
    seq(|cells| / 2, k requires 0 <= k < |cells| / 2 => Bounds(ToInt(cells[2 * k].w), ToInt(cells[2 * k + 1].w)))
  }

  // An address of integers or of reals.
  function AddressCell(size: int, a: nat): Cell {
    if size == 1 then Address(a) else RealAddress(a)
  }

  // Strides are stored as they are, in 27 digits.
  function StrideCells(strides: seq<int>): (c: seq<Cell>)
    ensures |c| == |strides|
  {
    seq(|strides|, k requires 0 <= k < |strides| => Word(strides[k] % 0x8000000))
  }

  // A storage function before it is positioned: no address yet, the offset, the strides, the length negated.
  function FrameCells(dims: seq<Bounds>, size: int): (c: seq<Cell>)
    ensures |c| == |dims| + 3
  {
    [AddressCell(size, 0), Word(FromInt(Offset(dims, size)))] + StrideCells(Strides(dims, size))
    + [Word(FromInt(-Words(dims, size)))]
  }

  function Copies(n: nat, c: seq<Cell>): seq<Cell> {
    if n == 0 then [] else Copies(n - 1, c) + c
  }

  lemma OneStrideMore(strides: seq<int>, stride: int)
    ensures StrideCells(strides + [stride]) == StrideCells(strides) + [Word(stride % 0x8000000)]
  {
  }

  lemma CopyOnce(c: seq<Cell>)
    ensures Copies(1, c) == c
  {
    assert Copies(0, c) + c == c;
  }

  lemma CopyAgain(n: nat, c: seq<Cell>)
    requires 1 <= n && c <= Copies(n, c)
    ensures Copies(n + 1, c) == Copies(n, c) + c && c <= Copies(n + 1, c)
  {
  }

  lemma {:induction false} CopiesLength(n: nat, c: seq<Cell>)
    ensures |Copies(n, c)| == n * |c|
  {
    if n > 0 {
      CopiesLength(n - 1, c);
      NextMultiple(n - 1, |c|);
    }
  }

  // The bounds are replaced by the storage functions of a declaration with that many arrays.
  function FramesMade(s: State, size: int, items: nat): State
    requires s.stackBase in s.eis && s.stackBase <= |s.stack| && BoundCells(s.stack[s.stackBase..])
  {
    var dims := BoundsOf(s.stack[s.stackBase..]);
    Reserved(s.(stack := s.stack[..s.stackBase]), Copies(items, FrameCells(dims, size)))
  }

  predicate Negative(c: Cell) {
    c.Word? && ToInt(c.w) < 0
  }

  // The first of cells pos..31 behind addr with a negative number; 32 when there is none.
  function FirstNegative(stack: seq<Cell>, addr: nat, pos: nat): (r: nat)
    requires pos <= 32
    ensures pos <= r <= 32 && (r < 32 ==> addr + r < |stack| && Negative(stack[addr + r]))
    decreases 32 - pos
  {
    if pos == 32 || addr + pos >= |stack| then 32
    else if Negative(stack[addr + pos]) then pos
    else FirstNegative(stack, addr, pos + 1)
  }

  // A cell the search goes past.
  predicate Passed(stack: seq<Cell>, i: nat) {
    i < |stack| && !Negative(stack[i])
  }

  lemma {:induction false} SearchEnds(stack: seq<Cell>, addr: nat, pos: nat, k: nat)
    requires pos <= k <= 32 && forall i :: addr + pos <= i < addr + k ==> Passed(stack, i)
    requires k < 32 ==> addr + k < |stack| && Negative(stack[addr + k])
    ensures FirstNegative(stack, addr, pos) == k
    decreases 32 - pos
  {
    if pos < k {
      assert Passed(stack, addr + pos);
      SearchEnds(stack, addr, pos + 1, k);
    }
  }

  // A storage function of these bounds stands at addr, not yet positioned.
  predicate FrameAt(stack: seq<Cell>, addr: nat, dims: seq<Bounds>, size: int) {
    addr + |dims| + 3 <= |stack| && stack[addr..addr + |dims| + 3] == FrameCells(dims, size)
  }

  lemma FrameCellParts(dims: seq<Bounds>, size: int)
    ensures var c := FrameCells(dims, size);
            && c[0] == AddressCell(size, 0) && c[1] == Word(FromInt(Offset(dims, size)))
            && (forall j :: 2 <= j < 2 + |dims| ==> c[j] == Word(Strides(dims, size)[j - 2] % 0x8000000))
            && c[2 + |dims|] == Word(FromInt(-Words(dims, size)))
  {
    hide Offset, Strides, Words;
  }

  lemma FrameParts(stack: seq<Cell>, addr: nat, dims: seq<Bounds>, size: int)
    requires FrameAt(stack, addr, dims, size)
    ensures stack[addr] == AddressCell(size, 0) && stack[addr + 1] == Word(FromInt(Offset(dims, size)))
    ensures forall i :: addr + 2 <= i < addr + 2 + |dims| ==>
              stack[i] == Word(Strides(dims, size)[i - addr - 2] % 0x8000000)
    ensures stack[addr + 2 + |dims|] == Word(FromInt(-Words(dims, size)))
  {
    FrameCellParts(dims, size);
    hide Offset, Strides, Words, FrameCells;
    var c := stack[addr..addr + |dims| + 3];
    assert stack[addr + 0] == c[0] && stack[addr + 1] == c[1] && stack[addr + (2 + |dims|)] == c[2 + |dims|];
    forall i | addr + 2 <= i < addr + 2 + |dims|
      ensures stack[i] == Word(Strides(dims, size)[i - addr - 2] % 0x8000000)
    {
      assert stack[i] == c[i - addr];
    }
  }

  /**
   The search for the length ends at the length itself if and only if the array has at most 29
   dimensions; with more of them it finds nothing.
   */
  lemma LengthFound(stack: seq<Cell>, addr: nat, dims: seq<Bounds>, size: int)
    requires FrameAt(stack, addr, dims, size) && NonEmpty(dims) && 0 < size && Fits(Words(dims, size))
    ensures FirstNegative(stack, addr, 2) == if |dims| <= 29 then 2 + |dims| else 32
    ensures ToInt(stack[addr + 2 + |dims|].w) == -Words(dims, size)
  {
    StridesSmall(dims, size);
    FrameParts(stack, addr, dims, size);
    IntComesBack(-Words(dims, size));
    hide Strides, Words, Offset, FirstNegative, FrameAt;
    var k := if |dims| <= 29 then 2 + |dims| else 32;
    forall i | addr + 2 <= i < addr + k ensures Passed(stack, i) {
      assert stack[i] == Word(Strides(dims, size)[i - addr - 2] % 0x8000000);
    }
    SearchEnds(stack, addr, 2, k);
  }

  // Thirty dimensions, each from 1 to 1.
  lemma ThirtyDimensions(stack: seq<Cell>, addr: nat)
    requires FrameAt(stack, addr, seq(30, _ => Bounds(1, 1)), 1)
    ensures FirstNegative(stack, addr, 2) == 32
  {
    OnePlace(30);
    LengthFound(stack, addr, seq(30, _ => Bounds(1, 1)), 1);
  }

  lemma {:induction false} OnePlace(n: nat)
    ensures Words(seq(n, _ => Bounds(1, 1)), 1) == 1
    decreases n
  {
    if n > 0 {
      OnePlace(n - 1);
      assert seq(n, _ => Bounds(1, 1))[1..] == seq(n - 1, _ => Bounds(1, 1));
    }
  }

  // The same kind of address.
  function Readdressed(c: Cell, a: nat): Cell {
    if c.RealAddress? then RealAddress(a) else Address(a)
  }

  predicate CanPosition(s: State, addr: nat, pos: nat) {
    && s.stackBase in s.eis && addr + 1 < |s.stack| && addr + pos < |s.stack|
    && s.stack[addr + 1].Word? && Negative(s.stack[addr + pos])
  }

  // The array begins where the working cells begin, which move up by its length.
  function Positioned(s: State, addr: nat, pos: nat): State
    requires CanPosition(s, addr, pos)
  {
    var base := (s.stackBase - ToInt(s.stack[addr + 1].w) + STACK_BASE) % 0x8000000;
    var stack := s.stack[addr := Readdressed(s.stack[addr], s.stackBase + STACK_BASE)]
                        [addr + 1 := Readdressed(s.stack[addr], base)];
    Reserved(s.(stack := stack), Cleared(-ToInt(s.stack[addr + pos].w)))
  }

  function NumberAt(stack: seq<Cell>, i: nat): int {
    if i < |stack| && stack[i].Word? then ToInt(stack[i].w) else 0
  }

  // The storage function as the indexer reads it.
  function StorageAt(stack: seq<Cell>, addr: nat, ndim: nat): Storage {
    var strides := seq(ndim, k requires 0 <= k => NumberAt(stack, addr + 2 + k));
    Storage(AddressAt(stack, addr), AddressAt(stack, addr + 1), strides, NumberAt(stack, addr + 2 + ndim))
  }

  // Strides and length come out of the stack as they went in.
  lemma StridesRead(stack: seq<Cell>, addr: nat, dims: seq<Bounds>, size: int)
    requires NonEmpty(dims) && 0 < size && Fits(Words(dims, size)) && addr + |dims| + 3 <= |stack|
    requires forall i :: addr + 2 <= i < addr + 2 + |dims| ==>
               stack[i] == Word(Strides(dims, size)[i - addr - 2] % 0x8000000)
    requires stack[addr + 2 + |dims|] == Word(FromInt(-Words(dims, size)))
    ensures StorageAt(stack, addr, |dims|).strides == Strides(dims, size)
    ensures StorageAt(stack, addr, |dims|).limit == -Words(dims, size)
  {
    StridesSmall(dims, size);
    IntComesBack(-Words(dims, size));
    hide Strides, Words, AddressAt;
    forall k | 0 <= k < |dims| ensures NumberAt(stack, addr + 2 + k) == Strides(dims, size)[k] {
      var i := addr + 2 + k;
      assert stack[i] == Word(Strides(dims, size)[i - addr - 2] % 0x8000000);
    }
  }

  // The positioned array has a storage function of it, and its words are the new cells.
  lemma PositionedDescribes(s: State, addr: nat, dims: seq<Bounds>, size: int)
    requires FrameAt(s.stack, addr, dims, size) && NonEmpty(dims) && size in {1, 2} && s.stackBase in s.eis
    requires Fits(Words(dims, size)) && Fits(Offset(dims, size))
    ensures s.stack[addr + 1].Word? && Negative(s.stack[addr + 2 + |dims|])
    ensures var t := Positioned(s, addr, 2 + |dims|);
            var fn := StorageAt(t.stack, addr, |dims|);
            && Describes(fn, dims, size) && fn.location == s.stackBase + STACK_BASE
            && t.stackBase == s.stackBase + Words(dims, size) && |t.stack| == |s.stack| + Words(dims, size)
            && forall i :: 0 <= i < |s.stack| && i != addr && i != addr + 1 ==> t.stack[i] == s.stack[i]
  {
    hide Strides, Words, Offset, FrameAt, NonEmpty, FromInt, Positioned, StorageAt, Fits, ToInt;
    FrameNumbers(s.stack, addr, dims, size);
    FrameParts(s.stack, addr, dims, size);
    PositionedCells(s, addr, 2 + |dims|);
    BaseModulo(s.stackBase + STACK_BASE, Offset(dims, size));
    StridesRead(Positioned(s, addr, 2 + |dims|).stack, addr, dims, size);
    AddressesRead(Positioned(s, addr, 2 + |dims|).stack, addr, |dims|);
  }

  lemma FrameNumbers(stack: seq<Cell>, addr: nat, dims: seq<Bounds>, size: int)
    requires FrameAt(stack, addr, dims, size) && NonEmpty(dims) && 0 < size
    requires Fits(Words(dims, size)) && Fits(Offset(dims, size))
    ensures addr + |dims| + 3 <= |stack|
    ensures 0 < Words(dims, size) && stack[addr + 1].Word? && ToInt(stack[addr + 1].w) == Offset(dims, size)
    ensures Negative(stack[addr + 2 + |dims|]) && ToInt(stack[addr + 2 + |dims|].w) == -Words(dims, size)
  {
    StridesSmall(dims, size);
    FrameParts(stack, addr, dims, size);
    IntComesBack(-Words(dims, size));
    IntComesBack(Offset(dims, size));
    hide Strides, Words, Offset, FrameAt;
  }

  lemma AddressesRead(stack: seq<Cell>, addr: nat, ndim: nat)
    ensures StorageAt(stack, addr, ndim).location == AddressAt(stack, addr)
    ensures StorageAt(stack, addr, ndim).base == AddressAt(stack, addr + 1)
  {
  }

  lemma PositionedCells(s: State, addr: nat, pos: nat)
    requires s.stackBase in s.eis && addr + 1 < |s.stack| && addr + pos < |s.stack|
    requires s.stack[addr + 1].Word? && Negative(s.stack[addr + pos])
    ensures var t, n := Positioned(s, addr, pos), -ToInt(s.stack[addr + pos].w);
            && t.stackBase == s.stackBase + n && |t.stack| == |s.stack| + n
            && AddressAt(t.stack, addr) == s.stackBase + STACK_BASE
            && AddressAt(t.stack, addr + 1) == (s.stackBase - ToInt(s.stack[addr + 1].w) + STACK_BASE) % 0x8000000
            && forall i :: 0 <= i < |s.stack| && i != addr && i != addr + 1 ==> t.stack[i] == s.stack[i]
  {
  }

  lemma BaseModulo(location: int, offset: int)
    ensures (location - offset) % 0x8000000 % ADDRESSES == (location - offset) % ADDRESSES
  {
    var x := location - offset;
    assert x == x % 0x8000000 + ADDRESSES * (128 * (x / 0x8000000));
    MultipleDropped(x % 0x8000000, 128 * (x / 0x8000000), ADDRESSES);
  }

  // ----- on the run-time stack -----

  // Cells from the local ones of the current procedure on are no links.
  lemma AboveLinks(s: State, acts: seq<Act>, place: nat)
    requires Inv(s, acts) && acts != [] && Top(acts).frame + ARG + 2 * Top(acts).args <= place
    ensures OutsideLinks(acts, place)
  {
    hide FormalsOk, KindOk, OpsOk, Cached, AddressAt, Environment;
    TopOk(s, acts);
    forall j | 0 <= j < |acts| ensures !(acts[j].frame <= place < acts[j].frame + ARG + 2 * acts[j].args) {
      GoodAt(s.stack, acts, j);
      if j < |acts| - 1 {
        BaseUnder(s, acts, j);
      }
    }
  }

  lemma ReservedKeeps(s: State, acts: seq<Act>, cells: seq<Cell>, v: Values)
    requires Inv(s, acts) && acts != [] && Top(acts).kind != Thunk
    ensures s.stackBase in s.eis
    ensures Inv(Reserved(s, cells), Below(acts) + [Top(acts).(base := Top(acts).base + |cells|)])
  {
    hide Inv, OpsOk, Good, Cached;
    StepKeeps(s, acts, Reserve(cells), v);
  }

  lemma AssignedKeeps(s: State, acts: seq<Act>, place: nat, c: Cell, v: Values)
    requires Inv(s, acts) && acts != [] && Top(acts).frame + ARG + 2 * Top(acts).args <= place < |s.stack|
    ensures Inv(s.(stack := s.stack[place := c]), acts)
  {
    AboveLinks(s, acts, place);
    hide Inv, OpsOk, Good, Cached, OutsideLinks;
    StepKeeps(s, acts, Assign(place, c), v);
  }

  // RSF and ISF keep the stack in order.
  lemma FramesKeep(s: State, acts: seq<Act>, size: int, items: nat, v: Values)
    requires Inv(s, acts) && acts != [] && Top(acts).kind != Thunk
    requires s.stackBase <= |s.stack| && BoundCells(s.stack[s.stackBase..])
    ensures s.stackBase in s.eis && s.stackBase <= |s.stack|
    ensures var n := |Copies(items, FrameCells(BoundsOf(s.stack[s.stackBase..]), size))|;
            Inv(FramesMade(s, size, items), Below(acts) + [Top(acts).(base := Top(acts).base + n)])
  {
    hide Inv, Copies, FrameCells, BoundsOf, OpsOk, Good, Cached, BoundCells;
    StepKeeps(s, acts, Working([]), v);
    assert s.stack[..s.stackBase] + [] == s.stack[..s.stackBase];
    ReservedKeeps(s, acts, [], v);
    ReservedKeeps(s.(stack := s.stack[..s.stackBase]), acts,
                  Copies(items, FrameCells(BoundsOf(s.stack[s.stackBase..]), size)), v);
  }

  // So does LAP.
  lemma PositionKeeps(s: State, acts: seq<Act>, addr: nat, pos: nat, v: Values)
    requires Inv(s, acts) && acts != [] && Top(acts).kind != Thunk
    requires Top(acts).frame + ARG + 2 * Top(acts).args <= addr && addr + 1 < |s.stack| && addr + pos < |s.stack|
    requires s.stack[addr + 1].Word? && Negative(s.stack[addr + pos])
    ensures s.stackBase in s.eis
    ensures var n := -ToInt(s.stack[addr + pos].w);
            Inv(Positioned(s, addr, pos), Below(acts) + [Top(acts).(base := Top(acts).base + n)])
  {
    hide Inv, Readdressed, ToInt, Cleared;
    var base := (s.stackBase - ToInt(s.stack[addr + 1].w) + STACK_BASE) % 0x8000000;
    var c1, c2 := Readdressed(s.stack[addr], s.stackBase + STACK_BASE), Readdressed(s.stack[addr], base);
    var s1 := s.(stack := s.stack[addr := c1]);
    AssignedKeeps(s, acts, addr, c1, v);
    AssignedKeeps(s1, acts, addr + 1, c2, v);
    ReservedKeeps(s1.(stack := s1.stack[addr + 1 := c2]), acts, Cleared(-ToInt(s.stack[addr + pos].w)), v);
  }
}
