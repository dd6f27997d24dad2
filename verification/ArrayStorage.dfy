/**
 Array storage functions: how bounds become strides and a base address, at compile time and at run
 time, and how the indexer finds an element with them.
 */
module ArrayStorage {
  import opened X1Integers

  datatype Bounds = Bounds(lower: int, upper: int)

  const ADDRESSES := 0x100000

  predicate NonEmpty(dims: seq<Bounds>) {
    forall k :: 0 <= k < |dims| ==> dims[k].lower <= dims[k].upper
  }

  function Extent(b: Bounds): int {
    b.upper - b.lower + 1
  }

  predicate InBounds(dims: seq<Bounds>, index: seq<int>) {
    |index| == |dims| && forall k :: 0 <= k < |dims| ==> dims[k].lower <= index[k] <= dims[k].upper
  }

  // The distances between neighbours along each dimension, when elements take size words.
  function Strides(dims: seq<Bounds>, size: int): (s: seq<int>)
    ensures |s| == |dims|
  {
    if dims == [] then [] else [size] + Strides(dims[1..], size * Extent(dims[0]))
  }

  // The number of words of the whole array.
  function Words(dims: seq<Bounds>, size: int): int {
    if dims == [] then size else Words(dims[1..], size * Extent(dims[0]))
  }

  // The distance of an element from the first one.
  function Distance(dims: seq<Bounds>, size: int, index: seq<int>): int
    requires |index| == |dims|
  {
    if dims == [] then 0
    else (index[0] - dims[0].lower) * size + Distance(dims[1..], size * Extent(dims[0]), index[1..])
  }

  function Sum(strides: seq<int>, index: seq<int>): int
    requires |index| == |strides|
  {
    if strides == [] then 0 else index[0] * strides[0] + Sum(strides[1..], index[1..])
  }

  function Lowers(dims: seq<Bounds>): (l: seq<int>)
    ensures |l| == |dims| && forall k :: 0 <= k < |l| ==> l[k] == dims[k].lower
  {
    seq(|dims|, k requires 0 <= k < |dims| => dims[k].lower)
  }

  // The distance of the first element from where all indices would be 0.
  function Offset(dims: seq<Bounds>, size: int): int {
    Sum(Strides(dims, size), Lowers(dims))
  }

  lemma Scaled(a: int, b: int, size: int)
    requires a <= b && 0 <= size
    ensures a * size <= b * size
  {
  }

  lemma Grows(size: int, extent: int)
    requires 0 < size && 1 <= extent
    ensures size <= size * extent
  {
    Scaled(1, extent, size);
  }

  lemma {:induction false} StridesSmall(dims: seq<Bounds>, size: int)
    requires NonEmpty(dims) && 0 < size
    ensures size <= Words(dims, size)
    ensures forall k :: 0 <= k < |dims| ==> 0 < Strides(dims, size)[k] <= Words(dims, size)
  {
    if dims != [] {
      Grows(size, Extent(dims[0]));
      StridesSmall(dims[1..], size * Extent(dims[0]));
    }
  }

  // Every element lies within the array.
  lemma {:induction false} ElementInside(dims: seq<Bounds>, size: int, index: seq<int>)
    requires NonEmpty(dims) && 0 < size && InBounds(dims, index)
    ensures 0 <= Distance(dims, size, index) <= Words(dims, size) - size
  {
    if dims != [] {
      var n, i := Extent(dims[0]), index[0] - dims[0].lower;
      Grows(size, n);
      ElementInside(dims[1..], size * n, index[1..]);
      Scaled(0, i, size);
      Scaled(i, n - 1, size);
      assert (n - 1) * size == size * n - size;
    }
  }

  // Different elements are at least an element apart.
  lemma {:induction false} ElementsApart(dims: seq<Bounds>, size: int, index: seq<int>, other: seq<int>)
    requires NonEmpty(dims) && 0 < size && InBounds(dims, index) && InBounds(dims, other) && index != other
    ensures Abs(Distance(dims, size, index) - Distance(dims, size, other)) >= size
  {
    if dims != [] {
      var n, d := Extent(dims[0]), index[0] - other[0];
      var i, j := index[0] - dims[0].lower, other[0] - dims[0].lower;
      Grows(size, n);
      assert i * size - j * size == d * size;
      if index[1..] == other[1..] {
        assert index == [index[0]] + index[1..] && other == [other[0]] + other[1..];
        if 0 < d { Scaled(1, d, size); } else { Scaled(d, -1, size); }
      } else {
        ElementsApart(dims[1..], size * n, index[1..], other[1..]);
        hide Distance, NonEmpty;
        OneDimension(n, d, size);
      }
    }
  }

  // Places along one dimension differ by less than its whole length.
  lemma OneDimension(n: int, d: int, size: int)
    requires 0 < size && -n < d < n
    ensures size - size * n <= d * size <= size * n - size
  {
    Scaled(d, n - 1, size);
    Scaled(1 - n, d, size);
    assert (n - 1) * size == size * n - size && (1 - n) * size == size - size * n;
  }

  // The indexer's sum is the distance from the first element plus the offset.
  lemma {:induction false} SumIsDistance(dims: seq<Bounds>, size: int, index: seq<int>)
    requires |index| == |dims|
    ensures Sum(Strides(dims, size), index) == Offset(dims, size) + Distance(dims, size, index)
  {
    if dims != [] {
      var n, l := Extent(dims[0]), dims[0].lower;
      SumIsDistance(dims[1..], size * n, index[1..]);
      assert Strides(dims, size)[1..] == Strides(dims[1..], size * n);
      assert Lowers(dims)[1..] == Lowers(dims[1..]);
      assert index[0] * size == l * size + (index[0] - l) * size;
    }
  }

  // A storage function: the place of the first word, the base, the strides, the length negated.
  datatype Storage = Storage(location: int, base: int, strides: seq<int>, limit: int)

  // It describes the array with these bounds.
  predicate Describes(fn: Storage, dims: seq<Bounds>, size: int) {
    && fn.strides == Strides(dims, size) && fn.limit == -Words(dims, size) && 0 <= fn.location
    && fn.base % ADDRESSES == (fn.location - Offset(dims, size)) % ADDRESSES
  }

  lemma {:induction false} SumAppend(strides: seq<int>, index: seq<int>, s: int, i: int)
    requires |index| == |strides|
    ensures Sum(strides + [s], index + [i]) == Sum(strides, index) + i * s
  {
    if strides == [] {
    } else {
      assert (strides + [s])[1..] == strides[1..] + [s] && (index + [i])[1..] == index[1..] + [i];
      SumAppend(strides[1..], index[1..], s, i);
    }
  }

  // The indexer.  It knows the array only by its storage function.
  method Index(fn: Storage, index: seq<int>) returns (ok: bool, address: int)
    requires |index| == |fn.strides|
    ensures address == (fn.base + Sum(fn.strides, index)) % ADDRESSES
    ensures ok == (-0xFFFFF <= fn.limit < 0 && fn.location <= address < fn.location - fn.limit)
  {
    var sum := fn.base;
    for i := 0 to |index|
      invariant sum == fn.base + Sum(fn.strides[..i], index[..i])
    {
      SumAppend(fn.strides[..i], index[..i], fn.strides[i], index[i]);
      assert fn.strides[..i + 1] == fn.strides[..i] + [fn.strides[i]] && index[..i + 1] == index[..i] + [index[i]];
      sum := sum + index[i] * fn.strides[i];
    }
    assert fn.strides[..|index|] == fn.strides && index[..|index|] == index;
    address := sum % ADDRESSES;
    ok := -0xFFFFF <= fn.limit < 0 && !(address < fn.location || address + fn.limit >= fn.location);
  }

  lemma SumModulo(base: int, other: int, d: int)
    requires base % ADDRESSES == other % ADDRESSES
    ensures (base + d) % ADDRESSES == (other + d) % ADDRESSES
  {
    var q, r := base / ADDRESSES, other / ADDRESSES;
    assert base + d == other + d + ADDRESSES * (q - r);
    MultipleDropped(other + d, q - r, ADDRESSES);
  }

  lemma MultipleDropped(x: int, q: int, m: int)
    requires m in {ADDRESSES, CONSTANTS}
    ensures (x + m * q) % m == x % m
  {
  }

  /**
   The indexer takes any indices to the place of the element modulo 2^20, and accepts exactly those that
   lead to a word of the array.  An element within the bounds is therefore found where it belongs, as
   long as the array is shorter than 2^20 words and the element itself lies below address 2^20.
   */
  lemma IndexerRight(fn: Storage, dims: seq<Bounds>, size: int, index: seq<int>)
    requires Describes(fn, dims, size) && NonEmpty(dims) && 0 < size && |index| == |dims|
    ensures var address := (fn.base + Sum(fn.strides, index)) % ADDRESSES;
            var accepted := -0xFFFFF <= fn.limit < 0 && fn.location <= address < fn.location - fn.limit;
            var place := fn.location + Distance(dims, size, index);
            && address == place % ADDRESSES
            && (accepted <==>
                  Words(dims, size) < ADDRESSES && fn.location <= place % ADDRESSES < fn.location + Words(dims, size))
            && (InBounds(dims, index) ==>
                  && (accepted <==> Words(dims, size) < ADDRESSES && place < ADDRESSES)
                  && (accepted ==> address == place))
  {
    SumIsDistance(dims, size, index);
    StridesSmall(dims, size);
    SumModulo(fn.base, fn.location - Offset(dims, size), Sum(fn.strides, index));
    if InBounds(dims, index) {
      ElementInside(dims, size, index);
      Masked(fn.location, Distance(dims, size, index), Words(dims, size));
    }
  }

  // Addresses from 2^20 on come out below the array.
  lemma Masked(location: int, distance: int, words: int)
    requires 0 <= location && 0 <= distance < words
    ensures words < ADDRESSES ==>
              (location <= (location + distance) % ADDRESSES < location + words <==> location + distance < ADDRESSES)
    ensures location + distance < ADDRESSES ==> (location + distance) % ADDRESSES == location + distance
  {
    var x := location + distance;
    if ADDRESSES <= x < 2 * ADDRESSES {
      assert x % ADDRESSES == x - ADDRESSES;
    }
  }

  // An array of one element at address 2^20, which a stack of 2^20 cells has room for: the element is
  // within the bounds and refused.
  lemma HighArray()
    ensures var fn, dims := Storage(ADDRESSES, ADDRESSES, [1], -1), [Bounds(0, 0)];
            && Describes(fn, dims, 1) && NonEmpty(dims) && InBounds(dims, [0])
            && (fn.base + Sum(fn.strides, [0])) % ADDRESSES < fn.location
  {
    var dims := [Bounds(0, 0)];
    assert dims[1..] == [] && Strides(dims, 1) == [1] && Words(dims, 1) == 1;
    SumIsDistance(dims, 1, [0]);
    IndexerRight(Storage(ADDRESSES, ADDRESSES, [1], -1), dims, 1, [0]);
  }

  // Two different elements never share a word.
  lemma ElementsDisjoint(fn: Storage, dims: seq<Bounds>, size: int, index: seq<int>, other: seq<int>)
    requires Describes(fn, dims, size) && NonEmpty(dims) && 0 < size
    requires fn.location + Words(dims, size) <= ADDRESSES && Words(dims, size) < ADDRESSES
    requires InBounds(dims, index) && InBounds(dims, other) && index != other
    ensures Abs((fn.base + Sum(fn.strides, index)) % ADDRESSES - (fn.base + Sum(fn.strides, other)) % ADDRESSES) >= size
  {
    IndexerRight(fn, dims, size, index);
    IndexerRight(fn, dims, size, other);
    ElementInside(dims, size, index);
    ElementInside(dims, size, other);
    ElementsApart(dims, size, index, other);
  }

  lemma {:induction false} WordsAppend(dims: seq<Bounds>, b: Bounds, size: int)
    ensures Words(dims + [b], size) == Words(dims, size) * Extent(b)
    ensures Strides(dims + [b], size) == Strides(dims, size) + [Words(dims, size)]
  {
    if dims == [] {
      assert ([] + [b])[1..] == [];
    } else {
      assert (dims + [b])[1..] == dims[1..] + [b];
      WordsAppend(dims[1..], b, size * Extent(dims[0]));
    }
  }

  lemma OffsetAppend(dims: seq<Bounds>, b: Bounds, size: int)
    ensures Offset(dims + [b], size) == Offset(dims, size) + b.lower * Words(dims, size)
  {
    WordsAppend(dims, b, size);
    assert Lowers(dims + [b]) == Lowers(dims) + [b.lower];
    SumAppend(Strides(dims, size), Lowers(dims), Words(dims, size), b.lower);
  }

  const CONSTANTS := 0x4000000

  lemma MinusModulo(a: int, x: int)
    ensures (a % CONSTANTS - x) % CONSTANTS == (a - x) % CONSTANTS
  {
    var q := a / CONSTANTS;
    assert a - x == a % CONSTANTS - x + CONSTANTS * q;
    MultipleDropped(a % CONSTANTS - x, q, CONSTANTS);
  }

  lemma {:induction false} PrefixWords(dims: seq<Bounds>, size: int, k: nat)
    requires NonEmpty(dims) && 0 < size && k <= |dims|
    ensures 0 < Words(dims[..k], size) <= Words(dims, size)
  {
    StridesSmall(dims[..k], size);
    if k < |dims| {
      StridesSmall(dims, size);
      StrideIsWords(dims, size, k);
    } else {
      assert dims[..k] == dims;
    }
  }

  lemma {:induction false} StrideIsWords(dims: seq<Bounds>, size: int, k: nat)
    requires k < |dims|
    ensures Strides(dims, size)[k] == Words(dims[..k], size)
  {
    if k > 0 {
      assert dims[..k][1..] == dims[1..][..k - 1];
      StrideIsWords(dims[1..], size * Extent(dims[0]), k - 1);
    }
  }

  lemma NoDimension(size: int)
    ensures Offset([], size) == 0 && Words([], size) == size && Strides([], size) == []
  {
  }

  // One more pair of bounds.
  method NextBounds(b: Bounds, size: int, arrc: int, stride: int, ghost before: seq<Bounds>)
    returns (place: int, above: int)
    requires arrc == (-Offset(before, size)) % CONSTANTS && stride == Words(before, size)
    requires 0 <= Words(before + [b], size) < CONSTANTS
    ensures place == (-Offset(before + [b], size)) % CONSTANTS && above == Words(before + [b], size)
  {
    hide Offset, Words;
    WordsAppend(before, b, size);
    OffsetAppend(before, b, size);
    MinusModulo(-Offset(before, size), b.lower * stride);
    place := (arrc - b.lower * stride) % CONSTANTS;
    var arrd := b.upper - b.lower;
    above := (arrd + 1) * stride % CONSTANTS;
    Commuted(arrd + 1, stride);
  }

  lemma Commuted(a: int, b: int)
    ensures a * b == b * a
  {
  }

  /**
   The translator: strides and length on the t-list, the place of the element with all indices zero
   modulo 2^26, then the words of the storage function for the constant list.
   */
  method StaticStorage(dims: seq<Bounds>, size: int, gvc: int) returns (words: seq<int>, next: int)
    requires dims != [] && NonEmpty(dims) && 0 < size && Words(dims, size) < CONSTANTS
    ensures |words| == |dims| + 3 && words[2..] == Strides(dims, size) + [-Words(dims, size)]
    ensures words[0] == gvc && words[1] == gvc + (-Offset(dims, size)) % CONSTANTS
    ensures next == gvc + Words(dims, size)
  {
    hide Offset, Words, Strides;
    NoDimension(size);
    var arrc, tlist := 0, [size];
    assert dims[..0] == [];
    assert Strides([], size) + [Words([], size)] == [size];
    for k := 0 to |dims|
      invariant arrc == (-Offset(dims[..k], size)) % CONSTANTS
      invariant |tlist| == k + 1
      invariant k < |dims| ==> tlist == Strides(dims[..k], size) + [Words(dims[..k], size)]
      invariant k == |dims| ==> tlist == Strides(dims[..k], size) + [-Words(dims[..k], size)]
    {
      assert dims[..k + 1] == dims[..k] + [dims[k]];
      WordsAppend(dims[..k], dims[k], size);
      PrefixWords(dims, size, k + 1);
      var above;
      arrc, above := NextBounds(dims[k], size, arrc, tlist[k], dims[..k]);
      tlist := tlist + [if k == |dims| - 1 then -above else above];
    }
    assert dims[..|dims|] == dims;
    words := [gvc, gvc + arrc] + tlist;
    next := gvc - tlist[|dims|];
  }

  // The words the translator makes are a storage function of the array.
  lemma StaticDescribes(dims: seq<Bounds>, size: int, gvc: int, words: seq<int>)
    requires |words| == |dims| + 3 && words[2..] == Strides(dims, size) + [-Words(dims, size)]
    requires words[0] == gvc && words[1] == gvc + (-Offset(dims, size)) % CONSTANTS
    requires 0 <= gvc
    ensures Describes(Storage(gvc, words[1], words[2..2 + |dims|], words[|words| - 1]), dims, size)
  {
    assert words[2..2 + |dims|] == words[2..][..|dims|] == Strides(dims, size);
    assert words[|words| - 1] == words[2..][|dims|];
    var o := -Offset(dims, size);
    assert gvc + o == words[1] + ADDRESSES * (64 * (o / CONSTANTS));
    MultipleDropped(words[1], 64 * (o / CONSTANTS), ADDRESSES);
  }

  // A declaration of several arrays with the same bounds: one storage function each.
  method StaticArrays(dims: seq<Bounds>, size: int, first: int, count: nat) returns (all: seq<seq<int>>, next: int)
    requires dims != [] && NonEmpty(dims) && 0 < size && Words(dims, size) < CONSTANTS
    ensures |all| == count && next == first + count * Words(dims, size)
    ensures forall j :: 0 <= j < count ==> |all[j]| == |dims| + 3 && all[j][0] == first + j * Words(dims, size)
    ensures forall j :: 0 <= j < count ==>
              && all[j][1] == all[j][0] + (-Offset(dims, size)) % CONSTANTS
              && all[j][2..] == Strides(dims, size) + [-Words(dims, size)]
  {
    all, next := [], first;
    for i := 0 to count
      invariant |all| == i && next == first + i * Words(dims, size)
      invariant forall j :: 0 <= j < i ==> |all[j]| == |dims| + 3 && all[j][0] == first + j * Words(dims, size)
      invariant forall j :: 0 <= j < i ==>
                  && all[j][1] == all[j][0] + (-Offset(dims, size)) % CONSTANTS
                  && all[j][2..] == Strides(dims, size) + [-Words(dims, size)]
    {
      var words;
      words, next := StaticStorage(dims, size, next);
      all := all + [words];
    }
  }

  // Arrays laid out one behind the other share no word.
  lemma ArraysDisjoint(dims: seq<Bounds>, size: int, first: int, i: nat, j: nat, index: seq<int>, other: seq<int>)
    requires NonEmpty(dims) && 0 < size && InBounds(dims, index) && InBounds(dims, other) && i < j
    ensures var w := Words(dims, size);
            first + i * w + Distance(dims, size, index) + size <= first + j * w + Distance(dims, size, other)
  {
    hide Words, Distance, InBounds, NonEmpty;
    var w := Words(dims, size);
    ElementInside(dims, size, index);
    ElementInside(dims, size, other);
    StridesSmall(dims, size);
    Scaled(i + 1, j, w);
    NextMultiple(i, w);
  }

  lemma NextMultiple(i: int, w: int)
    ensures (i + 1) * w == i * w + w
  {
  }
}
