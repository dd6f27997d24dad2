/**
 Reading the stream of digits, from the store downwards or from the library tape.
 */
module DigitReader {
  import opened Bits
  import opened Parity
  import opened WordStore
  import opened DigitSupply
  import opened TapeFormat
  import opened ObjectCode

  const HEADER := 30

  class Reader {
    const store: array<int>
    const tape: seq<nat>
    // 21 - bitcount digits in stock, at the left of bitstock.
    var bitstock: int
    var bitcount: int
    var fromStore: bool
    // From the store: the digits left of the current word, and where that word came from.
    var heptadeCount: int
    var stock: int
    var readLocation: int
    // From the tape: the heptades of the current group added up, and the next heptade.
    var parityWord: int
    var position: int

    // All digits not yet read; those not yet in stock are the groups left of the current word and
    // the words from base on; behind them on the tape comes trailer.
    ghost var rem: seq<bit>
    ghost var group: seq<nat>
    ghost var unread: seq<int>
    ghost var base: int
    ghost var trailer: seq<nat>

    constructor (memory: array<int>, heptades: seq<nat>)
      ensures store == memory && tape == heptades
    {
      store, tape := memory, heptades;
    }

    ghost predicate Stocked()
      requires AllWords(unread)
      reads this
    {
      && -6 <= bitcount <= 21 && 21 - bitcount <= |rem| && 7 * |group| - bitcount <= 26
      && bitstock == Window(rem[..21 - bitcount], 27)
      && rem[21 - bitcount..] == HeptadeBits(group) + WordBits(unread)
    }

    ghost predicate Supplied()
      reads this, store
    {
      && AllWords(unread) && Heptades(group) && |group| == -heptadeCount && |group| <= 3
      && if fromStore then
           stock == Window(HeptadeBits(group), 27) && Holds(store, base, readLocation, unread)
         else
           0 <= position <= |tape| && tape[position..] == group + TapeOf(unread) + trailer
           && 0 <= parityWord < 128
    }

    // Nothing was read wrongly so far.
    ghost predicate ParityRight()
      requires Supplied()
      reads this, store
    {
      !fromStore ==> Odd(parityWord) != GroupOdd(group)
    }

    ghost predicate Valid()
      reads this, store
    {
      Supplied() && Stocked()
    }

    // w is the first chunk of what is left of a word and of the words behind it.
    static ghost predicate ChunkTaken(g: seq<nat>, ws: seq<int>, w: int, g': seq<nat>, ws': seq<int>)
      requires AllWords(ws) && AllWords(ws')
    {
      var n := if g == [] then 6 else 7;
      && 0 <= w < Pow2(n) && |g'| == (if g == [] then 3 else |g| - 1)
      && HeptadeBits(g) + WordBits(ws) == BitsOf(w, n) + (HeptadeBits(g') + WordBits(ws'))
    }

    static lemma WordOpened(ws: seq<int>)
      requires AllWords(ws) && HeptadeBits([]) + WordBits(ws) != []
      ensures ws != []
      ensures var x, front := ws[|ws| - 1], ws[..|ws| - 1];
              && 0 <= x < 0x8000000 && ChunkTaken([], ws, TopSix(x), Sevens(x), front)
              && TapeOf(ws) == TapeWord(x) + TapeOf(front)
    {
      hide BitsOf, Window;
      Pow2Values();
      var x, front := ws[|ws| - 1], ws[..|ws| - 1];
      WordInGroups(x);
      Regroup(BitsOf(TopSix(x), 6), HeptadeBits(Sevens(x)), WordBits(front));
      assert [] + WordBits(ws) == WordBits(ws);
    }

    static lemma WordContinued(g: seq<nat>, ws: seq<int>)
      requires AllWords(ws) && Heptades(g) && g != []
      ensures ChunkTaken(g, ws, g[0], g[1..], ws)
    {
      hide BitsOf, WordBits;
      Pow2Values();
      Regroup(BitsOf(g[0], 7), HeptadeBits(g[1..]), WordBits(ws));
    }

    static lemma HeadOfTape(t: seq<nat>, p: nat, g: seq<nat>, r: seq<nat>, end: seq<nat>)
      requires p <= |t| && t[p..] == g + r + end && g != []
      ensures p < |t| && t[p] == g[0] && t[p + 1..] == g[1..] + r + end
    {
      assert t[p..][0] == g[0] && t[p..][1..] == t[p + 1..];
      assert (g + r + end)[1..] == g[1..] + r + end;
    }

    // The six digits at the head of the next word in store.
    method OpenWord() returns (w: int)
      requires fromStore && Supplied() && group == [] && HeptadeBits(group) + WordBits(unread) != []
      modifies this`heptadeCount, this`stock, this`readLocation, this`group, this`unread
      ensures readLocation <= old(readLocation) && (!fromStore ==> readLocation == old(readLocation))
      ensures Supplied() && ChunkTaken([], old(unread), w, group, unread)
    {
      hide BitsOf, WordBits, Window, HeptadeBits, ChunkTaken, TapeOf, Sevens, TopSix;
      WordOpened(unread);
      ghost var x := unread[|unread| - 1];
      WordInGroups(x);
      heptadeCount, readLocation := -3, readLocation - 1;
      stock := store[readLocation];
      assert stock == x;
      TopSixIs(x);
      w := stock / 0x200000;
      stock := stock % 0x200000 * 64;
      group, unread := Sevens(x), unread[..|unread| - 1];
    }

    static lemma TopSixIs(x: nat)
      ensures TopSix(x) == x / 0x200000 && |Sevens(x)| == 3
    {
    }

    // The next chunk of the word in store: six digits of a new word, or seven of the current one.
    method NextFromStore() returns (w: int)
      requires fromStore && Supplied() && HeptadeBits(group) + WordBits(unread) != []
      modifies this`heptadeCount, this`stock, this`readLocation, this`group, this`unread
      ensures readLocation <= old(readLocation) && (!fromStore ==> readLocation == old(readLocation))
      ensures Supplied() && ChunkTaken(old(group), old(unread), w, group, unread)
    {
      hide BitsOf, WordBits, Window, HeptadeBits, ChunkTaken, TapeOf;
      if heptadeCount + 1 > 0 {
        w := OpenWord();
      } else {
        WordContinued(group, unread);
        GroupOpened(group);
        heptadeCount := heptadeCount + 1;
        w := stock / 0x100000;
        stock := stock % 0x100000 * 128;
        group := group[1..];
      }
    }

    static lemma GroupOpened(g: seq<nat>)
      requires Heptades(g) && 1 <= |g| <= 3
      ensures var stock := Window(HeptadeBits(g), 27);
              stock / 0x100000 == g[0] && stock % 0x100000 * 128 == Window(HeptadeBits(g[1..]), 27)
    {
      HeptadeInStock(g[0], HeptadeBits(g[1..]));
    }

    // The next heptade of the tape; at the start of a group the group before it is tested.
    method TakeHeptade() returns (stop: nat, w: int)
      requires 0 <= position < |tape| && tape[position] < 128 && 0 <= parityWord < 128
      modifies this`heptadeCount, this`parityWord, this`position
      ensures position == old(position) + 1 && 0 <= parityWord < 128
      ensures stop == (if old(heptadeCount) >= 0 && !Odd(old(parityWord)) then 105 else 0)
      ensures stop == 0 ==>
                var h := tape[old(position)];
                if old(heptadeCount) >= 0 then w == h / 2 && heptadeCount == -3 && parityWord == h
                else w == h && heptadeCount == old(heptadeCount) + 1 && parityWord == Xor(old(parityWord), h)
    {
      hide Odd, Xor;
      w := tape[position];
      heptadeCount, position, stop := heptadeCount + 1, position + 1, 0;
      if heptadeCount > 0 {
        FoldedTest(parityWord);
        if EvenOfFour(Xor(parityWord, parityWord / 16) % 16) {
          return 105, 0;
        }
        heptadeCount := -3;
        parityWord := w;
        w := w / 2;
      } else {
        HeptadeXor(parityWord, w);
        parityWord := Xor(parityWord, w);
      }
    }

    // The next chunk of the tape.
    method NextFromTape() returns (stop: nat, w: int)
      requires !fromStore && Supplied() && HeptadeBits(group) + WordBits(unread) != []
      modifies this`heptadeCount, this`parityWord, this`position, this`group, this`unread
      ensures stop == (if old(group) == [] && !Odd(old(parityWord)) then 105 else 0)
      ensures stop == 0 ==> Supplied() && ChunkTaken(old(group), old(unread), w, group, unread)
      ensures stop == 0 && old(Odd(parityWord) != GroupOdd(group)) ==> Odd(parityWord) != GroupOdd(group)
    {
      hide BitsOf, WordBits, HeptadeBits, ChunkTaken, TapeOf, Odd, Xor;
      if group == [] {
        WordOpened(unread);
        ghost var x, front := unread[|unread| - 1], unread[..|unread| - 1];
        TapeWordSplits(x);
        assert tape[position..] == TapeWord(x) + TapeOf(front) + trailer;
        HeadOfTape(tape, position, TapeWord(x), TapeOf(front), trailer);
        group, unread := Sevens(x), front;
      } else {
        WordContinued(group, unread);
        HeadOfTape(tape, position, group, TapeOf(unread), trailer);
        XorParity(parityWord, tape[position]);
        group := group[1..];
      }
      stop, w := TakeHeptade();
    }

    static lemma HeptadeXor(x: nat, y: nat)
      requires x < 128 && y < 128
      ensures Xor(x, y) < 128
    {
      Pow2Values();
      XorBound(x, y, 7);
    }

    // The next chunk, from wherever the stream is read; bitcount makes up for a short one.
    method NextChunk() returns (stop: nat, w: int)
      requires Supplied() && HeptadeBits(group) + WordBits(unread) != []
      modifies this`bitcount, this`heptadeCount, this`stock, this`readLocation, this`parityWord, this`position
      modifies this`group, this`unread
      ensures readLocation <= old(readLocation) && (!fromStore ==> readLocation == old(readLocation))
      ensures bitcount == old(bitcount) + (if old(group) == [] then 1 else 0)
      ensures stop == 0 ==> Supplied() && ChunkTaken(old(group), old(unread), w, group, unread)
      ensures old(ParityRight()) ==> stop == 0 && ParityRight()
    {
      hide BitsOf, WordBits, Window, Odd, Holds, TapeOf, HeptadeBits, ChunkTaken;
      if heptadeCount == 0 {
        bitcount := bitcount + 1;
      }
      if fromStore {
        w := NextFromStore();
        stop := 0;
      } else {
        stop, w := NextFromTape();
      }
    }

    // Refills the stock: at least 21 digits afterwards.
    method CompleteBitstock() returns (stop: nat)
      requires Valid() && |rem| >= 21
      modifies this`bitstock, this`bitcount, this`heptadeCount, this`stock, this`readLocation, this`parityWord
      modifies this`position, this`group, this`unread
      ensures readLocation <= old(readLocation) && (!fromStore ==> readLocation == old(readLocation))
      ensures stop == 0 ==> Valid() && bitcount <= 0
      ensures old(ParityRight()) ==> stop == 0 && ParityRight()
    {
      hide BitsOf, WordBits, Window, Odd, Holds, TapeOf, HeptadeBits, GroupOdd, Pow2;
      stop := 0;
      while bitcount > 0
        invariant readLocation <= old(readLocation) && (!fromStore ==> readLocation == old(readLocation))
        invariant Valid() && (old(ParityRight()) ==> ParityRight())
        decreases bitcount
      {
        ghost var k, n := 21 - bitcount, if group == [] then 6 else 7;
        var w;
        stop, w := NextChunk();
        if stop != 0 {
          return;
        }
        StockGrows(rem, k, w, n, HeptadeBits(group) + WordBits(unread));
        var shifted := ShiftWord(w, bitcount - 1);
        bitstock := bitstock + shifted;
        bitcount := bitcount - 7;
      }
    }

    static method ShiftWord(w: int, places: int) returns (r: int)
      requires 0 <= w && 0 <= places
      ensures r == Shl(w, places)
    {
      r := w;
      for i := 0 to places
        invariant r >= 0 && r == Shl(w, i)
      {
        r := r * 2;
      }
    }

    // Moves n digits from the left of the stock into w.
    static method TakeDigits(bits: int, n: int, ghost digits: seq<bit>) returns (w: int, left: int)
      requires 0 <= n <= |digits| <= 27 && bits == Window(digits, 27)
      ensures 0 <= w < Pow2(n) && BitsOf(w, n) == digits[..n] && left == Window(digits[n..], 27)
    {
      hide Window, Pow2, BitsOf;
      w, left := 0, bits;
      NoDigits();
      for i := 0 to n
        invariant 0 <= w < Pow2(i) && BitsOf(w, i) == digits[..i]
        invariant left == Window(digits[i..], 27)
      {
        FirstDigit(digits[i..]);
        DigitAppended(w, i, digits[i]);
        assert digits[i..][1..] == digits[i + 1..];
        w := w * 2 + left / 0x4000000;
        left := left % 0x4000000 * 2;
      }
    }

    static lemma NoDigits()
      ensures Pow2(0) == 1 && BitsOf(0, 0) == []
    {
    }

    // Takes n digits from the stock.
    method ReadBitString(n: int) returns (stop: nat, w: int)
      requires Valid() && bitcount <= 0 && 0 <= n <= 21 && |rem| >= n + 21
      modifies this`rem, this`bitstock, this`bitcount, this`heptadeCount, this`stock, this`readLocation
      modifies this`parityWord, this`position, this`group, this`unread
      ensures readLocation <= old(readLocation) && (!fromStore ==> readLocation == old(readLocation))
      ensures 0 <= w < Pow2(n) && BitsOf(w, n) == old(rem)[..n]
      ensures stop == 0 ==> Valid() && bitcount <= 0 && rem == old(rem)[n..]
      ensures old(ParityRight()) ==> stop == 0 && ParityRight()
    {
      hide WordBits, Window, Odd, Holds, TapeOf, HeptadeBits, GroupOdd, Pow2, BitsOf;
      ghost var digits := rem[..21 - bitcount];
      w, bitstock := TakeDigits(bitstock, n, digits);
      assert digits[n..] == rem[n..][..21 - bitcount - n];
      assert digits[..n] == rem[..n];
      bitcount := bitcount + n;
      rem := rem[n..];
      stop := CompleteBitstock();
    }

    // Length and value of the address at the head of the window, by tests on leading digits.
    static method DecodeAddress(window: int) returns (n: int, a: int)
      requires 0 <= window < 0x8000000
      ensures (n, a) == AddressAt(window)
    {
      var w := window;
      if w < 0x4000000 {
        n, a, w := 1, 0, w * 2;
      } else {
        n, a, w := 6, w / 0x200000 % 32, w % 0x200000 * 64;
      }
      ghost var high := HighStage(window);
      assert high == (n, a, w);
      hide HighStage, AddressAt;
      n, a, w := DecodeMiddle(n, a, w);
      n, a := DecodeLow(n, a, w);
      StagesAdd(window, high, MiddleStage(high.2), LowStage(MiddleStage(high.2).2));
    }

    static method DecodeMiddle(n0: int, a0: int, w0: int) returns (n: int, a: int, w: int)
      requires 0 <= w0 < 0x8000000 && 0 <= a0
      ensures 0 <= w < 0x8000000 && MiddleStage(w0) == (n - n0, a - 32 * a0, w)
    {
      if w0 < 0x2000000 {
        n, a, w := n0 + 2, a0 * 32, w0 * 4;
      } else if w0 < 0x4000000 {
        n, a := n0 + 4, a0 * 32 + w0 / 0x800000;
        a := if a % 32 < 6 then a - 3 else a - 2;
        w := w0 % 0x800000 * 16;
      } else {
        n, a, w := n0 + 6, a0 * 32 + w0 / 0x200000 % 32, w0 % 0x200000 * 64;
      }
    }

    static method DecodeLow(n0: int, a0: int, w: int) returns (n: int, a: int)
      requires 0 <= w < 0x8000000
      ensures LowStage(w) == (n - n0, a - 32 * a0)
    {
      if w < 0x2000000 {
        n, a := n0 + 2, a0 * 32 + 1;
      } else if w < 0x4000000 {
        n, a := n0 + 3, a0 * 32 + w / 0x1000000;
      } else {
        n, a := n0 + 6, a0 * 32 + w / 0x200000 % 32;
      }
    }

    static lemma StagesAdd(w: nat, high: (nat, nat, nat), middle: (nat, nat, nat), low: (nat, nat))
      requires high == HighStage(w) && middle == MiddleStage(high.2) && low == LowStage(middle.2)
      ensures AddressAt(w) == (high.0 + middle.0 + low.0, high.1 * 1024 + middle.1 * 32 + low.1)
    {
      hide HighStage, MiddleStage, LowStage;
    }

    // Reads back an address.
    method AddressDecoding(ghost address: nat, ghost rest: seq<bit>) returns (stop: nat, a: int)
      requires Valid() && bitcount <= 0 && rem == AddressBits(address) + rest && |rest| >= 21
      modifies this`rem, this`bitstock, this`bitcount, this`heptadeCount, this`stock, this`readLocation
      modifies this`parityWord, this`position, this`group, this`unread
      ensures readLocation <= old(readLocation) && (!fromStore ==> readLocation == old(readLocation))
      ensures a == address % 32768
      ensures stop == 0 ==> Valid() && bitcount <= 0 && rem == rest
      ensures old(ParityRight()) ==> stop == 0 && ParityRight()
    {
      hide WordBits, Window, Odd, Holds, TapeOf, HeptadeBits, GroupOdd, Pow2, BitsOf, AddressBits, AddressAt;
      ghost var ahead := rest[..21 - bitcount - |AddressBits(address)|];
      assert rem[..21 - bitcount] == AddressBits(address) + ahead;
      AddressReads(address, ahead);
      WindowFits(rem[..21 - bitcount]);
      var n, skipped;
      n, a := DecodeAddress(bitstock);
      assert (AddressBits(address) + rest)[n..] == rest;
      stop, skipped := ReadBitString(n);
    }

    static lemma WindowFits(s: seq<bit>)
      ensures Window(s, 27) < 0x8000000
    {
      Pow2Values();
    }

    // Starts reading the object code where the translator stopped writing: count digits are in stock
    // and the words ws lie below readLocation.
    method PrepareFromStore(stocked: int, count: int, location: int, ghost from: int, ghost ws: seq<int>)
      returns (stop: nat)
      requires 0 <= count <= 27 && 0 <= stocked < Pow2(count)
      requires AllWords(ws) && Holds(store, from, location, ws) && count + |WordBits(ws)| >= 21
      modifies this
      ensures stop == 0 && Valid() && bitcount <= 0 && fromStore && ParityRight() && base == from
              && readLocation <= location
      ensures rem == BitsOf(stocked, count) + WordBits(ws)
    {
      hide BitsOf, Window, Odd, Holds, TapeOf, Pow2, WordBits, Shl, GroupOdd;
      StartStore(stocked, count, location, from, ws);
      WordBitsLength(ws);
      stop := CompleteBitstock();
    }

    method StartStore(stocked: int, count: int, location: int, ghost from: int, ghost ws: seq<int>)
      requires 0 <= count <= 27 && 0 <= stocked < Pow2(count) && AllWords(ws) && Holds(store, from, location, ws)
      modifies this
      ensures Valid() && fromStore && ParityRight() && base == from && readLocation == location
      ensures rem == BitsOf(stocked, count) + WordBits(ws)
    {
      hide BitsOf, Window, Odd, Holds, TapeOf, Pow2, WordBits, Shl, GroupOdd;
      StockAtLeft(stocked, count);
      EmptyGroup();
      rem, group, unread, base := BitsOf(stocked, count) + WordBits(ws), [], ws, from;
      bitstock := ShiftWord(stocked, 27 - count);
      bitcount, heptadeCount, fromStore, stock, readLocation := 21 - count, 0, true, 0, location;
      assert rem[..count] == BitsOf(stocked, count);
      assert rem[count..] == [] + WordBits(ws);
    }

    // Looks for the header of the next list on the tape, and starts reading behind it.
    method FindHeader(ghost blank: nat, ghost ws: seq<int>, ghost end: seq<nat>) returns (stop: nat)
      requires 0 <= position && position + blank < |tape|
               && (forall k :: position <= k < position + blank ==> tape[k] == 0)
      requires tape[position + blank] != 0 && AllWords(ws) && |ws| >= 1
      requires tape[position + blank] == HEADER ==> tape[position + blank + 1..] == TapeOf(ws) + end
      modifies this
      ensures stop == (if old(tape[position + blank]) != HEADER then 106 else 0)
      ensures stop == 0 ==> Valid() && bitcount <= 0 && !fromStore && ParityRight() && readLocation == old(readLocation)
      ensures stop == 0 ==> rem == WordBits(ws) && trailer == end
    {
      hide BitsOf, Window, Odd, Holds, TapeOf, Pow2, WordBits, Shl, GroupOdd, HeptadeBits, Stocked;
      fromStore, bitstock, bitcount := false, 0, 21;
      var w := SkipBlank(blank);
      if w != HEADER {
        return 106;
      }
      StartTape(ws, end);
      WordBitsLength(ws);
      stop := CompleteBitstock();
    }

    // The reader is behind the header, with nothing in stock.
    method StartTape(ghost ws: seq<int>, ghost end: seq<nat>)
      requires !fromStore && bitstock == 0 && bitcount == 21 && AllWords(ws)
      requires 0 <= position <= |tape| && tape[position..] == TapeOf(ws) + end
      modifies this`heptadeCount, this`parityWord, this`rem, this`group, this`unread, this`trailer
      ensures Valid() && ParityRight() && rem == WordBits(ws) && trailer == end
    {
      hide BitsOf, Window, Odd, Holds, TapeOf, Pow2, WordBits, Shl, GroupOdd, HeptadeBits;
      heptadeCount, parityWord := 0, 1;
      rem, group, unread, trailer := WordBits(ws), [], ws, end;
      assert tape[position..] == [] + TapeOf(ws) + end;
      assert rem[0..] == [] + WordBits(ws) && rem[..0] == [];
      EmptyGroup();
      OneIsOdd();
    }

    // The first heptade that is not blank.
    method SkipBlank(ghost blank: nat) returns (w: int)
      requires 0 <= position && position + blank < |tape|
               && (forall k :: position <= k < position + blank ==> tape[k] == 0)
      requires tape[position + blank] != 0
      modifies this`position
      ensures position == old(position) + blank + 1 && w == tape[old(position) + blank]
    {
      ghost var first := position + blank;
      w := tape[position];
      position := position + 1;
      while w == 0
        invariant old(position) < position <= first + 1 && w == tape[position - 1]
        decreases first + 1 - position
      {
        w := tape[position];
        position := position + 1;
      }
    }

    static lemma OneIsOdd()
      ensures Odd(1) && !GroupOdd([])
    {
    }

    // Skips the zeros that fill up the last word, and the one behind them.
    method SkipFilling(ghost z: nat, ghost rest: seq<bit>) returns (stop: nat)
      requires Valid() && bitcount <= 0 && rem == Zeros(z) + ([1] + rest) && |rest| >= 21
      modifies this`rem, this`bitstock, this`bitcount, this`heptadeCount, this`stock, this`readLocation
      modifies this`parityWord, this`position, this`group, this`unread
      ensures stop == 0 ==> Valid() && bitcount <= 0 && rem == rest
      ensures old(ParityRight()) ==> stop == 0 && ParityRight()
      ensures readLocation <= old(readLocation) && (!fromStore ==> readLocation == old(readLocation))
    {
      hide BitsOf, Window, Odd, Holds, TapeOf, Pow2, WordBits, Shl, GroupOdd, HeptadeBits, Zeros;
      ghost var left := z;
      var w := 0;
      while w != 1
        invariant Valid() && bitcount <= 0 && (w == 0 || w == 1) && (old(ParityRight()) ==> ParityRight())
        invariant rem == if w == 1 then rest else Zeros(left) + ([1] + rest)
        invariant readLocation <= old(readLocation) && (!fromStore ==> readLocation == old(readLocation))
        decreases w == 0, left
      {
        FillingDigit(left, rest);
        ghost var digit: bit := if left == 0 then 1 else 0;
        stop, w := ReadCode(1, digit, if left == 0 then rest else Zeros(left - 1) + ([1] + rest));
        left := if left == 0 then 0 else left - 1;
        if stop != 0 {
          return;
        }
      }
      stop := 0;
    }

    static lemma FillingDigit(left: nat, rest: seq<bit>)
      ensures Pow2(1) == 2
      ensures Zeros(left) + ([1] + rest)
              == if left == 0 then BitsOf(1, 1) + rest else BitsOf(0, 1) + (Zeros(left - 1) + ([1] + rest))
    {
      assert BitsOf(0, 0) == [];
      assert BitsOf(0, 1) == [0] && BitsOf(1, 1) == [1];
    }

    static lemma StockAtLeft(stocked: nat, count: nat)
      requires count <= 27 && stocked < Pow2(count)
      ensures Window(BitsOf(stocked, count), 27) == Shl(stocked, 27 - count)
    {
      WindowOfCode(stocked, count, [], 27);
      assert BitsOf(stocked, count) + [] == BitsOf(stocked, count);
    }

    // The words below the current one may not change while the stream is read; others may.
    twostate lemma Undisturbed()
      requires old(Valid()) && unchanged(this)
      requires fromStore ==> forall k :: 0 <= k < readLocation <= store.Length ==> store[k] == old(store[k])
      ensures Valid() && ParityRight() == old(ParityRight())
    {
    }

    // The place in store follows from what is still to be read: nothing is fetched too early.
    lemma WhereReading()
      requires Valid() && bitcount <= 0 && fromStore
      ensures |rem| >= 21 && readLocation == base + (|rem| - 21) / 27
    {
      hide Window, BitsOf;
      WordBitsLength(unread);
      WordsAndRest(|unread|, 7 * |group| - bitcount);
      assert |rem[21 - bitcount..]| == 7 * |group| + 27 * |unread|;
    }

    static lemma WordsAndRest(n: int, r: int)
      requires 0 <= r < 27
      ensures (27 * n + r) / 27 == n
    {
    }

    // When one last word is left of the stream, all of it is in stock.
    lemma LastWordInStock(x: nat)
      requires Valid() && bitcount <= 0 && x < 0x8000000 && rem == BitsOf(x, 27)
      ensures bitstock == x && group == [] && unread == []
    {
      hide BitsOf, WordBits, Window;
      WordBitsLength(unread);
      assert rem[..27] == BitsOf(x, 27) == BitsOf(x, 27) + [];
      WholeWindow(x);
    }

    static lemma WholeWindow(x: nat)
      requires x < 0x8000000
      ensures Window(BitsOf(x, 27), 27) == x
    {
      hide BitsOf, Window;
      Pow2Values();
      WindowOfCode(x, 27, [], 27);
      ShlStart(x);
      WindowEmpty(0);
      assert BitsOf(x, 27) + [] == BitsOf(x, 27);
    }

    static lemma EmptyGroup()
      ensures HeptadeBits([]) == [] && Window([], 27) == 0
    {
    }

    // The digits of a code at the head of the stream come out as its value.
    method ReadCode(n: int, ghost v: nat, ghost rest: seq<bit>) returns (stop: nat, w: int)
      requires Valid() && bitcount <= 0 && 0 <= n <= 21 && v < Pow2(n) && rem == BitsOf(v, n) + rest && |rest| >= 21
      modifies this`rem, this`bitstock, this`bitcount, this`heptadeCount, this`stock, this`readLocation
      modifies this`parityWord, this`position, this`group, this`unread
      ensures readLocation <= old(readLocation) && (!fromStore ==> readLocation == old(readLocation))
      ensures w == v
      ensures stop == 0 ==> Valid() && bitcount <= 0 && rem == rest
      ensures old(ParityRight()) ==> stop == 0 && ParityRight()
    {
      hide WordBits, Window, Odd, Holds, TapeOf, HeptadeBits, GroupOdd, Pow2, BitsOf;
      assert rem[..n] == BitsOf(v, n) && rem[n..] == rest;
      stop, w := ReadBitString(n);
      BitsOfInjective(w, v, n);
    }

    // Reads the part of a code behind its leading 1, and with the escape code the order half.
    method ReadMask(ghost c: nat, ghost half: nat, ghost rest: seq<bit>) returns (stop: nat, mask: int)
      requires Valid() && bitcount <= 0 && MaskShape(c) && |rest| >= 21
      requires rem == BitsOf(MaskRest(c), c / 1024 - 1) + ((if c == ESCAPE then AddressBits(half) else []) + rest)
      modifies this`rem, this`bitstock, this`bitcount, this`heptadeCount, this`stock, this`readLocation
      modifies this`parityWord, this`position, this`group, this`unread
      ensures readLocation <= old(readLocation) && (!fromStore ==> readLocation == old(readLocation))
      ensures stop == 0 ==> mask == if c == ESCAPE then half % 32768 else MaskTable(MaskNumber(c))
      ensures stop == 0 ==> Valid() && bitcount <= 0 && rem == rest
      ensures old(ParityRight()) ==> stop == 0 && ParityRight()
    {
      hide WordBits, Window, Odd, Holds, TapeOf, HeptadeBits, GroupOdd, Pow2, BitsOf, AddressBits, MaskTable;
      ghost var n, behind := c / 1024 - 1, (if c == ESCAPE then AddressBits(half) else []) + rest;
      assert rem[..21 - bitcount] == BitsOf(MaskRest(c), n) + behind[..21 - bitcount - n];
      MaskRestReads(n, MaskRest(c), behind[..21 - bitcount - n]);
      var index;
      if bitstock < 0x4000000 {
        stop, index := ReadCode(2, MaskRest(c), behind);
      } else if bitstock < 0x6000000 {
        stop, index := ReadCode(3, MaskRest(c), behind);
        index := index - 2;
      } else {
        stop, index := ReadCode(6, MaskRest(c), behind);
        index := index - 44;
      }
      if stop != 0 {
        return stop, 0;
      }
      assert index == MaskNumber(c);
      if index == 19 {
        stop, mask := AddressDecoding(half, rest);
      } else {
        assert behind == rest;
        mask := MaskTable(index);
      }
    }

    // Reads the code of a call into the run-time system.
    method ReadOrder(ghost opc: int, ghost rest: seq<bit>) returns (stop: nat, w: int)
      requires Valid() && bitcount <= 0 && 8 <= opc <= 112 && |rest| >= 21
      requires rem == CodeBits(OpCode(opc)) + rest
      modifies this`rem, this`bitstock, this`bitcount, this`heptadeCount, this`stock, this`readLocation
      modifies this`parityWord, this`position, this`group, this`unread
      ensures readLocation <= old(readLocation) && (!fromStore ==> readLocation == old(readLocation))
      ensures w == opc
      ensures stop == 0 ==> Valid() && bitcount <= 0 && rem == rest
      ensures old(ParityRight()) ==> stop == 0 && ParityRight()
    {
      hide WordBits, Window, Odd, Holds, TapeOf, HeptadeBits, GroupOdd, Pow2, BitsOf, OpTable, OpCode;
      ghost var c := OpCode(opc);
      OpCodeShape(opc);
      OpTableInverts(opc);
      assert rem[..21 - bitcount] == CodeBits(c) + rest[..21 - bitcount - c / 1024];
      OpShapeReads(c, rest[..21 - bitcount - c / 1024]);
      if bitstock < 0x2000000 {
        w := if bitstock < 0x1000000 then 4 else 5;
      } else if bitstock < 0x3000000 {
        w := if bitstock < 0x2800000 then 6 else 7;
      } else {
        w := 10;
      }
      stop, w := ReadCode(w, c % 1024, rest);
      if w < 2 {
      } else if w < 8 {
        w := w - 2;
      } else if w < 24 {
        w := w - 10;
      } else if w < 48 {
        w := w - 30;
      } else {
        w := w - 366;
      }
      w := OpTable(w);
    }

    // Reads one instruction back as its opc and its word.
    method ReadInstr(ghost i: Instr, ghost rest: seq<bit>) returns (stop: nat, opc: int, w: int)
      requires Valid() && bitcount <= 0 && Emittable(i) && rem == InstrBits(i) + rest && |rest| >= 21
      modifies this`rem, this`bitstock, this`bitcount, this`heptadeCount, this`stock, this`readLocation
      modifies this`parityWord, this`position, this`group, this`unread
      ensures readLocation <= old(readLocation) && (!fromStore ==> readLocation == old(readLocation))
      ensures stop == 0 ==> if i.opc < 8 then opc == i.opc && w == i.w else opc == 8 && w == i.opc
      ensures stop == 0 ==> Valid() && bitcount <= 0 && rem == rest
      ensures old(ParityRight()) ==> stop == 0 && ParityRight()
    {
      hide WordBits, Window, Odd, Holds, TapeOf, HeptadeBits, GroupOdd, Pow2, BitsOf, AddressBits, OpCode, MaskCode;
      hide MaskTable, InstrBits;
      ghost var u := i.w / 32768;
      ghost var half := u + i.opc * 4096;
      ghost var c := if i.opc < 8 then MaskCode(u * 32768 + i.opc) else OpCode(i.opc);
      ghost var escape := if i.opc < 8 && c == ESCAPE then AddressBits(half) else [];
      InstrOpens(i, c, escape, if i.opc < 8 then AddressBits(i.w) else [], rest, 21 - bitcount);
      if bitstock < 0x4000000 {
        stop, w := ReadOrder(i.opc, rest);
        opc := 8;
      } else {
        MaskInverts(u, i.opc);
        Pow2Values();
        stop, w := ReadCode(1, 1, BitsOf(MaskRest(c), c / 1024 - 1) + (escape + (AddressBits(i.w) + rest)));
        if stop != 0 {
          return stop, 0, 0;
        }
        stop, w := ReadMask(c, half, AddressBits(i.w) + rest);
        if stop != 0 {
          return stop, 0, 0;
        }
        assert w == half;
        var address;
        stop, address := AddressDecoding(i.w, rest);
        opc := w / 4096;
        w := w % 4096 * 32768 + address;
      }
    }
  }
}
