/**
 The store of the translator during the main scan.  One array holds, from low to high addresses:
 the object code written so far, a gap, the symbols of the source text still to be read, the
 future list, the constant list, the name list, a gap, and the prescan list.  The lists have no
 fixed places: each one slides up when the one below it needs room.
 */
module CompilerStore {
  import opened Bits
  import opened ObjectCode
  import opened Shifting
  import opened SymbolText
  import opened WordStore
  import opened ConstantSearch
  import opened X1Integers

  const BIM := 972   // first word of the object code
  const PLIE := 6783 // last word of the prescan list

  // The abstract contents of the store above the object code.
  datatype Lists = Lists(text: seq<int>, fli: seq<int>, kli: seq<int>, nli: seq<int>, prescan: seq<int>)

  // now is was, grown by sixteen places when k is beyond it, with value at place k.
  predicate Entered(was: seq<int>, now: seq<int>, k: int, value: int) {
    && |now| == (if k < |was| then |was| else |was| + 16)
    && 0 <= k < |now| && now[k] == value
    && forall j :: 0 <= j < |was| && j != k ==> now[j] == was[j]
  }

  lemma ProgramBitsAppend(p: seq<Instr>, i: Instr)
    requires AllEmittable(p) && Emittable(i)
    ensures AllEmittable(p + [i]) && ProgramBits(p + [i]) == InstrBits(i) + ProgramBits(p)
  {
    hide InstrBits;
    assert (p + [i])[..|p|] == p;
  }

  class Compiler {
    const store: array<int>
    // Object code: words BIM..rnsb, then bitcount digits in bitstock.
    var rnsb: int
    var bitstock: int
    var bitcount: int
    var rlsc: int
    // Unread source text, future list, constant list, name list, prescan list.
    var rnsd: int
    var rnsc: int
    var rnsa: int // only during the prescan
    var flib: int
    var klib: int
    var klsc: int
    var nlib: int
    var nlsc: int
    var plib: int
    // The full words of the object code, all its digits, the lists, and the calls of
    // fill_result_list so far.
    ghost var words: seq<int>
    ghost var stream: seq<bit>
    ghost var lists: Lists
    ghost var program: seq<Instr>
    // The symbols of the whole source text.
    ghost var source: seq<int>

    // The object code may have just reached the unread text.
    ghost predicate Ordered()
      reads this
    {
      && BIM <= rnsb <= rnsd <= flib <= klib
      && 0 <= klsc && klib + klsc <= nlib
      && 0 <= nlsc && nlib + nlsc <= plib <= PLIE
      && 0 <= bitcount <= 27 && 0 <= bitstock < Pow2(bitcount)
    }

    ghost predicate Represents()
      reads this, store
    {
      && Holds(store, BIM, rnsb, words)
      && Holds(store, rnsd, flib, lists.text)
      && Holds(store, flib, klib, lists.fli)
      && Holds(store, klib, klib + klsc, lists.kli)
      && Holds(store, nlib, nlib + nlsc, lists.nli)
      && Holds(store, plib, store.Length, lists.prescan)
    }

    ghost predicate Coded()
      reads this
    {
      AllWords(words) && 0 <= bitcount && 0 <= bitstock && stream == BitsOf(bitstock, bitcount) + WordBits(words)
    }

    ghost predicate Layout()
      reads this, store
    {
      store.Length == STORE_SIZE && Ordered() && rnsb < rnsd && Represents() && Coded()
    }

    ghost predicate Valid()
      reads this, store
    {
      Layout() && AllEmittable(program) && |program| == rlsc && stream == ProgramBits(program)
    }

    // Moves the words from..from + count up by the given distance, last word first.
    method ShiftUp(from: int, count: int, distance: int)
      requires 0 <= from && 0 <= count && 0 <= distance && from + count + distance <= store.Length
      modifies store
      ensures forall k :: from + distance <= k < from + distance + count ==> store[k] == old(store[k - distance])
      ensures forall k :: 0 <= k < from + distance || from + distance + count <= k < store.Length ==>
              store[k] == old(store[k])
    {
      for i := count downto 0
        invariant forall k :: 0 <= k < store.Length && !(from + distance + i <= k < from + distance + count) ==>
                  store[k] == old(store[k])
        invariant forall k :: from + distance + i <= k < from + distance + count ==>
                  store[k] == old(store[k - distance])
      {
        store[from + i + distance] := store[from + i];
      }
    }

    // Moves v left over the given number of places, into a head and a 27-digit tail.
    static method ShiftLeft(v: int, places: int) returns (head: int, tail: int)
      requires 0 <= v && 0 <= places
      ensures (head, tail) == Shifted(v, places)
    {
      head, tail := 0, v;
      for i := 0 to places
        invariant 0 <= head && 0 <= tail && (head, tail) == Shifted(v, i)
      {
        head, tail := head * 2 + tail / 0x4000000, tail % 0x4000000 * 2;
      }
    }

    // The stock is full: it becomes the next word of the object code.
    method StoreWord(full: int, head: int, count: int)
      requires Ordered() && rnsb < rnsd && Represents()
      requires 0 <= count <= 27 && 0 <= head < Pow2(count)
      modifies this`rnsb, this`words, this`bitstock, this`bitcount, store
      ensures Ordered() && Represents() && rnsb == old(rnsb) + 1 && words == old(words) + [full]
      ensures bitstock == head && bitcount == count
    {
      store[rnsb] := full;
      bitstock, bitcount, rnsb, words := head, count, rnsb + 1, words + [full];
    }

    // When the object code has reached the unread text, everything from the text to the name list
    // moves up by eight words.
    method MakeRoom() returns (stop: nat)
      requires Ordered() && Represents()
      modifies this`rnsd, this`flib, this`klib, this`nlib, store
      ensures stop == (if rnsb == old(rnsd) && old(nlib) + nlsc + 8 >= plib then 25 else 0)
      ensures stop == 0 ==> Ordered() && Represents() && rnsb < rnsd
    {
      hide Pow2;
      if rnsb != rnsd {
        return 0;
      }
      if nlib + nlsc + 8 >= plib {
        return 25;
      }
      ShiftUp(rnsd, nlib + nlsc - rnsd, 8);
      rnsd := rnsd + 8;
      flib := flib + 8;
      klib := klib + 8;
      nlib := nlib + 8;
      return 0;
    }

    // A full word goes to the store, the rest stays in stock.
    method Spill(full: int, head: int, count: int, ghost after: seq<bit>) returns (stop: nat)
      requires store.Length == STORE_SIZE && Ordered() && rnsb < rnsd && Represents()
      requires 0 <= count <= 27 && 0 <= head < Pow2(count)
      requires AllWords(words + [full]) && after == BitsOf(head, count) + WordBits(words + [full])
      modifies this`rnsb, this`rnsd, this`flib, this`klib, this`nlib, this`words, this`stream, this`bitstock
      modifies this`bitcount, store
      ensures stop == (if old(rnsb) + 1 == old(rnsd) && old(nlib) + nlsc + 8 >= plib then 25 else 0)
      ensures stop == 0 ==> Layout() && stream == after
    {
      hide WordBits, BitsOf, Pow2, Holds, AllWords;
      stream := after;
      StoreWord(full, head, count);
      stop := MakeRoom();
    }

    // A code that fits in the stock.
    method Stock(low: int, count: int, ghost after: seq<bit>)
      requires Layout() && 0 <= count <= 27 && 0 <= low < Pow2(count) && after == BitsOf(low, count) + WordBits(words)
      modifies this`stream, this`bitstock, this`bitcount
      ensures Layout() && stream == after
    {
      hide WordBits, BitsOf, Pow2, Holds, AllWords;
      bitstock, bitcount, stream := low, count, after;
    }

    // Appends one code to the stream.  Returns the number of the stop, or 0 to continue.
    method BitStringMaker(c: int) returns (stop: nat)
      requires Layout() && 0 <= c && IsCode(c)
      modifies this, store
      ensures stop == (if old(bitcount) + c / 1024 > 27 && old(rnsb) + 1 == old(rnsd)
                          && old(nlib + nlsc) + 8 >= old(plib) then 25 else 0)
      ensures stop == 0 ==> Layout() && stream == CodeBits(c) + old(stream)
      ensures lists == old(lists) && rlsc == old(rlsc) && rnsc == old(rnsc) && program == old(program)
    {
      hide WordBits, BitsOf, Pow2, Shifted, Holds;
      var head, tail := ShiftLeft(c % 1024, bitcount);
      var low, count := bitstock + tail, bitcount + c / 1024;
      ghost var digits, after := BitsOf(bitstock, bitcount), CodeBits(c) + stream;
      if count <= 27 {
        StockFits(c % 1024, c / 1024, bitstock, bitcount);
        Regroup(CodeBits(c), digits, WordBits(words));
        Stock(low, count, after);
        return 0;
      }
      StockSpills(c % 1024, c / 1024, bitstock, bitcount);
      WordFilled(words, CodeBits(c), digits, BitsOf(head, count - 27), low);
      stop := Spill(low, head, count - 27, after);
    }

    // Appends the code of the lowest 15 digits of a.
    method AddressCoder(a: int) returns (stop: nat)
      requires Layout() && 0 <= a
      modifies this, store
      ensures stop == 0 ==> Layout() && stream == AddressBits(a) + old(stream)
      ensures stop in {0, 25} && lists == old(lists) && rlsc == old(rlsc) && rnsc == old(rnsc)
              && program == old(program)
    {
      hide WordBits, BitsOf, Pow2, Holds, CodeBits;
      var low, middle, high := a % 32, a / 32 % 32, a / 1024 % 32;
      stop := BitStringMaker(LowCode(low));
      if stop != 0 { return; }
      stop := BitStringMaker(MiddleCode(middle));
      if stop != 0 { return; }
      stop := BitStringMaker(HighCode(high));
      ConcatRight(CodeBits(HighCode(high)), CodeBits(MiddleCode(middle)), CodeBits(LowCode(low)), old(stream));
    }

    // Appends one instruction to the object code.
    method FillResultList(opc: int, w: int) returns (stop: nat)
      requires Valid() && Emittable(Instr(opc, w))
      modifies this, store
      ensures stop == 0 ==> Valid() && program == old(program) + [Instr(opc, w)]
      ensures stop in {0, 25} && lists == old(lists) && rnsc == old(rnsc)
    {
      hide WordBits, BitsOf, Pow2, Holds, CodeBits, MaskCode, AddressBits, OpCode, ProgramBits, InstrParts;
      rlsc := rlsc + 1;
      var c;
      ghost var escape, address;
      stop, c, escape, address := AddressAndEscape(opc, w);
      if stop != 0 { return; }
      stop := BitStringMaker(c);
      program := program + [Instr(opc, w)];
      ConcatRight(CodeBits(c), escape, address, old(stream));
      if stop == 0 {
        InstrBitsParts(Instr(opc, w), c, escape, address);
        ProgramBitsAppend(old(program), Instr(opc, w));
      }
    }

    // Appends what the code of an instruction has behind its first part, and finds this first part.
    method AddressAndEscape(opc: int, w: int)
      returns (stop: nat, c: int, ghost escape: seq<bit>, ghost address: seq<bit>)
      requires Layout() && Emittable(Instr(opc, w))
      modifies this, store
      ensures stop in {0, 25} && lists == old(lists) && rlsc == old(rlsc) && rnsc == old(rnsc)
              && program == old(program)
      ensures stop == 0 ==> Layout() && 0 <= c && IsCode(c) && InstrParts(Instr(opc, w), c, escape, address)
      ensures stop == 0 ==> stream == escape + (address + old(stream))
    {
      hide WordBits, BitsOf, Pow2, Holds, CodeBits, MaskCode, AddressBits, OpCode;
      stop, c, escape, address := 0, 0, [], [];
      if opc < 8 {
        stop := AddressCoder(w);
        if stop != 0 { return; }
        address := AddressBits(w);
        c := MaskCode(w / 32768 * 32768 + opc);
        MaskInverts(w / 32768, opc);
        if c == ESCAPE {
          stop := AddressCoder(w / 32768 + opc * 4096);
          if stop != 0 { return; }
          escape := AddressBits(w / 32768 + opc * 4096);
        }
      } else {
        c := OpCode(opc);
        OpCodeShape(opc);
      }
      CodeShapes(c);
    }

    // ----- the lists -----

    // Sixteen more places for the future list.
    method GrowFutureList()
      requires Layout() && nlib + nlsc + 16 < plib
      modifies this`klib, this`nlib, this`lists, store
      ensures Layout() && klib == old(klib) + 16
      ensures lists == old(lists).(fli := lists.fli) && |lists.fli| == |old(lists.fli)| + 16
              && old(lists.fli) <= lists.fli
    {
      hide WordBits, BitsOf, Pow2;
      ShiftUp(klib, nlib + nlsc - klib, 16);
      ghost var free := store[klib..klib + 16];
      klib, nlib, lists := klib + 16, nlib + 16, lists.(fli := lists.fli + free);
    }

    // Sixteen more places for the constant list.
    method GrowConstantList()
      requires Layout() && nlib + nlsc + 16 < plib
      modifies this`nlib, store
      ensures Layout() && nlib == old(nlib) + 16
    {
      hide WordBits, BitsOf, Pow2;
      ShiftUp(nlib, nlsc, 16);
      nlib := nlib + 16;
    }

    method EnterFuture(place: int, value: int)
      requires Layout() && flib <= place < klib
      modifies this`lists, store
      ensures Layout() && lists == old(lists).(fli := old(lists.fli)[place - flib := value])
    {
      hide WordBits, BitsOf, Pow2;
      store[place] := value;
      lists := lists.(fli := lists.fli[place - flib := value]);
    }

    // Enters a value in the future list, which grows by sixteen places when the place is not there yet.
    // That is enough exactly for places less than sixteen behind its end; the value for a place further
    // on is written over what lies behind the future list.
    method FillFutureList(place: int, value: int) returns (stop: nat)
      requires Layout() && flib <= place < store.Length
      modifies this`klib, this`nlib, this`lists, store
      ensures stop == (if place >= old(klib) && old(nlib) + nlsc + 16 >= plib then 6 else 0)
      ensures stop == 0 && place < old(klib) + 16 ==>
                && Layout() && lists == old(lists).(fli := lists.fli)
                && Entered(old(lists.fli), lists.fli, place - flib, value)
      ensures stop == 0 && old(klib) + 16 <= place ==> klib == old(klib) + 16 <= place && store[place] == value
    {
      assert |lists.fli| == klib - flib;
      hide WordBits, BitsOf, Pow2, Holds;
      if place >= klib {
        if nlib + nlsc + 16 >= plib {
          return 6;
        }
        GrowFutureList();
      }
      if place >= klib {
        store[place] := value;
        return 0;
      }
      EnterFuture(place, value);
      return 0;
    }

    // Appends a constant; a negative one is stored in one's complement.
    method FillConstantList(n: int) returns (stop: nat)
      requires Layout()
      modifies this`klsc, this`nlib, this`lists, store
      ensures stop == (if klib + old(klsc) == old(nlib) && old(nlib) + nlsc + 16 >= plib then 18 else 0)
      ensures stop == 0 ==>
                Layout() && lists == old(lists).(kli := old(lists.kli) + [if n >= 0 then n else 0x7FFFFFF + n])
      ensures stop == 0 && Fits(n) ==> |lists.kli| == |old(lists.kli)| + 1 && ToInt(lists.kli[|old(lists.kli)|]) == n
    {
      hide WordBits, BitsOf, Pow2;
      if klib + klsc == nlib {
        if nlib + nlsc + 16 >= plib {
          return 18;
        }
        GrowConstantList();
      }
      PutConstant(if n >= 0 then n else 0x7FFFFFF + n);
      return 0;
    }

    method PutConstant(word: int)
      requires Layout() && klib + klsc < nlib
      modifies this`klsc, this`lists, store
      ensures Layout() && lists == old(lists).(kli := old(lists.kli) + [word])
    {
      hide WordBits, BitsOf, Pow2;
      store[klib + klsc] := word;
      klsc, lists := klsc + 1, lists.(kli := lists.kli + [word]);
    }

    // Puts a constant behind the constant list without counting it.
    method PutSentinel(word: seq<int>)
      requires Layout() && |word| in {1, 2} && klib + klsc + |word| <= nlib
      modifies store
      ensures Layout() && Holds(store, klib, klib + klsc + |word|, lists.kli + word)
    {
      hide WordBits, BitsOf, Pow2;
      store[klib + klsc] := word[0];
      if |word| == 2 {
        store[klib + klsc + 1] := word[1];
      }
    }

    // Walks through the constant list up to the first occurrence of a constant.
    method SearchConstant(word: seq<int>) returns (index: int)
      requires Layout() && |word| in {1, 2} && Holds(store, klib, klib + klsc + |word|, lists.kli + word)
      ensures index == FirstMatch(lists.kli + word, word) <= klsc
    {
      hide WordBits, BitsOf, Pow2, FirstMatch, MatchAt;
      ghost var sought := lists.kli + word;
      MatchAtEnd(lists.kli, word);
      index := 0;
      MatchByWords(sought, word, index);
      while !(store[klib + index] == word[0] && (|word| == 1 || store[klib + index + 1] == word[1]))
        invariant 0 <= index <= klsc && NoMatchBefore(sought, word, index)
        invariant MatchAt(sought, word, index)
                  <==> sought[index] == word[0] && (|word| == 1 || sought[index + 1] == word[1])
        decreases klsc - index
      {
        assert store[klib + index] == sought[index];
        assert |word| == 2 ==> store[klib + (index + 1)] == sought[index + 1];
        index := index + 1;
        MatchByWords(sought, word, index);
      }
      assert store[klib + index] == sought[index];
      assert |word| == 2 ==> store[klib + (index + 1)] == sought[index + 1];
      FirstMatchIs(sought, word, index);
    }

    // Finds a constant in the constant list, or appends it; the constant itself is put behind the
    // list first, so that the search needs no test for the end.
    method LookForConstant(word: seq<int>) returns (stop: nat, index: int)
      requires Layout() && |word| in {1, 2}
      modifies this`klsc, this`nlib, this`lists, store
      ensures stop == (if klib + old(klsc) + |word| > old(nlib) && old(nlib) + nlsc + 16 >= plib then 5 else 0)
      ensures stop == 0 ==> Layout() && index == FirstMatch(old(lists.kli) + word, word)
      ensures stop == 0 ==> lists == old(lists).(kli := AfterLookup(old(lists.kli), word))
    {
      hide WordBits, BitsOf, Pow2, FirstMatch;
      if klib + klsc + |word| > nlib {
        if nlib + nlsc + 16 >= plib {
          return 5, 0;
        }
        GrowConstantList();
      }
      PutSentinel(word);
      index := SearchConstant(word);
      if index == klsc {
        klsc, lists := klsc + |word|, lists.(kli := lists.kli + word);
      }
      stop := 0;
    }

    // Appends a name: its second word when it has one, its first word, and its descriptor.
    method FillNameList(second: seq<int>, first: int, id: int) returns (stop: nat)
      requires Layout() && |second| == (if first % 8 > 0 then 1 else 0)
      modifies this`nlsc, this`lists, store
      ensures stop == (if old(nlsc) + 2 + |second| + nlib > plib then 16 else 0)
      ensures stop == 0 ==> Layout() && lists == old(lists).(nli := old(lists.nli) + (second + [first, id]))
    {
      hide WordBits, BitsOf, Pow2;
      nlsc := nlsc + |second| + 2;
      if nlsc + nlib > plib {
        return 16;
      }
      PutName(second, first, id);
      lists := lists.(nli := lists.nli + (second + [first, id]));
      return 0;
    }

    // Writes the words of a name at the end of the places reserved for it.
    method PutName(second: seq<int>, first: int, id: int)
      requires |second| == (if first % 8 > 0 then 1 else 0)
      requires 0 <= nlib && |second| + 2 <= nlsc && nlib + nlsc <= store.Length
      modifies store
      ensures Holds(store, nlib + nlsc - |second| - 2, nlib + nlsc, second + [first, id])
      ensures forall k :: 0 <= k < store.Length && !(nlib + nlsc - |second| - 2 <= k < nlib + nlsc) ==>
              store[k] == old(store[k])
    {
      store[nlib + nlsc - 1] := id;
      store[nlib + nlsc - 2] := first;
      if first % 8 > 0 {
        store[nlib + nlsc - 3] := second[0];
      }
    }

    // ----- the source text -----

    // During the prescan the text grows upwards from BIM + 8.
    ghost predicate Prescanning()
      reads this, store
    {
      && store.Length == STORE_SIZE && BIM + 8 <= rnsb && rnsb + 8 <= plib <= PLIE
      && Holds(store, BIM + 8, rnsb + 1, lists.text) && Packed(lists.text, rnsa, source)
    }

    // The first symbol is about to be read: the text is one word without symbols.
    method StartText()
      requires store.Length == STORE_SIZE
      modifies this`rnsa, this`rnsb, this`rnsc, this`rnsd, this`lists, this`source, store
      ensures Prescanning() <==> BIM + 16 <= plib <= PLIE
      ensures source == [] && rnsb == BIM + 8
    {
      rnsb, rnsd, rnsa, rnsc := BIM + 8, BIM + 8, 0x400000, 32768;
      store[rnsb] := 0;
      lists, source := lists.(text := [0]), [];
    }

    // The prescan puts a symbol into the text.
    method StoreSymbol(dl: int) returns (stop: nat)
      requires Prescanning() && 0 <= dl < 128
      modifies this`rnsa, this`rnsb, this`lists, this`source, store
      ensures stop == (if old(rnsa) <= 128 && old(rnsb) + 9 > plib then 25 else 0)
      ensures stop == 0 ==> Prescanning() && source == old(source) + [dl]
    {
      hide PackedWord;
      ghost var text := lists.text;
      ghost var last := |text| - 1;
      if rnsa > 128 {
        rnsa := rnsa / 128;
        store[rnsb] := store[rnsb] + dl * rnsa;
        PackOneMore(text, old(rnsa), source, dl, text[last := text[last] + dl * rnsa], rnsa);
        lists := lists.(text := text[last := text[last] + dl * rnsa]);
      } else {
        rnsa := 32768;
        rnsb := rnsb + 1;
        store[rnsb] := dl * rnsa;
        if rnsb + 8 > plib {
          return 25;
        }
        PackOneMore(text, old(rnsa), source, dl, text + [dl * rnsa], rnsa);
        lists := lists.(text := text + [dl * rnsa]);
      }
      source := source + [dl];
      return 0;
    }

    ghost predicate Reading()
      reads this, store
    {
      Layout() && Factor(rnsc) && forall i :: 0 <= i < |lists.text| ==> 0 <= lists.text[i]
    }

    // Between the scans: room for the lists behind the text, and an empty object code.
    method PrepareMainScan(names: int) returns (stop: nat)
      requires Prescanning() && 0 <= names
      modifies this
      ensures stop == (if old(rnsb) + 33 + names >= plib then 25 else 0)
      ensures stop == 0 ==> Valid() && Reading() && program == [] && lists.text == old(lists.text) && lists.kli == []
      ensures stop == 0 ==> source == old(source) && source <= Unread(lists.text, rnsc)
    {
      hide WordBits, PackedWord, Unread, ProgramBits, BitsOf, Pow2;
      TextComesBack(lists.text, rnsa, source);
      if rnsb + 33 + names >= plib {
        return 25;
      }
      PlaceLists(names);
      StartObjectCode();
      return 0;
    }

    // The object code is empty.
    method StartObjectCode()
      requires store.Length == STORE_SIZE && rnsb == BIM < rnsd <= flib <= klib && nlib + nlsc <= plib <= PLIE
      requires 0 <= klsc && klib + klsc <= nlib && 0 <= nlsc
      requires Holds(store, rnsd, flib, lists.text) && Holds(store, flib, klib, lists.fli)
      requires Holds(store, klib, klib + klsc, lists.kli) && Holds(store, nlib, nlib + nlsc, lists.nli)
      requires Holds(store, plib, store.Length, lists.prescan)
      modifies this`rnsc, this`rlsc, this`bitcount, this`bitstock, this`words, this`stream, this`program
      ensures Valid() && rnsc == 32768 && program == []
    {
      hide WordBits, ProgramBits, BitsOf;
      NothingWritten();
      rnsc, rlsc, bitcount, bitstock := 32768, 0, 0, 0;
      words, stream, program := [], [], [];
    }

    method PlaceLists(names: int)
      requires store.Length == STORE_SIZE && BIM + 8 <= rnsb && rnsb + 33 + names < plib <= PLIE && 0 <= names
      requires Holds(store, BIM + 8, rnsb + 1, lists.text)
      modifies this`rnsd, this`flib, this`klib, this`klsc, this`nlib, this`nlsc, this`rnsb, this`lists
      ensures rnsb == BIM && rnsd == BIM + 8 && flib == old(rnsb) + 1 && klib == flib + 16 && nlib == klib + 16
      ensures klsc == 0 && nlsc == names && lists.text == old(lists.text) && lists.kli == []
      ensures Holds(store, rnsd, flib, lists.text) && Holds(store, flib, klib, lists.fli)
              && Holds(store, klib, klib, [])
      ensures Holds(store, nlib, nlib + nlsc, lists.nli) && Holds(store, plib, store.Length, lists.prescan)
    {
      rnsd, klsc, nlsc := BIM + 8, 0, names;
      flib := rnsb + 1;
      klib := flib + 16;
      nlib := klib + 16;
      rnsb := BIM;
      lists := Lists(lists.text, store[flib..klib], [], store[nlib..nlib + nlsc], store[plib..]);
    }

    static lemma NothingWritten()
      ensures AllWords([]) && BitsOf(0, 0) + WordBits([]) == [] && ProgramBits([]) == []
    {
    }

    // The main scan takes the next symbol out of the text.
    method ReadNextSymbol() returns (dl: int)
      requires Reading() && rnsd < flib
      modifies this`rnsc, this`rnsd, this`lists
      ensures Reading() && lists == old(lists).(text := lists.text)
      ensures [dl] + Unread(lists.text, rnsc) == old(Unread(lists.text, rnsc))
    {
      hide WordBits, BitsOf, Pow2;
      assert store[rnsd] == lists.text[0];
      dl := store[rnsd] / rnsc % 128;
      if rnsc > 128 {
        rnsc := rnsc / 128;
      } else {
        rnsc := 32768;
        rnsd := rnsd + 1;
        lists := lists.(text := lists.text[1..]);
      }
    }
  }
}
