/**
 The translation of a call: the descriptors of the actual parameters wait on the t-list and are put
 in front of the call in reverse, where the run-time system finds them from the return address.
 */
module CallSite {
  import opened ObjectCode
  import opened ProgramLoader
  import ExpressionTranslator

  const COMMA := 87
  const OPEN := 98

  // The instruction that holds a parameter descriptor; dynamic ones are not relocated.
  function PordInstr(p: int): Instr {
    if p / 0x10000 % 2 == 0 then Instr(p / 0x1000000, p % 0x1000000) else Instr(0, p)
  }

  // The descriptors as they wait on the t-list.
  function Waiting(pords: seq<int>): (t: seq<int>)
    ensures |t| == 2 * |pords|
  {
    if pords == [] then [] else Waiting(pords[..|pords| - 1]) + [pords[|pords| - 1], COMMA]
  }

  // The descriptors in the result list, the last parameter first.
  function Descriptors(pords: seq<int>): (q: seq<Instr>)
    ensures |q| == |pords| && forall k :: 0 <= k < |pords| ==> q[|pords| - 1 - k] == PordInstr(pords[k])
  {
    if pords == [] then [] else [PordInstr(pords[|pords| - 1])] + Descriptors(pords[..|pords| - 1])
  }

  // The calls ETMR, ETMP, FTMR and FTMP.
  function Transmark(fflag: int, eflag: int): Instr {
    Instr(fflag * 2 - eflag + 9, 0)
  }

  // The flags the translator saves while it works on the parameters.
  datatype Flags = Flags(iflag: int, vflag: int, mflag: int, eflag: int, fflag: int)

  class CallTranslator {
    var tlist: seq<int>
    var code: seq<Instr>
    var future: map<int, int>
    var flsc: int
    var flags: Flags
    var bn: int
    var aflag: int

    // What the t-list holds while the parameters pords of a call are translated.
    ghost predicate InCall(below: seq<int>, saved: Flags, place: int, pords: seq<int>)
      reads this
    {
      tlist == below + [saved.iflag, saved.vflag, saved.mflag, saved.eflag, saved.fflag, place, OPEN] + Waiting(pords)
    }

    method Push(n: int)
      modifies this`tlist
      ensures tlist == old(tlist) + [n]
    {
      tlist := tlist + [n];
    }

    method Unload(ghost rest: seq<int>, ghost top: int) returns (n: int)
      requires tlist == rest + [top]
      modifies this`tlist
      ensures tlist == rest && n == top
    {
      n := tlist[|tlist| - 1];
      tlist := tlist[..|tlist| - 1];
    }

    // The instruction that brings the address of a procedure into a register.
    method AddressToRegister(id: nat)
      modifies this`code
      ensures code == old(code) + [ExpressionTranslator.AddressToRegister(id)]
    {
      if id / 0x8000 % 2 != 0 {
        code := code + [Instr(0, id % 0x8000 + 21495808)];
      } else if id / 0x1000000 % 4 == 2 {
        code := code + [Instr(2, id % 0x8000 + 71303168)];
      } else {
        code := code + [Instr(id / 0x1000000 % 4, id % 0x8000 + 71827456)];
      }
    }

    // The opening parenthesis of a parameter list of procedure id, up to the first parameter.
    method OpenParameters(id: nat)
      modifies this
      ensures old(flsc) < flsc && InCall(old(tlist), old(flags), old(flsc), [|old(code)| + 2])
      ensures code == old(code) + [ExpressionTranslator.AddressToRegister(id), Instr(2, old(flsc) + 88080384)]
      ensures future == old(future) && bn == old(bn) + 1 && flsc == old(flsc) + 1
      ensures flags == Flags(0, 0, 1, 1, old(flags.fflag)) && aflag == 0
    {
      AddressToRegister(id);
      code := code + [Instr(2, flsc + 88080384)];
      Push(flags.iflag);
      Push(flags.vflag);
      Push(flags.mflag);
      Push(flags.eflag);
      Push(flags.fflag);
      Push(flsc);
      flags := Flags(0, 0, 1, 1, flags.fflag);
      flsc := flsc + 1;
      bn := bn + 1;
      Push(OPEN);
      NextParameter();
      assert Waiting([|code|]) == Waiting([]) + [|code|, COMMA];
    }

    // A new parameter, described for the time being by the place of its routine.
    method NextParameter()
      modifies this`tlist, this`aflag
      ensures tlist == old(tlist) + [|code|, COMMA] && aflag == 0
    {
      Push(|code|);
      aflag := 0;
      Push(COMMA);
    }

    // The parameter being translated turns out to be described by pord, with a routine or without.
    method Describe(pord: int, routine: seq<Instr>, ghost below: seq<int>, ghost saved: Flags, ghost place: int,
                    ghost pords: seq<int>)
      requires InCall(below, saved, place, pords) && pords != []
      modifies this`tlist, this`code
      ensures InCall(below, saved, place, pords[|pords| - 1 := pord]) && code == old(code) + routine
    {
      var n := |pords| - 1;
      assert pords[n := pord][..n] == pords[..n];
      ghost var t := below + [saved.iflag, saved.vflag, saved.mflag, saved.eflag, saved.fflag, place, OPEN]
        + Waiting(pords[..n]);
      assert tlist == t + [pords[n], COMMA];
      code := code + routine;
      tlist := tlist[|tlist| - 2 := pord];
      assert tlist == t + [pord, COMMA];
    }

    // The comma behind a parameter.
    method Comma(ghost below: seq<int>, ghost saved: Flags, ghost place: int, ghost pords: seq<int>)
      requires InCall(below, saved, place, pords)
      modifies this`tlist, this`aflag
      ensures InCall(below, saved, place, pords + [|code|]) && aflag == 0
    {
      assert (pords + [|code|])[..|pords|] == pords;
      NextParameter();
    }

    // The descriptors leave the t-list.
    method UnloadPords(ghost under: seq<int>, ghost pords: seq<int>) returns (count: int)
      requires tlist == under + [OPEN] + Waiting(pords)
      modifies this`tlist, this`code
      ensures tlist == under && count == |pords| && code == old(code) + Descriptors(pords)
    {
      hide PordInstr;
      ghost var left := pords;
      count := 0;
      Ends(under, left);
      var pstb := Unload(if left == [] then under else Rest(under, left), if left == [] then OPEN else COMMA);
      while pstb % 256 == COMMA
        invariant pstb == if left == [] then OPEN else COMMA
        invariant tlist == if left == [] then under else Rest(under, left)
        invariant count + |left| == |pords|
        invariant code + Descriptors(left) == old(code) + Descriptors(pords)
        decreases |left|
      {
        ghost var p, before := left[|left| - 1], left[..|left| - 1];
        count := count + 1;
        pstb := Unload(under + [OPEN] + Waiting(before), p);
        assert code + ([PordInstr(p)] + Descriptors(before)) == (code + [PordInstr(p)]) + Descriptors(before);
        Emit(pstb);
        left := before;
        Ends(under, left);
        pstb := Unload(if left == [] then under else Rest(under, left), if left == [] then OPEN else COMMA);
      }
    }

    method Emit(pstb: int)
      modifies this`code
      ensures code == old(code) + [PordInstr(pstb)]
    {
      if pstb / 0x10000 % 2 == 0 {
        code := code + [Instr(pstb / 0x1000000, pstb % 0x1000000)];
      } else {
        code := code + [Instr(0, pstb)];
      }
    }

    static ghost function Rest(under: seq<int>, left: seq<int>): seq<int>
      requires left != []
    {
      under + [OPEN] + Waiting(left[..|left| - 1]) + [left[|left| - 1]]
    }

    static lemma Ends(under: seq<int>, left: seq<int>)
      ensures under + [OPEN] + Waiting(left) == if left == [] then under + [OPEN] else Rest(under, left) + [COMMA]
    {
      if left != [] {
        var w, p := Waiting(left[..|left| - 1]), left[|left| - 1];
        assert under + [OPEN] + (w + [p, COMMA]) == (under + [OPEN] + w + [p]) + [COMMA];
      }
    }

    /**
     The closing parenthesis: the descriptors, the number of parameters and the call.  The flags are
     those from before the parameter list again.
     */
    method CloseParameters(ghost below: seq<int>, ghost saved: Flags, ghost place: int, ghost pords: seq<int>)
      requires InCall(below, saved, place, pords)
      modifies this
      ensures tlist == below && flags == saved && bn == old(bn) - 1 && flsc == old(flsc)
      ensures code == old(code) + Descriptors(pords)
              + [Instr(0, |pords| + 4718592), Transmark(saved.fflag, saved.eflag)]
      ensures future == old(future)[place := |old(code)| + |pords|]
    {
      hide Waiting, Descriptors;
      ghost var t5 := below + [saved.iflag] + [saved.vflag] + [saved.mflag] + [saved.eflag] + [saved.fflag];
      ghost var under := t5 + [place];
      assert below + [saved.iflag, saved.vflag, saved.mflag, saved.eflag, saved.fflag, place, OPEN] == under + [OPEN];
      var count := UnloadPords(under, pords);
      var target := Unload(t5, place);
      Finish(target, count, below, saved);
    }

    method Finish(target: int, count: int, ghost below: seq<int>, ghost saved: Flags)
      requires tlist == below + [saved.iflag] + [saved.vflag] + [saved.mflag] + [saved.eflag] + [saved.fflag]
      modifies this
      ensures tlist == below && flags == saved && bn == old(bn) - 1 && flsc == old(flsc)
      ensures code == old(code) + [Instr(0, count + 4718592), Transmark(saved.fflag, saved.eflag)]
      ensures future == old(future)[target := |old(code)|]
    {
      future := future[target := |code|];
      code := code + [Instr(0, count + 4718592)];
      bn := bn - 1;
      ghost var t4 := below + [saved.iflag] + [saved.vflag] + [saved.mflag] + [saved.eflag];
      ghost var t3, t2 := below + [saved.iflag] + [saved.vflag] + [saved.mflag], below + [saved.iflag] + [saved.vflag];
      var fflag := Unload(t4, saved.fflag);
      var eflag := Unload(t3, saved.eflag);
      code := code + [Instr(fflag * 2 - eflag + 9, 0)];
      aflag := 0;
      var mflag := Unload(t2, saved.mflag);
      var vflag := Unload(below + [saved.iflag], saved.vflag);
      var iflag := Unload(below, saved.iflag);
      flags := Flags(iflag, vflag, mflag, eflag, fflag);
    }
  }

  /**
   Where the call stands in the loaded program: the run-time system, which counts back from the return
   address, finds the descriptor of every parameter, and their number is in register A.
   */
  lemma DescriptorFound(code: seq<Instr>, pords: seq<int>, transmark: Instr, k: nat, p: Places)
    requires k < |pords|
    requires var q := code + Descriptors(pords) + [Instr(0, |pords| + 4718592), transmark]; AllRelocatable(q, p)
    ensures var q := code + Descriptors(pords) + [Instr(0, |pords| + 4718592), transmark];
            var ret := |q|;
            && q[ret - k - 3] == PordInstr(pords[k]) && Relocatable(PordInstr(pords[k]), p)
            && Image(q, p)[ret - k - 3] == Relocated(PordInstr(pords[k]), p)
            && Image(q, p)[ret - 2] == |pords| + 4718592
  {
    hide Relocated, Relocatable, PordInstr;
    var d := Descriptors(pords);
    var q := code + d + [Instr(0, |pords| + 4718592), transmark];
    assert q[|code| + (|pords| - 1 - k)] == d[|pords| - 1 - k];
    assert q[|q| - 2] == Instr(0, |pords| + 4718592);
    CountRelocated(|pords|, p);
  }

  lemma CountRelocated(n: int, p: Places)
    requires Relocatable(Instr(0, n + 4718592), p)
    ensures Relocated(Instr(0, n + 4718592), p) == n + 4718592
  {
  }
}
