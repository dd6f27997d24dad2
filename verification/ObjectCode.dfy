/**
 The variable-length code in which the translator stores the object program.

 A code is written as in the translator: length * 1024 + digits.
 */
module ObjectCode {
  import opened Bits

  // One call fill_result_list(opc, w).  Orders 8.. are calls into the run-time system; w is 0 then.
  datatype Instr = Instr(opc: int, w: int)

  predicate Emittable(i: Instr) {
    (0 <= i.opc < 8 && 0 <= i.w < 0x8000000) || (8 <= i.opc <= 112 && i.w == 0)
  }

  predicate IsCode(c: nat) {
    c / 1024 <= 10 && c % 1024 < Pow2(c / 1024)
  }

  function CodeBits(c: nat): (s: seq<bit>)
    ensures |s| == c / 1024
  {
    BitsOf(c % 1024, c / 1024)
  }

  // The three codes of a 15-digit address, one for each group of five digits.
  function LowCode(x: nat): (c: nat)
    requires x < 32
    ensures IsCode(c) && c / 1024 in {2, 3, 6}
  {
    if x == 1 then 2048 else if x == 2 then 3074 else if x == 3 then 3075 else x + 6176
  }

  function MiddleCode(x: nat): (c: nat)
    requires x < 32
    ensures IsCode(c) && c / 1024 in {2, 4, 6}
  {
    if x == 0 then 2048
    else if x == 1 then 4100
    else if x == 2 then 4101
    else if x == 4 then 4102
    else if x == 5 then 4103
    else x + 6176
  }

  function HighCode(x: nat): (c: nat)
    requires x < 32
    ensures IsCode(c) && c / 1024 in {1, 6}
  {
    assert Pow2(6) == 64;
    if x == 0 then 1024 else x + 6176
  }

  function GroupBits(h: nat, m: nat, l: nat): (s: seq<bit>)
    requires h < 32 && m < 32 && l < 32
    ensures |s| <= 18
  {
    CodeBits(HighCode(h)) + CodeBits(MiddleCode(m)) + CodeBits(LowCode(l))
  }

  // What address_coder writes, in reading order.
  function AddressBits(a: nat): (s: seq<bit>)
    ensures |s| <= 18
  {
    GroupBits(a / 1024 % 32, a / 32 % 32, a % 32)
  }

  const ESCAPE := 7295

  // Frequent order/opc combinations have a code of their own; any other takes the escape code.
  function MaskCode(v: nat): nat {
    if v == 21495808 then 3076
    else if v == 71827459 then 3077
    else if v == 88080386 then 4108
    else if v == 71827456 then 4109
    else if v == 4718592 then 7280
    else if v == 71303170 then 7281
    else if v == 88604673 then 7282
    else if v == 0 then 7283
    else if v == 524291 then 7284
    else if v == 88178690 then 7285
    else if v == 71827457 then 7286
    else if v == 1048577 then 7287
    else if v == 20971522 then 7288
    else if v == 4784128 then 7289
    else if v == 8388608 then 7290
    else if v == 4390912 then 7291
    else if v == 13172736 then 7292
    else if v == 1572865 then 7293
    else if v == 524288 then 7294
    else ESCAPE
  }

  function OpCode(opc: int): (c: nat)
    requires 8 <= opc <= 112
  {
    if opc <= 61 then
      match opc
      case 8 => 10624
      case 9 => 6160
      case 10 => 10625
      case 11 => 10626
      case 12 => 10627
      case 13 => 7208
      case 14 => 6161
      case 15 => 10628
      case 16 => 5124
      case 17 => 7209
      case 18 => 6162
      case 19 => 7210
      case 20 => 7211
      case 21 => 10629
      case 22 => 10630
      case 23 => 10631
      case 24 => 10632
      case 25 => 10633
      case 26 => 10634
      case 27 => 10635
      case 28 => 10636
      case 29 => 10637
      case 30 => 6163
      case 31 => 7212
      case 32 => 10638
      case 33 => 4096
      case 34 => 4097
      case 35 => 7213
      case 36 => 10639
      case 37 => 10640
      case 38 => 10641
      case 39 => 7214
      case 40 => 10642
      case 41 => 10643
      case 42 => 10644
      case 43 => 10645
      case 44 => 10646
      case 45 => 10647
      case 46 => 10648
      case 47 => 10649
      case 48 => 10650
      case 49 => 10651
      case 50 => 10652
      case 51 => 10653
      case 52 => 10654
      case 53 => 10655
      case 54 => 10656
      case 55 => 10657
      case 56 => 5125
      case 57 => 10658
      case 58 => 5126
      case 59 => 10659
      case 60 => 10660
      case _ => 7215
    else if opc == 85 then 5127
    else opc + 10599
  }

  // What fill_result_list writes, in reading order.
  function InstrBits(i: Instr): seq<bit>
    requires Emittable(i)
  {
    if i.opc < 8 then
      var c := MaskCode(i.w / 32768 * 32768 + i.opc);
      CodeBits(c)
      + (if c == ESCAPE then AddressBits(i.w / 32768 + i.opc * 4096) else [])
      + AddressBits(i.w)
    else
      CodeBits(OpCode(i.opc))
  }

  predicate AllEmittable(p: seq<Instr>) {
    forall i :: 0 <= i < |p| ==> Emittable(p[i])
  }

  // The word behind the last digit of every list of instructions: a heptade of ones at its head.
  const TERMINATOR := 0x7E00000

  // The stream of a whole program: the instruction emitted last is read first.
  function ProgramBits(p: seq<Instr>): seq<bit>
    requires AllEmittable(p)
  {
    if p == [] then [] else InstrBits(p[|p| - 1]) + ProgramBits(p[..|p| - 1])
  }

  // ----- the reader's view: the stream seen through a 27-digit window -----

  // Each stage yields the length of the code, the five digits, and the window moved past the code.
  function HighStage(w: nat): (nat, nat, nat) {
    if w < 0x4000000 then (1, 0, w * 2)
    else (6, w / 0x200000 % 32, w % 0x200000 * 64)
  }

  function MiddleStage(w: nat): (nat, nat, nat) {
    if w < 0x2000000 then (2, 0, w * 4)
    else if w < 0x4000000 then
      (4, if w / 0x800000 < 6 then w / 0x800000 - 3 else w / 0x800000 - 2, w % 0x800000 * 16)
    else (6, w / 0x200000 % 32, w % 0x200000 * 64)
  }

  function LowStage(w: nat): (nat, nat) {
    if w < 0x2000000 then (2, 1)
    else if w < 0x4000000 then (3, w / 0x1000000)
    else (6, w / 0x200000 % 32)
  }

  // Length and value of the address at the head of the window.
  function AddressAt(w: nat): (nat, nat) {
    var (n, h, w1) := HighStage(w);
    var (m, i, w2) := MiddleStage(w1);
    var (k, l) := LowStage(w2);
    (n + m + k, h * 1024 + i * 32 + l)
  }

  function OpLength(w: nat): nat {
    if w < 0x2000000 then (if w < 0x1000000 then 4 else 5)
    else if w < 0x3000000 then (if w < 0x2800000 then 6 else 7)
    else 10
  }

  function OpIndex(v: nat): int {
    if v < 2 then v else if v < 8 then v - 2 else if v < 24 then v - 10 else if v < 48 then v - 30 else v - 366
  }

  // The table that turns a code number back into an order, as main fills it.
  function OpTable(i: int): int {
    match i
    case 0 => 33 case 1 => 34 case 2 => 16 case 3 => 56 case 4 => 58 case 5 => 85
    case 6 => 9 case 7 => 14 case 8 => 18 case 9 => 30 case 10 => 13 case 11 => 17
    case 12 => 19 case 13 => 20 case 14 => 31 case 15 => 35 case 16 => 39 case 17 => 61
    case 18 => 8 case 19 => 10 case 20 => 11 case 21 => 12 case 22 => 15
    case 32 => 32 case 33 => 36 case 34 => 37 case 35 => 38
    case 52 => 57 case 53 => 59 case 54 => 60
    case _ =>
      if 23 <= i <= 31 then i - 2 else if 36 <= i <= 51 then i + 4 else i + 7
  }

  function MaskLength(w: nat): nat {
    if w < 0x4000000 then 2 else if w < 0x6000000 then 3 else 6
  }

  function MaskIndex(w: nat, v: nat): int {
    if w < 0x4000000 then v else if w < 0x6000000 then v - 2 else v - 44
  }

  // Order half and opc of the frequent combinations.
  function MaskTable(c: int): int {
    match c
    case 0 => 656
    case 1 => 14480
    case 2 => 10880
    case 3 => 2192
    case 4 => 144
    case 5 => 10368
    case 6 => 6800
    case 7 => 0
    case 8 => 12304
    case 9 => 10883
    case 10 => 6288
    case 11 => 4128
    case 12 => 8832
    case 13 => 146
    case 14 => 256
    case 15 => 134
    case 16 => 402
    case 17 => 4144
    case 18 => 16
    case _ => -1
  }

  // ----- each code is recognised at the head of any stream -----

  lemma Cut(w: nat, v: nat, m: nat, r: nat)
    requires m in {0x200000, 0x800000, 0x1000000} && w == m * v + r && r < m
    ensures w / m == v && w % m == r
  {
  }

  lemma MiddleStageShort(r: nat)
    requires r < 0x2000000
    ensures MiddleStage(r) == (2, 0, 4 * r)
  {
  }

  lemma MiddleStageFour(v: nat, r: nat)
    requires 4 <= v < 8 && r < 0x800000
    ensures MiddleStage(0x800000 * v + r) == (4, if v < 6 then v - 3 else v - 2, 16 * r)
  {
    Cut(0x800000 * v + r, v, 0x800000, r);
  }

  lemma MiddleStageSix(v: nat, r: nat)
    requires 32 <= v < 64 && r < 0x200000
    ensures MiddleStage(0x200000 * v + r) == (6, v - 32, 64 * r)
  {
    Cut(0x200000 * v + r, v, 0x200000, r);
  }

  lemma LowStageShort(r: nat)
    requires r < 0x2000000
    ensures LowStage(r) == (2, 1)
  {
  }

  lemma LowStageThree(v: nat, r: nat)
    requires 2 <= v < 4 && r < 0x1000000
    ensures LowStage(0x1000000 * v + r) == (3, v)
  {
    Cut(0x1000000 * v + r, v, 0x1000000, r);
  }

  lemma LowStageSix(v: nat, r: nat)
    requires 32 <= v < 64 && r < 0x200000
    ensures LowStage(0x200000 * v + r) == (6, v - 32)
  {
    Cut(0x200000 * v + r, v, 0x200000, r);
  }

  lemma HighStageReads(x: nat, w: nat, r: nat)
    requires x < 32
    requires var n := HighCode(x) / 1024; w == Shl(HighCode(x) % 1024, 27 - n) + r && r < Pow2(27 - n)
    ensures HighStage(w) == (HighCode(x) / 1024, x, Shl(r, HighCode(x) / 1024))
  {
    hide Shl, Pow2;
    Pow2Values();
    ShlValues(HighCode(x) % 1024);
    ShlValues(r);
    if x > 0 {
      Cut(w, x + 32, 0x200000, r);
    }
  }

  lemma MiddleStageReads(x: nat, w: nat, r: nat)
    requires x < 32
    requires var n := MiddleCode(x) / 1024; w == Shl(MiddleCode(x) % 1024, 27 - n) + r && r < Pow2(27 - n)
    ensures MiddleStage(w) == (MiddleCode(x) / 1024, x, Shl(r, MiddleCode(x) / 1024))
  {
    hide Shl, Pow2, MiddleStage;
    Pow2Values();
    var v := MiddleCode(x) % 1024;
    ShlValues(v);
    ShlValues(r);
    if x == 0 {
      MiddleStageShort(r);
    } else if x in {1, 2, 4, 5} {
      MiddleStageFour(v, r);
    } else {
      MiddleStageSix(v, r);
    }
  }

  lemma LowStageReads(x: nat, w: nat, r: nat)
    requires x < 32
    requires var n := LowCode(x) / 1024; w == Shl(LowCode(x) % 1024, 27 - n) + r && r < Pow2(27 - n)
    ensures LowStage(w) == (LowCode(x) / 1024, x)
  {
    hide Shl, Pow2, LowStage;
    Pow2Values();
    var v := LowCode(x) % 1024;
    ShlValues(v);
    if x == 1 {
      LowStageShort(r);
    } else if x in {2, 3} {
      LowStageThree(v, r);
    } else {
      LowStageSix(v, r);
    }
  }

  lemma CodeInWindow(c: nat, t: seq<bit>, n: nat)
    requires IsCode(c) && c / 1024 <= n
    ensures Window(CodeBits(c) + t, n) == Shl(c % 1024, n - c / 1024) + Window(t, n - c / 1024)
  {
    WindowOfCode(c % 1024, c / 1024, t, n);
  }

  // Each stage on a window of at most 27 digits: it leaves the window of the digits behind its code.
  lemma HighStageMoves(x: nat, t: seq<bit>)
    requires x < 32 && HighCode(x) / 1024 + |t| <= 27
    ensures HighStage(Window(CodeBits(HighCode(x)) + t, 27)) == (HighCode(x) / 1024, x, Window(t, 27))
  {
    var c := HighCode(x);
    CodeInWindow(c, t, 27);
    WindowPadded(t, 27 - c / 1024, c / 1024);
    HighStageReads(x, Window(CodeBits(c) + t, 27), Window(t, 27 - c / 1024));
  }

  lemma MiddleStageMoves(x: nat, t: seq<bit>)
    requires x < 32 && MiddleCode(x) / 1024 + |t| <= 27
    ensures MiddleStage(Window(CodeBits(MiddleCode(x)) + t, 27)) == (MiddleCode(x) / 1024, x, Window(t, 27))
  {
    var c := MiddleCode(x);
    CodeInWindow(c, t, 27);
    WindowPadded(t, 27 - c / 1024, c / 1024);
    MiddleStageReads(x, Window(CodeBits(c) + t, 27), Window(t, 27 - c / 1024));
  }

  lemma LowStageMoves(x: nat, t: seq<bit>)
    requires x < 32
    ensures LowStage(Window(CodeBits(LowCode(x)) + t, 27)) == (LowCode(x) / 1024, x)
  {
    var c := LowCode(x);
    CodeInWindow(c, t, 27);
    LowStageReads(x, Window(CodeBits(c) + t, 27), Window(t, 27 - c / 1024));
  }

  lemma FiveDigitGroups(a: nat)
    ensures a % 32768 == a / 1024 % 32 * 1024 + a / 32 % 32 * 32 + a % 32
  {
    var u := a / 32;
    assert a == u * 32 + a % 32 && u / 32 == a / 1024;
  }

  lemma AddressReads(a: nat, t: seq<bit>)
    requires |AddressBits(a)| + |t| <= 27
    ensures AddressAt(Window(AddressBits(a) + t, 27)) == (|AddressBits(a)|, a % 32768)
  {
    var h, m, l := a / 1024 % 32, a / 32 % 32, a % 32;
    assert AddressBits(a) == GroupBits(h, m, l);
    assert a % 32768 == h * 1024 + m * 32 + l by {
      FiveDigitGroups(a);
    }
    GroupsRead(h, m, l, t);
  }

  lemma GroupsRead(h: nat, m: nat, l: nat, t: seq<bit>)
    requires h < 32 && m < 32 && l < 32
    requires |GroupBits(h, m, l)| + |t| <= 27
    ensures AddressAt(Window(GroupBits(h, m, l) + t, 27)) == (|GroupBits(h, m, l)|, h * 1024 + m * 32 + l)
  {
    var high, middle, low := CodeBits(HighCode(h)), CodeBits(MiddleCode(m)), CodeBits(LowCode(l));
    HighStageMoves(h, middle + (low + t));
    MiddleStageMoves(m, low + t);
    LowStageMoves(l, t);
    StagesCompose(high, middle, low, t, h, m, l);
  }

  lemma StagesCompose(a: seq<bit>, b: seq<bit>, c: seq<bit>, t: seq<bit>, h: nat, m: nat, l: nat)
    requires HighStage(Window(a + (b + (c + t)), 27)) == (|a|, h, Window(b + (c + t), 27))
    requires MiddleStage(Window(b + (c + t), 27)) == (|b|, m, Window(c + t, 27))
    requires LowStage(Window(c + t, 27)) == (|c|, l)
    ensures AddressAt(Window(a + b + c + t, 27)) == (|a + b + c|, h * 1024 + m * 32 + l)
  {
    ConcatRight(a, b, c, t);
  }

  // A call of the run-time system: its code starts with 0 and leads back to the same order.
  lemma OpReads(opc: int, t: seq<bit>)
    requires 8 <= opc <= 112
    ensures IsCode(OpCode(opc))
    ensures var w := Window(CodeBits(OpCode(opc)) + t, 27);
            w < 0x4000000 && OpLength(w) == OpCode(opc) / 1024
    ensures OpTable(OpIndex(OpCode(opc) % 1024)) == opc
  {
    OpCodeShape(opc);
    OpTableInverts(opc);
    OpShapeReads(OpCode(opc), t);
  }

  predicate OpShape(c: nat) {
    var n, v := c / 1024, c % 1024;
    (n == 4 && v < 2) || (n == 5 && 4 <= v < 8) || (n == 6 && 16 <= v < 20) || (n == 7 && 40 <= v < 48)
    || (n == 10 && 384 <= v < 512)
  }

  lemma OpShapeReads(c: nat, t: seq<bit>)
    requires OpShape(c)
    ensures IsCode(c)
    ensures var w := Window(CodeBits(c) + t, 27); w < 0x4000000 && OpLength(w) == c / 1024
  {
    hide Shl, Pow2, Window, BitsOf;
    Pow2Values();
    CodeInWindow(c, t, 27);
    ShlValues(c % 1024);
  }

  lemma OpCodeShape(opc: int)
    requires 8 <= opc <= 112
    ensures OpShape(OpCode(opc))
  {
  }

  lemma OpTableInverts(opc: int)
    requires 8 <= opc <= 112
    ensures OpTable(OpIndex(OpCode(opc) % 1024)) == opc
  {
  }

  // Any other word: its code starts with 1, and the rest of the code selects the order half again.
  lemma MaskReads(c: nat, t: seq<bit>)
    requires MaskShape(c)
    ensures CodeBits(c) == [1] + BitsOf(MaskRest(c), c / 1024 - 1)
    ensures var w := Window(BitsOf(MaskRest(c), c / 1024 - 1) + t, 27);
            MaskLength(w) == c / 1024 - 1 && MaskIndex(w, MaskRest(c)) == MaskNumber(c)
  {
    LeadingOne(c / 1024 - 1, MaskRest(c), c % 1024);
    MaskRestReads(c / 1024 - 1, MaskRest(c), t);
  }

  lemma LeadingOne(n: nat, d: nat, v: nat)
    requires n in {2, 3, 6} && d < Pow2(n) && v == Pow2(n) + d
    ensures BitsOf(v, n + 1) == [1] + BitsOf(d, n)
  {
    assert BitsOf(1, 1) == [1] by { assert BitsOf(0, 0) == []; }
    BitsOfConcat(1, 1, d, n);
    ShlPow2(0, n);
  }

  lemma MaskRestReads(n: nat, d: nat, t: seq<bit>)
    requires (n == 2 && d < 2) || (n == 3 && 4 <= d < 6) || (n == 6 && 48 <= d < 64)
    ensures d < Pow2(n) && MaskLength(Window(BitsOf(d, n) + t, 27)) == n
  {
    Pow2Values();
    hide Shl, Pow2, Window, BitsOf;
    WindowOfCode(d, n, t, 27);
    ShlValues(d);
  }

  predicate MaskShape(c: nat) {
    var n, v := c / 1024, c % 1024;
    (n == 3 && 4 <= v < 6) || (n == 4 && 12 <= v < 14) || (n == 7 && 112 <= v < 128)
  }

  // The digits of a mask code after the leading 1, and the number read_mask makes of them.
  function MaskRest(c: nat): nat
    requires MaskShape(c)
  {
    if c / 1024 == 3 then c % 1024 - 4 else if c / 1024 == 4 then c % 1024 - 8 else c % 1024 - 64
  }

  function MaskNumber(c: nat): nat
    requires MaskShape(c)
  {
    if c / 1024 == 3 then c % 1024 - 4 else if c / 1024 == 4 then c % 1024 - 10 else c % 1024 - 108
  }

  lemma MaskInverts(u: nat, opc: nat)
    requires opc < 8 && u < 4096
    ensures var c := MaskCode(u * 32768 + opc);
            MaskShape(c) && if c == ESCAPE then MaskNumber(c) == 19
                            else MaskNumber(c) < 19 && MaskTable(MaskNumber(c)) == u + opc * 4096
  {
  }

  lemma CodeShapes(c: nat)
    requires MaskShape(c) || OpShape(c)
    ensures IsCode(c)
  {
    Pow2Values();
  }

  // The three parts of what fill_result_list writes, in reading order.
  predicate InstrParts(i: Instr, c: nat, escape: seq<bit>, address: seq<bit>)
    requires Emittable(i)
  {
    if i.opc >= 8 then c == OpCode(i.opc) && address == escape == []
    else
      && c == MaskCode(i.w / 32768 * 32768 + i.opc) && address == AddressBits(i.w)
      && escape == if c == ESCAPE then AddressBits(i.w / 32768 + i.opc * 4096) else []
  }

  lemma InstrBitsParts(i: Instr, c: nat, escape: seq<bit>, address: seq<bit>)
    requires Emittable(i) && InstrParts(i, c, escape, address)
    ensures InstrBits(i) == CodeBits(c) + escape + address
  {
    hide CodeBits, MaskCode, AddressBits, OpCode;
    if i.opc >= 8 {
      assert CodeBits(c) + [] + [] == CodeBits(c);
    }
  }

  // A word in reading order: a 1, the rest of its code, the order half, the address.
  lemma WordParts(i: Instr, c: nat, escape: seq<bit>, rest: seq<bit>)
    requires Emittable(i) && i.opc < 8 && InstrParts(i, c, escape, AddressBits(i.w))
    ensures MaskShape(c)
    ensures InstrBits(i) + rest
            == BitsOf(1, 1) + (BitsOf(MaskRest(c), c / 1024 - 1) + (escape + (AddressBits(i.w) + rest)))
  {
    hide MaskCode, AddressBits, BitsOf, InstrBits, InstrParts;
    ShapeOfMask(i, c, escape);
    InstrBitsParts(i, c, escape, AddressBits(i.w));
    MaskCodeOpens(c);
    hide CodeBits;
    FivePieces(BitsOf(1, 1), BitsOf(MaskRest(c), c / 1024 - 1), escape, AddressBits(i.w), rest);
  }

  lemma ShapeOfMask(i: Instr, c: nat, escape: seq<bit>)
    requires Emittable(i) && i.opc < 8 && InstrParts(i, c, escape, AddressBits(i.w))
    ensures MaskShape(c)
  {
    hide AddressBits, BitsOf, InstrBits;
    MaskInverts(i.w / 32768, i.opc);
  }

  lemma MaskCodeOpens(c: nat)
    requires MaskShape(c)
    ensures CodeBits(c) == BitsOf(1, 1) + BitsOf(MaskRest(c), c / 1024 - 1) && BitsOf(1, 1) == [1]
  {
    MaskReads(c, []);
    assert BitsOf(0, 0) == [];
  }

  lemma FivePieces(a: seq<bit>, b: seq<bit>, c: seq<bit>, d: seq<bit>, e: seq<bit>)
    ensures (a + b) + c + d + e == a + (b + (c + (d + e)))
  {
  }

  // The first digit tells the two kinds of codes apart.
  lemma OrderOpensWithZero(opc: int, rest: seq<bit>, k: nat)
    requires 8 <= opc <= 112 && 10 <= k <= |CodeBits(OpCode(opc)) + rest|
    ensures Window((CodeBits(OpCode(opc)) + rest)[..k], 27) < 0x4000000
  {
    hide Window, CodeBits, OpCode, BitsOf;
    var c := OpCode(opc);
    OpCodeShape(opc);
    OpShapeReads(c, rest[..k - |CodeBits(c)|]);
    assert (CodeBits(c) + rest)[..k] == CodeBits(c) + rest[..k - |CodeBits(c)|];
  }

  lemma WordOpensWithOne(s: seq<bit>)
    requires s != [] && s[0] == 1 && |s| <= 27
    ensures Window(s, 27) >= 0x4000000
  {
    WindowShift(s, 27);
    Pow2Values();
  }

  // How an instruction starts, seen through a window on the stream.
  lemma InstrOpens(i: Instr, c: nat, escape: seq<bit>, address: seq<bit>, rest: seq<bit>, k: nat)
    requires Emittable(i) && InstrParts(i, c, escape, address)
    requires 21 <= k <= 27 && k <= |InstrBits(i) + rest|
    ensures Window((InstrBits(i) + rest)[..k], 27) < 0x4000000 <==> i.opc >= 8
    ensures i.opc >= 8 ==> InstrBits(i) == CodeBits(c)
    ensures i.opc < 8 ==> MaskShape(c)
    ensures i.opc < 8 ==>
              InstrBits(i) + rest == BitsOf(1, 1) + (BitsOf(MaskRest(c), c / 1024 - 1) + (escape + (address + rest)))
  {
    hide MaskCode, AddressBits, BitsOf, Window, CodeBits, OpCode;
    if i.opc >= 8 {
      OrderOpensWithZero(i.opc, rest, k);
    } else {
      WordParts(i, c, escape, rest);
      MaskCodeOpens(c);
      hide InstrBits;
      WordOpensWithOne((InstrBits(i) + rest)[..k]);
    }
  }
}
