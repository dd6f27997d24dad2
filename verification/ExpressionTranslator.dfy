/**
 The translator's treatment of expressions: one symbol at a time, with operators that wait for
 their right operand on the t-list, and jumps over parts not yet translated in the future list.
 */
module ExpressionTranslator {
  import opened ObjectCode

  datatype Option<T> = None | Some(value: T)

  // What the reader delivers: an identifier or constant, looked up, or a delimiter.
  datatype Symbol = Operand(id: nat) | Delimiter(dl: nat)

  const PLUS := 64
  const MINUS := 65
  const NOT := 76
  const IF := 82
  const THEN := 83
  const ELSE := 84
  const OPEN := 98
  const CLOSE := 99
  const NEG := 132

  // The part of the source program that is not an expression.
  const OUTSIDE := -1

  /**
   The variables of the translator that matter in an expression.  Operand is the identifier or
   constant just read (nflag and id), code the result list, future the future list entries filled.
   */
  datatype Translation = Translation(
    tlist: seq<int>, code: seq<Instr>, future: map<int, int>, flsc: int,
    eflag: int, mflag: int, oflag: int, operand: Option<nat>, stop: int)

  function Priority(entry: int): int {
    entry / 256 % 16
  }

  function Top(t: seq<int>): int
    requires t != []
  {
    t[|t| - 1]
  }

  // A variable that lives in the stack, addressed by block level and place.
  predicate Dynamic(id: nat) {
    id / 0x8000 % 2 != 0
  }

  predicate Integral(id: nat) {
    id / 0x80000 % 2 != 0
  }

  function AddressPart(id: nat): nat {
    id % 0x8000
  }

  function ListPart(id: nat): nat {
    id / 0x1000000 % 4
  }

  // The instruction that brings the address of a variable or constant into a register.
  function AddressToRegister(id: nat): Instr {
    if Dynamic(id) then Instr(0, AddressPart(id) + 21495808)
    else if ListPart(id) == 2 then Instr(2, AddressPart(id) + 71303168)
    else Instr(ListPart(id), AddressPart(id) + 71827456)
  }

  // The order that takes the operand (operator 63) or combines it with the stack (64..67).
  function OperandOrder(operator: int, id: nat): Instr {
    Instr(5 * operator + (if Dynamic(id) then 0 else 1) + (if Integral(id) then 2 else 0) - 284, 0)
  }

  function Emit(s: Translation, i: Instr): Translation {
    s.(code := s.code + [i])
  }

  function Push(s: Translation, n: int): Translation {
    s.(tlist := s.tlist + [n])
  }

  function Pop(s: Translation): Translation
    requires s.tlist != []
  {
    s.(tlist := s.tlist[..|s.tlist| - 1])
  }

  // A waiting operator that takes an operand directly.
  predicate Fusible(oh: int, t: seq<int>) {
    t != [] && oh <= Priority(Top(t)) && 63 < Top(t) % 256 <= 67
  }

  // The pending operand becomes code; +, -, * and / on top of the t-list are combined with it.
  function TakeOperand(s: Translation, oh: int): Translation {
    match s.operand
    case None => s
    case Some(id) =>
      var s1 := Emit(s.(operand := None), AddressToRegister(id));
      if Fusible(oh, s.tlist) then Emit(Pop(s1), OperandOrder(Top(s.tlist) % 256, id))
      else Emit(s1, OperandOrder(63, id))
  }

  // The order of an operator of the t-list; -1 when there is none.
  function Order(op: int): int {
    if 63 < op <= 80 then op - 5
    else if op == NEG then 57
    else if 127 < op < NEG then op - 43
    else if 127 < op <= 141 then op - 57
    else if 141 < op <= 152 then op - 40
    else -1
  }

  // The operators with at least priority oh leave the t-list.
  function UnloadOperators(s: Translation, oh: int): Translation
    decreases |s.tlist|
  {
    if s.stop != 0 || s.tlist == [] || oh > Priority(Top(s.tlist)) then s
    else
      var op, s1 := Top(s.tlist) % 256, Pop(s);
      if Order(op) < 0 then s1.(stop := 22)
      else if 129 < op < NEG then
        if s1.tlist == [] then s1.(stop := OUTSIDE)
        else UnloadOperators(Emit(Emit(Pop(s1), Instr(0, Top(s1.tlist) + 71827456)), Instr(Order(op), 0)), oh)
      else UnloadOperators(Emit(s1, Instr(Order(op), 0)), oh)
  }

  function Production(s: Translation, oh: int): Translation {
    UnloadOperators(TakeOperand(s, oh), oh)
  }

  // The t-list ends in a then or else, on its label and the saved eflag.
  predicate AtThenElse(t: seq<int>) {
    |t| >= 3 && Top(t) % 255 in {THEN, ELSE}
  }

  // The jump over the part that ends here gets its goal.
  function ThenElse(s: Translation): Translation
    requires AtThenElse(s.tlist)
  {
    var n := |s.tlist| - 3;
    s.(tlist := s.tlist[..n], eflag := s.tlist[n], future := s.future[s.tlist[n + 1] := |s.code|])
  }

  // The end of an expression.
  function EndOfExpression(s: Translation): Translation
    decreases |s.tlist|
  {
    var s1 := Production(s, 1);
    ProductionShrinks(s, 1);
    if s1.stop == 0 && AtThenElse(s1.tlist) then EndOfExpression(ThenElse(s1)) else s1
  }

  lemma ProductionShrinks(s: Translation, oh: int)
    ensures |Production(s, oh).tlist| <= |s.tlist|
  {
    UnloadShrinks(TakeOperand(s, oh), oh);
  }

  lemma UnloadShrinks(s: Translation, oh: int)
    ensures |UnloadOperators(s, oh).tlist| <= |s.tlist|
    decreases |s.tlist|
  {
  }

  function OnOperator(s: Translation, dl: nat, oh: int): Translation {
    var s1 := Production(s, oh);
    if s1.stop != 0 then s1 else Push(s1, 256 * oh + dl)
  }

  function OnSign(s: Translation, dl: nat): Translation {
    if s.oflag == 0 then OnOperator(s, dl, 9)
    else if dl == MINUS then Push(s, 256 * 10 + NEG)
    else s
  }

  function OnIf(s: Translation): Translation {
    Push(Push(s, s.eflag), IF).(eflag := 1, oflag := 1)
  }

  // A jump to a place not known yet, remembered on the t-list with the symbol dl.
  function OpenLabel(s: Translation, dl: nat): Translation {
    Push(Push(s, s.flsc), dl).(flsc := s.flsc + 1, oflag := 1)
  }

  function OnThen(s: Translation): Translation {
    var s1 := EndOfExpression(s);
    if s1.stop != 0 then s1
    else if |s1.tlist| < 2 then s1.(stop := OUTSIDE)
    else
      var s2 := Pop(s1);
      OpenLabel(Emit(Emit(s2.(eflag := Top(s2.tlist)), Instr(30, 0)), Instr(2, s2.flsc + 88178688)), THEN)
  }

  // The conditional expressions that end before the else.
  function CloseElse(s: Translation): Translation
    decreases |s.tlist|
  {
    var s1 := Production(s, 1);
    ProductionShrinks(s, 1);
    if s1.stop == 0 && AtThenElse(s1.tlist) && Top(s1.tlist) % 256 == ELSE then CloseElse(ThenElse(s1)) else s1
  }

  function OnElse(s: Translation): Translation {
    var s1 := CloseElse(s);
    if s1.stop != 0 then s1
    else if !AtThenElse(s1.tlist) then s1.(stop := OUTSIDE)
    else
      var s2 := ThenElse(Emit(s1, Instr(2, s1.flsc + 88080384)));
      OpenLabel(s2.(tlist := s1.tlist[..|s1.tlist| - 2]), ELSE)
  }

  function OnOpen(s: Translation): Translation {
    Push(Push(s, s.mflag), OPEN).(mflag := 0, oflag := 1)
  }

  function OnClose(s: Translation): Translation {
    if s.mflag == 1 then s.(stop := OUTSIDE)
    else
      var s1 := EndOfExpression(s);
      if s1.stop != 0 then s1
      else if |s1.tlist| < 2 then s1.(stop := OUTSIDE)
      else Pop(Pop(s1)).(mflag := Top(Pop(s1).tlist))
  }

  function OnDelimiter(s: Translation, dl: nat): Translation {
    if dl in {PLUS, MINUS} then OnSign(s, dl)
    else if 66 <= dl <= 68 then OnOperator(s, dl, 10)
    else if dl == 69 then OnOperator(s, dl, 11)
    else if 70 <= dl <= 75 then OnOperator(s, dl, 8).(oflag := 1)
    else if dl == NOT then Push(s, 256 * 7 + NOT).(oflag := 1)
    else if 77 <= dl <= 80 then OnOperator(s, dl, 83 - dl)
    else if dl == IF then OnIf(s)
    else if dl == THEN then OnThen(s)
    else if dl == ELSE then OnElse(s)
    else if dl == OPEN then OnOpen(s)
    else if dl == CLOSE then OnClose(s)
    else s.(stop := OUTSIDE)
  }

  function Scan(s: Translation, sym: Symbol): Translation {
    if s.stop != 0 then s
    else match sym
      case Operand(id) => s.(operand := Some(id), oflag := 0)
      case Delimiter(dl) => OnDelimiter(s, dl).(operand := None)
  }

  // The translation after the symbols syms.
  function Feed(s: Translation, syms: seq<Symbol>): Translation
    decreases syms
  {
    if syms == [] then s else Feed(Scan(s, syms[0]), syms[1..])
  }

  lemma FeedConcat(s: Translation, a: seq<Symbol>, b: seq<Symbol>)
    ensures Feed(s, a + b) == Feed(Feed(s, a), b)
    decreases a
  {
    hide Scan;
    if a == [] {
      assert a + b == b;
    } else {
      assert (a + b)[0] == a[0] && (a + b)[1..] == a[1..] + b;
      FeedConcat(Scan(s, a[0]), a[1..], b);
    }
  }

  class Translator {
    var tlist: seq<int>
    var code: seq<Instr>
    var future: map<int, int>
    var flsc: int
    var eflag: int
    var mflag: int
    var oflag: int
    var nflag: bool
    var id: nat
    var oh: int
    var stop: int

    constructor (context: seq<int>)
      ensures State() == Translation(context, [], map[], 0, 0, 0, 0, None, 0)
    {
      tlist, code, future, flsc, eflag, mflag, oflag := context, [], map[], 0, 0, 0, 0;
      nflag, id, oh, stop := false, 0, 0, 0;
    }

    function State(): Translation
      reads this
    {
      Translation(tlist, code, future, flsc, eflag, mflag, oflag, if nflag then Some(id) else None, stop)
    }

    method FillResultList(opc: int, w: int)
      modifies this`code
      ensures State() == Emit(old(State()), Instr(opc, w))
    {
      code := code + [Instr(opc, w)];
    }

    method FillTList(n: int)
      modifies this`tlist
      ensures State() == Push(old(State()), n)
    {
      tlist := tlist + [n];
    }

    method UnloadTListElement() returns (n: int)
      requires tlist != []
      modifies this`tlist
      ensures State() == Pop(old(State())) && n == Top(old(tlist))
    {
      n := tlist[|tlist| - 1];
      tlist := tlist[..|tlist| - 1];
    }

    method LoadAddress()
      modifies this`code
      ensures State() == Emit(old(State()), AddressToRegister(id))
    {
      if id / 0x8000 % 2 != 0 {
        FillResultList(0, id % 0x8000 + 21495808);
      } else if id / 0x1000000 % 4 == 2 {
        FillResultList(2, id % 0x8000 + 71303168);
      } else {
        FillResultList(id / 0x1000000 % 4, id % 0x8000 + 71827456);
      }
    }

    method ProduceOperand()
      requires nflag
      modifies this`tlist, this`code, this`nflag
      ensures State() == TakeOperand(old(State()), oh)
    {
      nflag := false;
      LoadAddress();
      var operator := 315;
      if tlist != [] && oh <= tlist[|tlist| - 1] / 256 % 16 {
        var top := tlist[|tlist| - 1] % 256;
        if !(top <= 63 || top > 67) {
          var _ := UnloadTListElement();
          operator := top * 5;
        }
      }
      if id / 0x8000 % 2 == 0 {
        operator := operator + 1;
      }
      if id / 0x80000 % 2 != 0 {
        operator := operator + 2;
      }
      FillResultList(operator - 284, 0);
    }

    method ProduceOperator()
      requires tlist != [] && oh <= Priority(Top(tlist)) && stop == 0
      modifies this`tlist, this`code, this`stop
      ensures UnloadOperators(State(), oh) == UnloadOperators(old(State()), oh) && |tlist| < |old(tlist)|
    {
      var entry := UnloadTListElement();
      var operator := entry % 256;
      if operator > 63 && operator <= 80 {
        FillResultList(operator - 5, 0);
      } else if operator == NEG {
        FillResultList(57, 0);
      } else if operator < NEG && operator > 127 {
        if operator > 129 {
          if tlist == [] {
            stop := OUTSIDE;
            return;
          }
          var block := UnloadTListElement();
          FillResultList(0, block + 71827456);
        }
        FillResultList(operator - 43, 0);
      } else if operator > 127 && operator <= 141 {
        FillResultList(operator - 57, 0);
      } else if operator > 141 && operator <= 152 {
        FillResultList(operator - 40, 0);
      } else {
        stop := 22;
      }
    }

    method ProductionOfObjectProgram(opht: int)
      requires stop == 0
      modifies this`tlist, this`code, this`nflag, this`oh, this`stop
      ensures State() == Production(old(State()), opht) && oh == opht
    {
      hide UnloadOperators;
      oh := opht;
      if nflag {
        ProduceOperand();
      }
      while stop == 0 && tlist != [] && oh <= tlist[|tlist| - 1] / 256 % 16
        invariant oh == opht && UnloadOperators(State(), oh) == Production(old(State()), opht)
        decreases |tlist|
      {
        ProduceOperator();
      }
      UnloadEnd(State(), oh);
    }

    static lemma UnloadEnd(s: Translation, oh: int)
      requires s.stop != 0 || s.tlist == [] || oh > Priority(Top(s.tlist))
      ensures UnloadOperators(s, oh) == s
    {
    }

    method CloseThenElse() returns (closed: bool)
      modifies this`tlist, this`future, this`eflag
      ensures closed == AtThenElse(old(tlist))
      ensures State() == if closed then ThenElse(old(State())) else old(State())
    {
      closed := |tlist| >= 3 && tlist[|tlist| - 1] % 255 in {THEN, ELSE};
      if closed {
        var _ := UnloadTListElement();
        var place := UnloadTListElement();
        future := future[place := |code|];
        eflag := UnloadTListElement();
      }
    }

    // The end of an expression where the next symbols may begin another one, with a sign.
    method EmptyTListThroughThenElse()
      requires stop == 0
      modifies this`tlist, this`code, this`nflag, this`oh, this`stop, this`future, this`eflag, this`oflag
      ensures State() == EndOfExpression(old(State()).(oflag := 1))
    {
      hide EndOfExpression;
      oflag := 1;
      CloseExpression();
    }

    // All that waits for the end of the expression leaves the t-list.
    method CloseExpression()
      requires stop == 0
      modifies this`tlist, this`code, this`nflag, this`oh, this`stop, this`future, this`eflag
      ensures State() == EndOfExpression(old(State()))
    {
      hide UnloadOperators, TakeOperand, Production;
      var more := true;
      while more
        invariant if more then stop == 0 && EndOfExpression(State()) == EndOfExpression(old(State()))
                  else State() == EndOfExpression(old(State()))
        decreases more, |tlist|
      {
        ProductionShrinks(State(), 1);
        ProductionOfObjectProgram(1);
        if stop != 0 {
          return;
        }
        more := CloseThenElse();
      }
    }

    // Parts of the main scan, one for each kind of delimiter.
    method Operator(dl: nat, priority: int)
      requires stop == 0
      modifies this`tlist, this`code, this`nflag, this`oh, this`stop
      ensures State() == OnOperator(old(State()), dl, priority)
    {
      ProductionOfObjectProgram(priority);
      if stop == 0 {
        FillTList(256 * oh + dl);
      }
    }

    method Sign(dl: nat)
      requires stop == 0 && dl in {PLUS, MINUS}
      modifies this`tlist, this`code, this`nflag, this`oh, this`stop
      ensures State() == OnSign(old(State()), dl)
    {
      if oflag == 0 {
        Operator(dl, 9);
      } else if dl == MINUS {
        oh := 10;
        FillTList(256 * oh + NEG);
      }
    }

    method If()
      modifies this`tlist, this`oh, this`eflag, this`oflag
      ensures State() == OnIf(old(State()))
    {
      FillTList(eflag);
      eflag := 1;
      oh := 0;
      FillTList(256 * oh + IF);
      oflag := 1;
    }

    method LabelInTList(dl: nat)
      modifies this`tlist, this`flsc, this`oh, this`oflag
      ensures State() == OpenLabel(old(State()), dl)
    {
      FillTList(flsc);
      flsc := flsc + 1;
      oh := 0;
      FillTList(256 * oh + dl);
      oflag := 1;
    }

    method Then()
      requires stop == 0
      modifies this
      ensures State() == OnThen(old(State()))
    {
      hide EndOfExpression;
      CloseExpression();
      if stop != 0 {
        return;
      }
      if |tlist| < 2 {
        stop := OUTSIDE;
        return;
      }
      var _ := UnloadTListElement();
      eflag := tlist[|tlist| - 1];
      FillResultList(30, 0);
      FillResultList(2, flsc + 88178688);
      LabelInTList(THEN);
    }

    method CloseElses()
      requires stop == 0
      modifies this`tlist, this`code, this`nflag, this`oh, this`stop, this`future, this`eflag
      ensures State() == CloseElse(old(State()))
    {
      hide UnloadOperators, TakeOperand, Production;
      var more := true;
      while more
        invariant if more then stop == 0 && CloseElse(State()) == CloseElse(old(State()))
                  else State() == CloseElse(old(State()))
        decreases more, |tlist|
      {
        ProductionShrinks(State(), 1);
        ProductionOfObjectProgram(1);
        if stop != 0 {
          return;
        }
        more := false;
        if tlist != [] && tlist[|tlist| - 1] % 256 == ELSE {
          more := CloseThenElse();
        }
      }
    }

    method Else()
      requires stop == 0
      modifies this
      ensures State() == OnElse(old(State()))
    {
      hide CloseElse;
      CloseElses();
      if stop != 0 {
        return;
      }
      if !AtThenElse(tlist) {
        stop := OUTSIDE;
        return;
      }
      FillResultList(2, flsc + 88080384);
      ghost var waiting := tlist;
      var _ := CloseThenElse();
      FillTList(eflag);
      assert tlist == waiting[..|waiting| - 2];
      LabelInTList(ELSE);
    }

    method Open()
      modifies this`tlist, this`oh, this`mflag, this`oflag
      ensures State() == OnOpen(old(State()))
    {
      oflag := 1;
      FillTList(mflag);
      mflag := 0;
      oh := 0;
      FillTList(256 * oh + OPEN);
    }

    method Close()
      requires stop == 0
      modifies this
      ensures State() == OnClose(old(State()))
    {
      hide EndOfExpression;
      if mflag == 1 {
        stop := OUTSIDE;
        return;
      }
      CloseExpression();
      if stop != 0 {
        return;
      }
      if |tlist| < 2 {
        stop := OUTSIDE;
        return;
      }
      var _ := UnloadTListElement();
      mflag := UnloadTListElement();
    }

    method Dispatch(dl: nat)
      requires stop == 0
      modifies this
      ensures State() == OnDelimiter(old(State()), dl)
    {
      hide OnSign, OnOperator, OnIf, OnThen, OnElse, OnOpen, OnClose;
      if dl in {PLUS, MINUS} {
        Sign(dl);
      } else if 66 <= dl <= 68 {
        Operator(dl, 10);
      } else if dl == 69 {
        Operator(dl, 11);
      } else if 70 <= dl <= 75 {
        Operator(dl, 8);
        oflag := 1;
      } else if dl == NOT {
        FillTList(256 * 7 + NOT);
        oflag := 1;
      } else if 77 <= dl <= 80 {
        Operator(dl, 83 - dl);
      } else if dl == IF {
        If();
      } else if dl == THEN {
        Then();
      } else if dl == ELSE {
        Else();
      } else if dl == OPEN {
        Open();
      } else if dl == CLOSE {
        Close();
      } else {
        stop := OUTSIDE;
      }
    }

    // The translation of a stretch of source text.
    method MainScan(text: seq<Symbol>)
      requires stop == 0
      modifies this
      ensures State() == Feed(old(State()), text)
    {
      hide OnDelimiter;
      var i := 0;
      while i < |text| && stop == 0
        invariant 0 <= i <= |text| && Feed(old(State()), text) == Feed(State(), text[i..])
      {
        match text[i] {
          case Operand(name) =>
            nflag, id := true, name;
            oflag := 0;
          case Delimiter(dl) =>
            Dispatch(dl);
            nflag := false;
        }
        assert text[i..][0] == text[i] && text[i..][1..] == text[i + 1..];
        i := i + 1;
      }
      FeedStopped(State(), text[i..]);
    }

    static lemma FeedStopped(s: Translation, text: seq<Symbol>)
      requires s.stop != 0 || text == []
      ensures Feed(s, text) == s
      decreases text
    {
      if text != [] {
        FeedStopped(s, text[1..]);
      }
    }
  }
}
