/**
 The code of an expression leaves its value on the stack, and nothing else, exactly when no sign
 the value depends on directly follows a binary logical operator.
 */
module ExpressionMeaning {
  import opened ObjectCode
  import opened ProgramLoader
  import opened ExpressionTranslator
  import opened ExpressionCode
  import opened Expressions
  import opened ExpressionRun
  import opened X1Integers
  import opened StackMachine

  predicate Encodes(w: int, v: Value) {
    IsWord(w) && match v case Number(n) => ToInt(w) == n && Fits(n) case Logical(b) => w == Truth(b)
  }

  // The words in the store are the values v of the names in e.
  predicate Holding(e: Expr, v: nat -> Value, m: Store, p: Places) {
    match e
    case Name(id) => AddressedLeaf(id, p) && Encodes(WordOf(id, m, p), v(id))
    case Signed(_, t) => Holding(t, v, m, p)
    case Operation(op, l, r) => DyadicOperator(op) && Holding(l, v, m, p) && Holding(r, v, m, p)
    case Negation(a) => Holding(a, v, m, p)
    case Conditional(c, y, n) => Holding(c, v, m, p) && Holding(y, v, m, p) && Holding(n, v, m, p)
    case Parenthesized(a) => Holding(a, v, m, p)
  }

  lemma {:induction false} HoldingAddressed(e: Expr, o: int, v: nat -> Value, m: Store, p: Places)
    requires Holding(e, v, m, p)
    ensures Addressed(Parsed(e, o), p)
  {
    hide AddressedLeaf, WordOf;
    match e
    case Name(_) =>
    case Signed(minus, t) =>
      HoldingAddressed(t, o, v, m, p);
      MinusFirstAddressed(Parsed(t, o), p);
    case Operation(op, l, r) =>
      HoldingAddressed(l, o, v, m, p);
      HoldingAddressed(r, if Relation(op) then 1 else 0, v, m, p);
    case Negation(a) => HoldingAddressed(a, 1, v, m, p);
    case Conditional(c, y, n) =>
      HoldingAddressed(c, 1, v, m, p); HoldingAddressed(y, 1, v, m, p); HoldingAddressed(n, 1, v, m, p);
    case Parenthesized(a) => HoldingAddressed(a, 1, v, m, p);
  }

  lemma {:induction false} MinusFirstAddressed(t: Tree, p: Places)
    requires Addressed(t, p)
    ensures Addressed(MinusFirst(t), p)
  {
    hide AddressedLeaf;
    if t.Dyadic? && OperatorPriority(t.op) == 10 {
      MinusFirstAddressed(t.left, p);
    }
  }

  // The stack k with a word for the value added, or a stop where there is no value.
  predicate Right(x: Option<Stack>, k: Stack, v: Option<Value>) {
    match v
    case None => x == None
    case Some(a) =>
      && x.Some? && |x.value| == |k| + 1 && x.value[..|k|] == k
      && x.value[|k|].Word? && Encodes(x.value[|k|].w, a)
  }

  // A stop, or at least one item too few.
  predicate Short(x: Option<Stack>, k: Stack) {
    x == None || |x.value| <= |k|
  }

  predicate Outcome(x: Option<Stack>, k: Stack, good: bool, v: Option<Value>) {
    if good then Right(x, k, v) else Short(x, k)
  }

  // No code leaves more than one item.
  lemma {:induction false} AtMostOne(t: Tree, m: Store, p: Places, k: Stack)
    requires Addressed(t, p)
    ensures Exec(t, m, p, k) == None || |Exec(t, m, p, k).value| <= |k| + 1
  {
    hide Combine, AddressedLeaf, WordOf;
    match t
    case Nothing =>
    case Leaf(_) =>
    case Dyadic(op, l, r) =>
      AtMostOne(l, m, p, k);
      var k1 := Exec(l, m, p, k);
      if k1 != None && !Fused(op, r) {
        AtMostOne(r, m, p, k1.value);
      }
    case Minus(e) => AtMostOne(e, m, p, k);
    case Plus(e) => AtMostOne(e, m, p, k);
    case Not(e) => AtMostOne(e, m, p, k);
    case Choice(c, y, n) =>
      AtMostOne(c, m, p, k);
      var k1 := Exec(c, m, p, k);
      if k1 != None && k1.value != [] {
        AtMostOne(y, m, p, Rest(k1.value));
        AtMostOne(n, m, p, Rest(k1.value));
      }
    case Parens(e) => AtMostOne(e, m, p, k);
  }

  lemma FromFitting(n: int)
    ensures Fits(n) ==> Encodes(FromInt(n), Number(n))
  {
  }

  lemma QuotientIsDivided(a: int, b: int)
    requires b != 0
    ensures Quotient(a, b) == Divided(a, b)
  {
    if a == 0 {
      assert Abs(a) / Abs(b) == 0;
    }
    ByOnes(Abs(a) / Abs(b));
  }

  lemma ByOnes(q: int)
    ensures 1 * 1 * q == q && -1 * -1 * q == q && 1 * -1 * q == -q && -1 * 1 * q == -q
  {
  }

  // The machine's division: no result for a divisor of zero, else the integer towards zero.
  lemma MachineDivides(a: int, b: int)
    requires IsWord(a) && IsWord(b)
    ensures Combine(63, a, b) == -1 <==> ToInt(b) == 0
    ensures ToInt(b) != 0 ==> IsWord(Combine(63, a, b)) && Divides(ToInt(a), ToInt(b), ToInt(Combine(63, a, b)))
  {
    hide Quotient, Divides;
    var i, j := ToInt(a), ToInt(b);
    if j != 0 {
      QuotientDivides(i, j);
      DividedFits(i, j, Quotient(i, j));
      IntComesBack(Quotient(i, j));
    }
  }

  lemma MultipleBelow(i: int, j: int, product: int, r: int)
    requires i == product + r && Abs(r) < Abs(j) <= Abs(product) && (r == 0 || (r > 0 <==> i > 0))
    ensures Abs(product) <= Abs(i)
  {
  }

  lemma DividedFits(i: int, j: int, q: int)
    requires Fits(i) && j != 0 && Divides(i, j, q)
    ensures Fits(q)
  {
    var r: int :| LeftOver(i, j, q, r);
    if q != 0 {
      LargeProduct(j, q);
      LargeProduct(q, j);
      MultipleBelow(i, j, j * q, r);
      assert j * q == q * j;
    }
  }

  // The integer division of the language: the same law.
  lemma DivisionMeans(i: int, j: int)
    requires Fits(i)
    ensures var x := Apply(68, Number(i), Number(j));
            if j == 0 then x == None else x != None && x.value.Number? && Divides(i, j, x.value.n)
  {
    hide Quotient, Divided, Divides;
    if j != 0 {
      QuotientIsDivided(i, j);
      QuotientDivides(i, j);
      DividedFits(i, j, Divided(i, j));
    }
  }

  // The order of an operator computes what the operator means.
  lemma CombineApplies(op: nat, a: int, b: int, u: Value, v: Value)
    requires DyadicOperator(op) && Encodes(a, u) && Encodes(b, v) && u.Logical? == v.Logical? == (76 < op)
    ensures var r := Apply(op, u, v);
            if r == None then Combine(op - 5, a, b) == -1 else Encodes(Combine(op - 5, a, b), r.value)
  {
    if u.Number? && op <= 68 {
      var n := if op == 64 then u.n + v.n else if op == 65 then u.n - v.n else if op == 66 then u.n * v.n
               else if v.n == 0 then 0 else Divided(u.n, v.n);
      FromFitting(n);
      if v.n != 0 { QuotientIsDivided(u.n, v.n); }
      hide Quotient, Divided;
    }
  }

  lemma TopCombined(op: nat, k: Stack, k1: Stack, u: Value, b: int, v: Value)
    requires DyadicOperator(op) && u.Logical? == v.Logical? == (76 < op)
    requires Right(Some(k1), k, Some(u)) && Encodes(b, v)
    ensures Right(CombineTop(op - 5, k1, b), k, Apply(op, u, v))
  {
    CombineApplies(op, k1[|k|].w, b, u, v);
    hide Combine, Apply, DyadicOperator;
    assert Rest(k1) == k;
  }

  lemma TwoCombined(op: nat, k: Stack, k1: Stack, u: Value, k2: Stack, v: Value)
    requires DyadicOperator(op) && u.Logical? == v.Logical? == (76 < op)
    requires Right(Some(k1), k, Some(u)) && Right(Some(k2), k1, Some(v))
    ensures Right(CombineTwo(op - 5, k2), k, Apply(op, u, v))
  {
    hide CombineTop, Apply;
    assert Rest(k2) == k1;
    TopCombined(op, k, k1, u, k2[|k1|].w, v);
  }

  function Applied(op: nat, a: Option<Value>, b: Option<Value>): Option<Value> {
    match (a, b)
    case (Some(u), Some(v)) => Apply(op, u, v)
    case _ => None
  }

  lemma RightOperand(op: nat, r: Tree, m: Store, p: Places, k: Stack, k1: Stack, u: Value, good: bool, v: Option<Value>)
    requires DyadicOperator(op) && Addressed(r, p) && Right(Some(k1), k, Some(u))
    requires Outcome(Exec(r, m, p, k1), k1, good, v)
    requires v != None ==> u.Logical? == v.value.Logical? == (76 < op)
    ensures Outcome(ExecRight(op, r, m, p, k1), k, good, Applied(op, Some(u), v))
  {
    hide Combine, Apply, Encodes, DyadicOperator;
    var x := Exec(r, m, p, k1);
    if good && v != None {
      if Fused(op, r) {
        TopCombined(op, k, k1, u, WordOf(r.id, m, p), v.value);
      } else {
        TwoCombined(op, k, k1, u, x.value, v.value);
      }
    }
  }

  // A left operand that left too little behind.
  lemma ShortLeft(op: nat, r: Tree, m: Store, p: Places, k: Stack, k1: Stack)
    requires DyadicOperator(op) && Addressed(r, p) && |k1| <= |k|
    ensures Short(ExecRight(op, r, m, p, k1), k)
  {
    hide Combine, Exec, Addressed, DyadicOperator;
    AtMostOne(r, m, p, k1);
  }

  lemma OperationOutcome(op: nat, l: Tree, r: Tree, m: Store, p: Places, k: Stack, goodL: bool, u: Option<Value>,
                         goodR: bool, v: Option<Value>)
    requires DyadicOperator(op) && Addressed(l, p) && Addressed(r, p) && Outcome(Exec(l, m, p, k), k, goodL, u)
    requires Exec(l, m, p, k) != None ==>
               Outcome(Exec(r, m, p, Exec(l, m, p, k).value), Exec(l, m, p, k).value, goodR, v)
    requires u != None && v != None ==> u.value.Logical? == v.value.Logical? == (76 < op)
    ensures Addressed(Dyadic(op, l, r), p)
    ensures Outcome(Exec(Dyadic(op, l, r), m, p, k), k, goodL && (u == None || goodR), Applied(op, u, v))
  {
    assert Addressed(Dyadic(op, l, r), p);
    hide Exec, Apply, Encodes, DyadicOperator, ExecRight, Addressed;
    DyadicExec(op, l, r, m, p, k);
    var x := Exec(l, m, p, k);
    if x != None {
      if goodL {
        RightOperand(op, r, m, p, k, x.value, u.value, goodR, v);
      } else {
        ShortLeft(op, r, m, p, k, x.value);
      }
    }
  }

  lemma TypesAgree(op: nat, l: Expr, r: Expr, v: nat -> Value)
    requires WellTyped(Operation(op, l, r), v)
    ensures var a, b := Meaning(l, v), Meaning(r, v);
            a != None && b != None ==> a.value.Logical? == b.value.Logical? == (76 < op)
    ensures Meaning(Operation(op, l, r), v) == Applied(op, Meaning(l, v), Meaning(r, v))
  {
    hide Apply;
    if Meaning(l, v) != None { MeaningTyped(l, v); }
    if Meaning(r, v) != None { MeaningTyped(r, v); }
  }

  // A sign taken for a binary operator finds no left operand of its own.
  lemma UnnoticedSign(op: nat, t: Tree, m: Store, p: Places, k: Stack)
    requires op in {PLUS, MINUS} && Addressed(t, p)
    ensures Addressed(Dyadic(op, Nothing, t), p) && Short(Exec(Dyadic(op, Nothing, t), m, p, k), k)
  {
    assert Addressed(Dyadic(op, Nothing, t), p);
    DyadicExec(op, Nothing, t, m, p, k);
    ShortLeft(op, t, m, p, k, k);
  }

  lemma Negative(x: Option<Stack>, k: Stack, good: bool, v: Option<Value>)
    requires Outcome(x, k, good, v) && (v != None ==> v.value.Number?)
    ensures Outcome(if x == None then None else NegateTop(x.value), k, good, Opposite(v))
  {
    if good && v != None {
      NegatedValue(x.value[|k|].w);
      assert Rest(x.value) == k;
    }
  }

  lemma Inverted(x: Option<Stack>, k: Stack, good: bool, v: Option<Value>)
    requires Outcome(x, k, good, v) && (v != None ==> v.value.Logical?)
    ensures Outcome(if x == None then None else InvertTop(x.value), k, good,
                    if v == None then None else Some(Logical(!v.value.b)))
  {
    if good && v != None {
      assert Rest(x.value) == k;
    }
  }

  lemma OppositeApplied(op: nat, a: Option<Value>, b: Option<Value>)
    requires OperatorPriority(op) == 10 && (a != None ==> a.value.Number?)
    ensures Applied(op, Opposite(a), b) == Opposite(Applied(op, a, b))
  {
    if a != None && b != None && b.value.Number? {
      var i, j := a.value.n, b.value.n;
      if op == 66 {
        assert (-i) * j == -(i * j);
      } else if op == 68 && j != 0 {
        DividedOpposite(i, j);
      }
    }
  }

  lemma DividedOpposite(i: int, j: int)
    requires j != 0
    ensures Divided(-i, j) == -Divided(i, j)
  {
    assert Abs(-i) == Abs(i);
    assert Sign(-i) == -Sign(i);
    ByOnes(Abs(i) / Abs(j));
  }

  lemma {:induction false} CorrectOperation(op: nat, l: Expr, r: Expr, o: int, v: nat -> Value,
                                            m: Store, p: Places, k: Stack)
    requires var e := Operation(op, l, r); Grammatical(e) && WellTyped(e, v) && Holding(e, v, m, p) && o in {0, 1}
    ensures var e := Operation(op, l, r);
            Addressed(Parsed(e, o), p) && Outcome(Exec(Parsed(e, o), m, p, k), k, Unharmed(e, o, v), Meaning(e, v))
    decreases Operation(op, l, r), 0
  {
    hide Exec, Outcome, Apply, Addressed, DyadicOperator, AddressedLeaf;
    var o2 := if Relation(op) then 1 else 0;
    var lt, rt := Parsed(l, o), Parsed(r, o2);
    Correct(l, o, v, m, p, k);
    HoldingAddressed(r, o2, v, m, p);
    var x := Exec(lt, m, p, k);
    if x != None {
      Correct(r, o2, v, m, p, x.value);
    }
    TypesAgree(op, l, r, v);
    OperationOutcome(op, lt, rt, m, p, k, Unharmed(l, o, v), Meaning(l, v), Unharmed(r, o2, v), Meaning(r, v));
  }

  // A minus sign in front of a term, taken to belong to its first factor.
  lemma {:induction false} CorrectNegated(e: Expr, v: nat -> Value, m: Store, p: Places, k: Stack)
    requires Grammatical(e) && WellTyped(e, v) && Holding(e, v, m, p) && !IsBoolean(e, v) && 10 <= Rank(e)
    ensures Addressed(MinusFirst(Parsed(e, 1)), p)
    ensures Outcome(Exec(MinusFirst(Parsed(e, 1)), m, p, k), k, Unharmed(e, 1, v), Opposite(Meaning(e, v)))
    decreases e, 2
  {
    hide Outcome, Apply, Addressed, AddressedLeaf, Exec;
    HoldingAddressed(e, 1, v, m, p);
    MinusFirstAddressed(Parsed(e, 1), p);
    if e.Operation? && OperatorPriority(e.op) == 10 {
      NegatedOperation(e.op, e.left, e.right, v, m, p, k);
    } else {
      Correct(e, 1, v, m, p, k);
      if Meaning(e, v) != None { MeaningTyped(e, v); }
      Negative(Exec(Parsed(e, 1), m, p, k), k, Unharmed(e, 1, v), Meaning(e, v));
      MinusExec(Parsed(e, 1), m, p, k);
    }
  }

  lemma MinusExec(t: Tree, m: Store, p: Places, k: Stack)
    requires Addressed(t, p)
    ensures Addressed(Minus(t), p)
    ensures var x := Exec(t, m, p, k); Exec(Minus(t), m, p, k) == if x == None then None else NegateTop(x.value)
  {
  }

  lemma {:induction false} NegatedOperation(op: nat, l: Expr, r: Expr, v: nat -> Value, m: Store, p: Places, k: Stack)
    requires var e := Operation(op, l, r);
             Grammatical(e) && WellTyped(e, v) && Holding(e, v, m, p) && OperatorPriority(op) == 10
    ensures var e := Operation(op, l, r);
            && Addressed(MinusFirst(Parsed(e, 1)), p)
            && Outcome(Exec(MinusFirst(Parsed(e, 1)), m, p, k), k, Unharmed(e, 1, v), Opposite(Meaning(e, v)))
    decreases Operation(op, l, r), 1
  {
    hide Exec, Outcome, Apply, Addressed, AddressedLeaf, Applied, Opposite;
    var lt, rt := MinusFirst(Parsed(l, 1)), Parsed(r, 0);
    CorrectNegated(l, v, m, p, k);
    HoldingAddressed(r, 0, v, m, p);
    var x := Exec(lt, m, p, k);
    if x != None {
      Correct(r, 0, v, m, p, x.value);
    }
    TypesAgree(op, l, r, v);
    if Meaning(l, v) != None { MeaningTyped(l, v); }
    OppositeNumber(Meaning(l, v));
    OperationOutcome(op, lt, rt, m, p, k, Unharmed(l, 1, v), Opposite(Meaning(l, v)), Unharmed(r, 0, v), Meaning(r, v));
    OppositeApplied(op, Meaning(l, v), Meaning(r, v));
  }

  lemma OppositeNumber(v: Option<Value>)
    requires v != None ==> v.value.Number?
    ensures (Opposite(v) == None) == (v == None) && (v != None ==> Opposite(v).value.Number?)
  {
  }

  lemma {:induction false} CorrectConditional(c: Expr, y: Expr, n: Expr, v: nat -> Value, m: Store, p: Places, k: Stack)
    requires var e := Conditional(c, y, n); Grammatical(e) && WellTyped(e, v) && Holding(e, v, m, p)
    ensures var e := Conditional(c, y, n);
            Addressed(Parsed(e, 1), p) && Outcome(Exec(Parsed(e, 1), m, p, k), k, Unharmed(e, 1, v), Meaning(e, v))
    decreases Conditional(c, y, n), 0
  {
    var e := Conditional(c, y, n);
    HoldingAddressed(e, 1, v, m, p);
    assert Addressed(Parsed(c, 1), p) && Addressed(Parsed(y, 1), p) && Addressed(Parsed(n, 1), p);
    ChoiceExec(Parsed(c, 1), Parsed(y, 1), Parsed(n, 1), m, p, k);
    hide Exec, Addressed, AddressedLeaf;
    Correct(c, 1, v, m, p, k);
    var x, b := Exec(Parsed(c, 1), m, p, k), Meaning(c, v);
    if x != None && Unharmed(c, 1, v) {
      MeaningTyped(c, v);
      assert Rest(x.value) == k;
      if b.value.b {
        Correct(y, 1, v, m, p, k);
      } else {
        Correct(n, 1, v, m, p, k);
      }
    } else if x != None && x.value != [] {
      AtMostOne(Parsed(y, 1), m, p, Rest(x.value));
      AtMostOne(Parsed(n, 1), m, p, Rest(x.value));
    }
  }

  // The code of e, from any stack.
  lemma {:induction false} Correct(e: Expr, o: int, v: nat -> Value, m: Store, p: Places, k: Stack)
    requires Grammatical(e) && WellTyped(e, v) && Holding(e, v, m, p) && o in {0, 1}
    ensures Addressed(Parsed(e, o), p)
    ensures Outcome(Exec(Parsed(e, o), m, p, k), k, Unharmed(e, o, v), Meaning(e, v))
    decreases e, 1
  {
    HoldingAddressed(e, o, v, m, p);
    match e
    case Name(id) =>
    case Signed(minus, t) =>
      if o != 1 {
        UnnoticedSign(if minus then MINUS else PLUS, Parsed(t, o), m, p, k);
      } else if minus {
        CorrectNegated(t, v, m, p, k);
      } else {
        Correct(t, o, v, m, p, k);
      }
    case Operation(op, l, r) => CorrectOperation(op, l, r, o, v, m, p, k);
    case Negation(a) =>
      Correct(a, 1, v, m, p, k);
      if Meaning(a, v) != None { MeaningTyped(a, v); }
      Inverted(Exec(Parsed(a, 1), m, p, k), k, Unharmed(a, 1, v), Meaning(a, v));
    case Conditional(c, y, n) => CorrectConditional(c, y, n, v, m, p, k);
    case Parenthesized(a) => Correct(a, 1, v, m, p, k);
  }

  // Where an expression may begin: nothing that waits on the t-list is bound tighter than :=.
  predicate BeforeExpression(s: Translation) {
    Ready(s) && s.oflag in {0, 1} && Priority(Top(s.tlist)) <= 2 && Plain(s.tlist)
  }

  // When the expression ends, the translator has added the code of e, before all that the end adds.
  lemma Translated(e: Expr, s: Translation)
    requires Grammatical(e) && BeforeExpression(s)
    ensures var s1, w := EndOfExpression(Feed(s, SourceText(e))), With(s, Parsed(e, s.oflag));
            s1 == EndOfExpression(w) && s.code <= w.code <= s1.code && Feed(s, SourceText(e)).stop == 0
  {
    hide Feed, EndOfExpression, Code, Goals, Production, SourceText, Text, Parsed, Readable;
    var t := Parsed(e, s.oflag);
    ParsedText(e, s.oflag);
    ParsedReadable(e, s.oflag);
    LevelBound(t, s.oflag);
    ReadingToEnd(t, s);
    EndAdds(With(s, t));
  }

  lemma LevelBound(t: Tree, o: int)
    requires Readable(t, o)
    ensures t.Choice? || 2 < Level(t)
  {
  }

  // The end of an expression only adds to the code.
  lemma {:induction false} EndAdds(s: Translation)
    ensures s.code <= EndOfExpression(s).code
    decreases |s.tlist|
  {
    hide UnloadOperators, AddressToRegister, OperandOrder, Order;
    UnloadAdds(TakeOperand(s, 1), 1);
    ProductionShrinks(s, 1);
    var s1 := Production(s, 1);
    if s1.stop == 0 && AtThenElse(s1.tlist) {
      EndAdds(ThenElse(s1));
    }
  }

  lemma {:induction false} UnloadAdds(s: Translation, oh: int)
    ensures s.code <= UnloadOperators(s, oh).code
    decreases |s.tlist|
  {
    hide Priority;
    if s.stop == 0 && s.tlist != [] && oh <= Priority(Top(s.tlist)) {
      var op, s1 := Top(s.tlist) % 256, Pop(s);
      if Order(op) < 0 {
      } else if 129 < op < NEG {
        if s1.tlist != [] {
          UnloadAdds(Emit(Emit(Pop(s1), Instr(0, Top(s1.tlist) + 71827456)), Instr(Order(op), 0)), oh);
        }
      } else {
        UnloadAdds(Emit(s1, Instr(Order(op), 0)), oh);
      }
    }
  }

  predicate SameEntry(g: map<int, int>, f: map<int, int>, l: int) {
    (l in g) == (l in f) && (l in f ==> g[l] == f[l])
  }

  // The goals of a conditional expression, part by part.
  lemma ChoiceGoals(c: Tree, y: Tree, n: Tree, at: int, lab: int, f: map<int, int>)
    ensures var here, other := lab + Labels(c), at + Size(c) + 2 + Size(y) + 1;
            var past, f1 := here + 1 + Labels(y), Goals(c, at, lab, f);
            var f2 := Goals(y, at + Size(c) + 2, here + 1, f1);
            && Goals(Choice(c, y, n), at, lab, f)
               == Goals(n, other, past + 1, f2[here := other])[past := other + Size(n)]
            && lab + Labels(Choice(c, y, n)) == past + 1 + Labels(n)
  {
    ChoiceLabels(c, y, n);
    hide Size, Labels;
  }

  lemma ChoiceLabels(c: Tree, y: Tree, n: Tree)
    ensures Labels(Choice(c, y, n)) == Labels(c) + 1 + Labels(y) + 1 + Labels(n)
  {
  }

  // Labels are filled once, by the expression they were made for.
  lemma {:induction false} GoalsFrame(t: Tree, at: int, lab: int, f: map<int, int>, l: int)
    requires l < lab || lab + Labels(t) <= l
    ensures SameEntry(Goals(t, at, lab, f), f, l)
    decreases t, 1
  {
    hide Size, Fused;
    match t
    case Dyadic(op, a, b) =>
      GoalsFrame(a, at, lab, f, l);
      if !Fused(op, b) { GoalsFrame(b, at + Size(a), lab + Labels(a), Goals(a, at, lab, f), l); }
    case Minus(a) => GoalsFrame(a, at, lab, f, l);
    case Plus(a) => GoalsFrame(a, at, lab, f, l);
    case Not(a) => GoalsFrame(a, at, lab, f, l);
    case Choice(c, y, n) => ChoiceFrame(c, y, n, at, lab, f, l);
    case Parens(a) => GoalsFrame(a, at, lab, f, l);
    case _ =>
  }

  lemma {:induction false} ChoiceFrame(c: Tree, y: Tree, n: Tree, at: int, lab: int, f: map<int, int>, l: int)
    requires l < lab || lab + Labels(Choice(c, y, n)) <= l
    ensures SameEntry(Goals(Choice(c, y, n), at, lab, f), f, l)
    decreases Choice(c, y, n), 0
  {
    hide Size, Goals, Labels;
    ChoiceGoals(c, y, n, at, lab, f);
    var here, other := lab + Labels(c), at + Size(c) + 2 + Size(y) + 1;
    var past, f1 := here + 1 + Labels(y), Goals(c, at, lab, f);
    var f2 := Goals(y, at + Size(c) + 2, here + 1, f1);
    GoalsFrame(c, at, lab, f, l);
    GoalsFrame(y, at + Size(c) + 2, here + 1, f1, l);
    GoalsFrame(n, other, past + 1, f2[here := other], l);
  }

  // The loaded future list p has the goals g of the labels from..upto.
  ghost predicate Resolves(p: Places, g: map<int, int>, from: int, upto: int) {
    forall l :: from <= l < upto ==> l in g && Goes(p, l, g[l])
  }

  lemma ResolvesPart(p: Places, g: map<int, int>, g1: map<int, int>, from: int, upto: int, t: Tree, at: int, lab: int)
    requires g == Goals(t, at, lab, g1) && Resolves(p, g, from, upto) && (upto <= lab || lab + Labels(t) <= from)
    ensures Resolves(p, g1, from, upto)
  {
    hide Goals, Labels, Goes;
    forall l | from <= l < upto ensures l in g1 && Goes(p, l, g1[l]) {
      assert l in g && Goes(p, l, g[l]);
      GoalsFrame(t, at, lab, g1, l);
    }
  }

  // The other labels, when label k got the goal place.
  lemma ResolvesApart(p: Places, g: map<int, int>, k: int, place: int, from: int, upto: int)
    requires Resolves(p, g[k := place], from, upto) && from <= k < upto
    ensures Resolves(p, g, from, k) && Resolves(p, g, k + 1, upto) && Goes(p, k, place)
  {
    hide Goes;
    var g1 := g[k := place];
    assert k in g1 && Goes(p, k, g1[k]);
    forall l | from <= l < k || k + 1 <= l < upto ensures l in g && Goes(p, l, g[l]) {
      assert l in g1 && Goes(p, l, g1[l]);
    }
  }

  lemma {:induction false} GoalsLink(t: Tree, at: int, lab: int, f: map<int, int>, p: Places)
    requires Resolves(p, Goals(t, at, lab, f), lab, lab + Labels(t))
    ensures Linked(t, at, lab, p)
    decreases t, 1
  {
    hide Goes, Resolves, Size, Fused;
    match t
    case Dyadic(op, a, b) => DyadicLinks(op, a, b, at, lab, f, p);
    case Minus(a) => GoalsLink(a, at, lab, f, p);
    case Plus(a) => GoalsLink(a, at, lab, f, p);
    case Not(a) => GoalsLink(a, at, lab, f, p);
    case Choice(c, y, n) => ChoiceLinks(c, y, n, at, lab, f, p);
    case Parens(a) => GoalsLink(a, at, lab, f, p);
    case _ =>
  }

  lemma ResolvesFewer(p: Places, g: map<int, int>, from: int, mid: int, upto: int)
    requires Resolves(p, g, from, upto) && from <= mid <= upto
    ensures Resolves(p, g, from, mid) && Resolves(p, g, mid, upto)
  {
    hide Goes;
  }

  // Labels, places and goals of an operation, part by part.
  lemma DyadicGoals(op: nat, a: Tree, b: Tree, at: int, lab: int, f: map<int, int>)
    ensures var t, g := Dyadic(op, a, b), Goals(a, at, lab, f);
            && Labels(t) == Labels(a) + Labels(b)
            && if Fused(op, b) then Labels(b) == 0 && Goals(t, at, lab, f) == g && Size(t) == Size(a) + 2
               else
                 && Goals(t, at, lab, f) == Goals(b, at + Size(a), lab + Labels(a), g)
                 && Size(t) == Size(a) + Size(b) + 1
  {
    if Fused(op, b) {
      assert Labels(b) == 0;
    }
  }

  lemma {:induction false} DyadicLinks(op: nat, a: Tree, b: Tree, at: int, lab: int, f: map<int, int>, p: Places)
    requires var t := Dyadic(op, a, b); Resolves(p, Goals(t, at, lab, f), lab, lab + Labels(t))
    ensures Linked(Dyadic(op, a, b), at, lab, p)
    decreases Dyadic(op, a, b), 0
  {
    hide Goes, Resolves, Goals, Size, Labels, Linked, Fused;
    var f1, lab2 := Goals(a, at, lab, f), lab + Labels(a);
    DyadicGoals(op, a, b, at, lab, f);
    if !Fused(op, b) {
      ResolvesFewer(p, Goals(b, at + Size(a), lab2, f1), lab, lab2, lab2 + Labels(b));
      GoalsLink(b, at + Size(a), lab2, f1, p);
      ResolvesPart(p, Goals(b, at + Size(a), lab2, f1), f1, lab, lab2, b, at + Size(a), lab2);
    }
    GoalsLink(a, at, lab, f, p);
    LinkedDyadic(op, a, b, at, lab, p);
  }

  lemma LinkedDyadic(op: nat, a: Tree, b: Tree, at: int, lab: int, p: Places)
    requires Linked(a, at, lab, p) && (Fused(op, b) || Linked(b, at + Size(a), lab + Labels(a), p))
    ensures Linked(Dyadic(op, a, b), at, lab, p)
  {
    hide Goes;
  }

  lemma {:induction false} ChoiceLinks(c: Tree, y: Tree, n: Tree, at: int, lab: int, f: map<int, int>, p: Places)
    requires var t := Choice(c, y, n); Resolves(p, Goals(t, at, lab, f), lab, lab + Labels(t))
    ensures Linked(Choice(c, y, n), at, lab, p)
    decreases Choice(c, y, n), 0
  {
    hide Goes, Goals, Linked, Labels, Size, Resolves;
    ChoiceGoals(c, y, n, at, lab, f);
    var here, other := lab + Labels(c), at + Size(c) + 2 + Size(y) + 1;
    var past, f1 := here + 1 + Labels(y), Goals(c, at, lab, f);
    var f2 := Goals(y, at + Size(c) + 2, here + 1, f1);
    var f3 := f2[here := other];
    var f4 := Goals(n, other, past + 1, f3);
    GoalsFrame(n, other, past + 1, f3, here);
    ResolvesApart(p, f4, past, other + Size(n), lab, past + 1 + Labels(n));
    GoalsLink(n, other, past + 1, f3, p);
    ResolvesPart(p, f4, f3, lab, past, n, other, past + 1);
    ResolvesApart(p, f2, here, other, lab, past);
    GoalsLink(y, at + Size(c) + 2, here + 1, f1, p);
    ResolvesPart(p, f2, f1, lab, here, y, at + Size(c) + 2, here + 1);
    GoalsLink(c, at, lab, f, p);
    ChoiceLinked(c, y, n, at, lab, p);
  }

  lemma ChoiceLinked(c: Tree, y: Tree, n: Tree, at: int, lab: int, p: Places)
    requires var here, other := lab + Labels(c), at + Size(c) + 2 + Size(y) + 1;
             var past := here + 1 + Labels(y);
             && Linked(c, at, lab, p) && Linked(y, at + Size(c) + 2, here + 1, p) && Linked(n, other, past + 1, p)
             && Goes(p, here, other) && Goes(p, past, other + Size(n))
    ensures Linked(Choice(c, y, n), at, lab, p)
  {
    hide Goes;
  }

  // The code the translator at s makes of e is in the store, and the future list has its goals.
  ghost predicate InStore(e: Expr, s: Translation, m: Store, p: Places) {
    var t := Parsed(e, s.oflag);
    Loaded(m, p, |s.code|, Code(t, s.flsc)) && Resolves(p, With(s, t).future, s.flsc, s.flsc + Labels(t))
  }

  /**
   From the symbols of an expression to the stack: the translator at s has read e, what it added to
   the code is loaded, and the machine runs it.
   */
  lemma Evaluated(e: Expr, s: Translation, v: nat -> Value, m: Store, p: Places, st: State) returns (n: nat)
    requires Grammatical(e) && WellTyped(e, v) && Holding(e, v, m, p)
    requires BeforeExpression(s) && InStore(e, s, m, p)
    requires st.Running? && st.ot == p.listAddress + |s.code|
    ensures var w, end := With(s, Parsed(e, s.oflag)), Steps(m, st, n);
            && EndOfExpression(Feed(s, SourceText(e))) == EndOfExpression(w)
            && (end.Running? ==> end.ot == p.listAddress + |w.code|)
            && Outcome(if end.Stopped? then None else Some(end.stack), st.stack, Unharmed(e, s.oflag, v), Meaning(e, v))
  {
    hide Feed, EndOfExpression, Code, Goals, SourceText, Parsed, Readable, Loaded, Steps, Linked, Addressed, Exec;
    hide Outcome, Plain, Priority;
    var t := Parsed(e, s.oflag);
    Translated(e, s);
    CodeSize(t, s.flsc);
    GoalsLink(t, |s.code|, s.flsc, s.future, p);
    Correct(e, s.oflag, v, m, p, st.stack);
    n := Runs(t, m, p, |s.code|, s.flsc, st);
  }

  // With no sign directly behind a binary logical operator the value is always right.
  lemma EvaluatedInPlace(e: Expr, s: Translation, v: nat -> Value, m: Store, p: Places, st: State) returns (n: nat)
    requires Grammatical(e) && WellTyped(e, v) && Holding(e, v, m, p) && SignsInPlace(e, s.oflag)
    requires BeforeExpression(s) && InStore(e, s, m, p)
    requires st.Running? && st.ot == p.listAddress + |s.code|
    ensures var w, end := With(s, Parsed(e, s.oflag)), Steps(m, st, n);
            && EndOfExpression(Feed(s, SourceText(e))) == EndOfExpression(w)
            && (end.Running? ==> end.ot == p.listAddress + |w.code|)
            && Right(if end.Stopped? then None else Some(end.stack), st.stack, Meaning(e, v))
  {
    hide Feed, EndOfExpression, SourceText, Loaded, Steps, Right, InStore, With, BeforeExpression;
    InPlaceIsUnharmed(e, s.oflag, v);
    n := Evaluated(e, s, v, m, p, st);
  }

  // A grammatical expression that comes out wrong whatever its variables hold: a and -b < c.
  lemma SignAfterAnd(a: nat, b: nat, c: nat, v: nat -> Value, m: Store, p: Places, k: Stack)
    requires Simple(a) && Simple(b) && Simple(c)
    requires v(a).Logical? && v(b).Number? && v(c).Number?
    requires Holding(Operation(77, Name(a), Operation(74, Signed(true, Name(b)), Name(c))), v, m, p)
    ensures var e := Operation(77, Name(a), Operation(74, Signed(true, Name(b)), Name(c)));
            && Grammatical(e) && WellTyped(e, v) && Meaning(e, v) != None
            && Addressed(Parsed(e, 1), p) && Short(Exec(Parsed(e, 1), m, p, k), k)
  {
    hide Exec, Short, Holding;
    var r := Operation(74, Signed(true, Name(b)), Name(c));
    var e := Operation(77, Name(a), r);
    assert Grammatical(Signed(true, Name(b))) && Grammatical(r);
    assert WellTyped(Signed(true, Name(b)), v) && WellTyped(r, v);
    assert !Unharmed(Signed(true, Name(b)), 0, v);
    assert !Unharmed(r, 0, v);
    assert Meaning(Signed(true, Name(b)), v) == Some(Number(-v(b).n));
    assert Meaning(r, v) == Some(Logical(-v(b).n < v(c).n));
    Correct(e, 1, v, m, p, k);
  }
}
