/**
 Expressions as sections 3.3 and 3.4 of the Revised Report on ALGOL 60 define them, over integers
 and Booleans: their grammar, and their values as far as these fit the machine's integers.
 */
module Expressions {
  import opened ExpressionTranslator
  import opened ExpressionCode
  import opened X1Integers

  datatype Expr =
    | Name(id: nat)
    | Signed(minus: bool, term: Expr)
    | Operation(op: nat, left: Expr, right: Expr)
    | Negation(arg: Expr)
    | Conditional(cond: Expr, yes: Expr, no: Expr)
    | Parenthesized(inner: Expr)

  datatype Value = Number(n: int) | Logical(b: bool)

  predicate Relation(op: nat) {
    70 <= op <= 75
  }

  // The precedence of the operators, sections 3.3.5.1 and 3.4.6.1, the highest being the first to be done.
  function Precedence(op: nat): (p: int)
    ensures DyadicOperator(op) ==> p == OperatorPriority(op)
  {
    match op
    case 69 => 11                          // power
    case 66 => 10 case 67 => 10 case 68 => 10 // times, both divisions
    case 64 => 9 case 65 => 9              // plus, minus
    case 70 => 8 case 71 => 8 case 72 => 8 case 73 => 8 case 74 => 8 case 75 => 8 // relations
    case 77 => 6                           // and
    case 78 => 5                           // or
    case 79 => 4                           // implies
    case 80 => 3                           // is equivalent to
    case _ => 0
  }

  // The rule of the grammar that produces e: the higher, the tighter.
  function Rank(e: Expr): (r: int) {
    match e
    case Signed(_, _) => 9
    case Operation(op, _, _) => Precedence(op)
    case Negation(_) => 7
    case Conditional(_, _, _) => 1
    case _ => 12
  }

  predicate Grammatical(e: Expr) {
    match e
    case Name(id) => Simple(id)
    case Signed(_, t) => Grammatical(t) && 10 <= Rank(t)
    case Operation(op, l, r) =>
      && DyadicOperator(op) && Grammatical(l) && Grammatical(r)
      && Precedence(op) <= Rank(l) && Precedence(op) < Rank(r) && (Relation(op) ==> 9 <= Rank(l))
    case Negation(a) => Grammatical(a) && 8 <= Rank(a)
    case Conditional(c, y, n) => Grammatical(c) && Grammatical(y) && Grammatical(n) && 1 < Rank(y)
    case Parenthesized(a) => Grammatical(a)
  }

  function SourceText(e: Expr): seq<Symbol> {
    match e
    case Name(id) => [Operand(id)]
    case Signed(minus, t) => [Delimiter(if minus then MINUS else PLUS)] + SourceText(t)
    case Operation(op, l, r) => SourceText(l) + [Delimiter(op)] + SourceText(r)
    case Negation(a) => [Delimiter(NOT)] + SourceText(a)
    case Conditional(c, y, n) =>
      [Delimiter(IF)] + SourceText(c) + [Delimiter(THEN)] + SourceText(y) + [Delimiter(ELSE)] + SourceText(n)
    case Parenthesized(a) => [Delimiter(OPEN)] + SourceText(a) + [Delimiter(CLOSE)]
  }

  predicate IsBoolean(e: Expr, v: nat -> Value) {
    match e
    case Name(id) => v(id).Logical?
    case Signed(_, _) => false
    case Operation(op, _, _) => 70 <= op
    case Negation(_) => true
    case Conditional(_, y, _) => IsBoolean(y, v)
    case Parenthesized(a) => IsBoolean(a, v)
  }

  predicate WellTyped(e: Expr, v: nat -> Value) {
    match e
    case Name(_) => true
    case Signed(_, t) => WellTyped(t, v) && !IsBoolean(t, v)
    case Operation(op, l, r) => WellTyped(l, v) && WellTyped(r, v) && IsBoolean(l, v) == IsBoolean(r, v) == (76 < op)
    case Negation(a) => WellTyped(a, v) && IsBoolean(a, v)
    case Conditional(c, y, n) =>
      WellTyped(c, v) && WellTyped(y, v) && WellTyped(n, v) && IsBoolean(c, v) && IsBoolean(y, v) == IsBoolean(n, v)
    case Parenthesized(a) => WellTyped(a, v)
  }

  function Fitting(n: int): Option<Value> {
    if Fits(n) then Some(Number(n)) else None
  }

  // Section 3.3.4.2: sign (a/b) times the largest integer not above the quotient's magnitude.
  function Divided(a: int, b: int): int
    requires b != 0
  {
    Sign(a) * Sign(b) * (Abs(a) / Abs(b))
  }

  // The binary operators; those with a real result have no value here.
  function Apply(op: nat, a: Value, b: Value): Option<Value> {
    match (a, b)
    case (Number(i), Number(j)) =>
      (match op
       case 64 => Fitting(i + j)
       case 65 => Fitting(i - j)
       case 66 => Fitting(i * j)
       case 68 => if j == 0 then None else Fitting(Divided(i, j))
       case 70 => Some(Logical(i > j))
       case 71 => Some(Logical(i >= j))
       case 72 => Some(Logical(i == j))
       case 73 => Some(Logical(i <= j))
       case 74 => Some(Logical(i < j))
       case 75 => Some(Logical(i != j))
       case _ => None)
    case (Logical(p), Logical(q)) =>
      (match op
       case 77 => Some(Logical(p && q))
       case 78 => Some(Logical(p || q))
       case 79 => Some(Logical(p ==> q))
       case 80 => Some(Logical(p == q))
       case _ => None)
    case _ => None
  }

  function Opposite(a: Option<Value>): Option<Value> {
    match a
    case Some(Number(n)) => Some(Number(-n))
    case _ => None
  }

  // The value of e; None when a result does not fit, a divisor is zero or a real number arises.
  function Meaning(e: Expr, v: nat -> Value): Option<Value> {
    match e
    case Name(id) => Some(v(id))
    case Signed(minus, t) => if minus then Opposite(Meaning(t, v)) else Meaning(t, v)
    case Operation(op, l, r) =>
      (match (Meaning(l, v), Meaning(r, v))
       case (Some(a), Some(b)) => Apply(op, a, b)
       case _ => None)
    case Negation(a) =>
      (match Meaning(a, v)
       case Some(Logical(b)) => Some(Logical(!b))
       case _ => None)
    case Conditional(c, y, n) =>
      (match Meaning(c, v)
       case Some(Logical(b)) => if b then Meaning(y, v) else Meaning(n, v)
       case _ => None)
    case Parenthesized(a) => Meaning(a, v)
  }

  lemma {:induction false} MeaningTyped(e: Expr, v: nat -> Value)
    requires WellTyped(e, v) && Meaning(e, v) != None
    ensures Meaning(e, v).value.Logical? == IsBoolean(e, v)
  {
    match e
    case Name(_) =>
    case Signed(_, t) => MeaningTyped(t, v);
    case Operation(op, l, r) =>
    case Negation(_) =>
    case Conditional(c, y, n) =>
      if Meaning(c, v).value.b { MeaningTyped(y, v); } else { MeaningTyped(n, v); }
    case Parenthesized(a) => MeaningTyped(a, v);
  }

  // How the translator takes e apart, when oflag is o at its first symbol.
  function Parsed(e: Expr, o: int): Tree {
    match e
    case Name(id) => Leaf(id)
    case Signed(minus, t) =>
      if o == 1 then (if minus then MinusFirst(Parsed(t, o)) else Plus(Parsed(t, o)))
      else Dyadic(if minus then MINUS else PLUS, Nothing, Parsed(t, o))
    case Operation(op, l, r) => Dyadic(op, Parsed(l, o), Parsed(r, if Relation(op) then 1 else 0))
    case Negation(a) => Not(Parsed(a, 1))
    case Conditional(c, y, n) => Choice(Parsed(c, 1), Parsed(y, 1), Parsed(n, 1))
    case Parenthesized(a) => Parens(Parsed(a, 1))
  }

  // A minus sign in front of a term binds to its first factor.
  function MinusFirst(t: Tree): Tree {
    match t
    case Dyadic(op, l, r) => if OperatorPriority(op) == 10 then Dyadic(op, MinusFirst(l), r) else Minus(t)
    case _ => Minus(t)
  }

  lemma {:induction false} ParsedText(e: Expr, o: int)
    ensures Text(Parsed(e, o)) == SourceText(e)
  {
    match e
    case Name(_) =>
    case Signed(minus, t) =>
      ParsedText(t, o);
      MinusFirstText(Parsed(t, o));
      if o != 1 {
        assert [] + [Delimiter(if minus then MINUS else PLUS)] == [Delimiter(if minus then MINUS else PLUS)];
      }
    case Operation(op, l, r) => ParsedText(l, o); ParsedText(r, if Relation(op) then 1 else 0);
    case Negation(a) => ParsedText(a, 1);
    case Conditional(c, y, n) => ParsedText(c, 1); ParsedText(y, 1); ParsedText(n, 1);
    case Parenthesized(a) => ParsedText(a, 1);
  }

  lemma {:induction false} MinusFirstText(t: Tree)
    ensures Text(MinusFirst(t)) == [Delimiter(MINUS)] + Text(t)
  {
    match t
    case Dyadic(op, l, r) =>
      if OperatorPriority(op) == 10 {
        MinusFirstText(l);
        var a := [Delimiter(MINUS)];
        assert (a + Text(l)) + [Delimiter(op)] + Text(r) == a + (Text(l) + [Delimiter(op)] + Text(r));
      }
    case _ =>
  }

  // A term has no sign of its own.
  predicate IsTerm(t: Tree) {
    10 <= Level(t) && !t.Minus? && t != Nothing && (t.Dyadic? && OperatorPriority(t.op) == 10 ==> IsTerm(t.left))
  }

  lemma {:induction false} MinusFirstReadable(t: Tree)
    requires IsTerm(t) && Readable(t, 1)
    ensures Readable(MinusFirst(t), 1) && Level(MinusFirst(t)) == 10 && MinusFirst(t) != Nothing
  {
    if t.Dyadic? && OperatorPriority(t.op) == 10 {
      MinusFirstReadable(t.left);
    }
  }

  // Every expression of the grammar is one the translator's reading is defined for.
  lemma {:induction false} ParsedReadable(e: Expr, o: int)
    requires Grammatical(e) && o in {0, 1}
    ensures Readable(Parsed(e, o), o) && Rank(e) <= Level(Parsed(e, o)) && Parsed(e, o) != Nothing
    ensures 10 <= Rank(e) ==> IsTerm(Parsed(e, o))
  {
    match e
    case Name(_) =>
    case Signed(minus, t) =>
      ParsedReadable(t, o);
      if o == 1 && minus {
        MinusFirstReadable(Parsed(t, o));
      }
    case Operation(op, l, r) => ParsedReadable(l, o); ParsedReadable(r, if Relation(op) then 1 else 0);
    case Negation(a) => ParsedReadable(a, 1);
    case Conditional(c, y, n) => ParsedReadable(c, 1); ParsedReadable(y, 1); ParsedReadable(n, 1);
    case Parenthesized(a) => ParsedReadable(a, 1);
  }

  // No sign that the value depends on stands where the translator takes it for a binary operator.
  predicate Unharmed(e: Expr, o: int, v: nat -> Value) {
    match e
    case Name(_) => true
    case Signed(_, t) => o == 1 && Unharmed(t, o, v)
    case Operation(op, l, r) =>
      Unharmed(l, o, v) && (Meaning(l, v) == None || Unharmed(r, if Relation(op) then 1 else 0, v))
    case Negation(a) => Unharmed(a, 1, v)
    case Conditional(c, y, n) =>
      && Unharmed(c, 1, v)
      && (match Meaning(c, v)
          case Some(Logical(b)) => if b then Unharmed(y, 1, v) else Unharmed(n, 1, v)
          case _ => true)
    case Parenthesized(a) => Unharmed(a, 1, v)
  }

  // No sign directly follows one of the four binary logical operators.
  predicate SignsInPlace(e: Expr, o: int) {
    match e
    case Name(_) => true
    case Signed(_, t) => o == 1 && SignsInPlace(t, o)
    case Operation(op, l, r) => SignsInPlace(l, o) && SignsInPlace(r, if Relation(op) then 1 else 0)
    case Negation(a) => SignsInPlace(a, 1)
    case Conditional(c, y, n) => SignsInPlace(c, 1) && SignsInPlace(y, 1) && SignsInPlace(n, 1)
    case Parenthesized(a) => SignsInPlace(a, 1)
  }

  lemma {:induction false} InPlaceIsUnharmed(e: Expr, o: int, v: nat -> Value)
    requires SignsInPlace(e, o)
    ensures Unharmed(e, o, v)
  {
    match e
    case Name(_) =>
    case Signed(_, t) => InPlaceIsUnharmed(t, o, v);
    case Operation(op, l, r) => InPlaceIsUnharmed(l, o, v); InPlaceIsUnharmed(r, if Relation(op) then 1 else 0, v);
    case Negation(a) => InPlaceIsUnharmed(a, 1, v);
    case Conditional(c, y, n) =>
      InPlaceIsUnharmed(c, 1, v); InPlaceIsUnharmed(y, 1, v); InPlaceIsUnharmed(n, 1, v);
    case Parenthesized(a) => InPlaceIsUnharmed(a, 1, v);
  }
}
