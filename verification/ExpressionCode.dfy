/**
 What the translator makes of an expression: the tree it sees in the symbols, and the code of that
 tree.  The translator's bookkeeping with priorities produces exactly this code.
 */
module ExpressionCode {
  import opened ObjectCode
  import opened ExpressionTranslator

  /**
   Nothing is the left operand the translator does not notice to be absent, in front of a sign that
   follows a logical operator.
   */
  datatype Tree =
    | Nothing
    | Leaf(id: nat)
    | Dyadic(op: nat, left: Tree, right: Tree)
    | Minus(arg: Tree)
    | Plus(arg: Tree)
    | Not(arg: Tree)
    | Choice(cond: Tree, yes: Tree, no: Tree)
    | Parens(arg: Tree)

  predicate DyadicOperator(op: nat) {
    PLUS <= op <= 80 && op != NOT
  }

  function OperatorPriority(op: nat): (p: int)
    ensures DyadicOperator(op) ==> 3 <= p <= 11
  {
    if op <= MINUS then 9 else if op <= 68 then 10 else if op == 69 then 11 else if op <= 75 then 8 else 83 - op
  }

  // How tightly a tree is bound together.
  function Level(t: Tree): int {
    match t
    case Dyadic(op, _, _) => OperatorPriority(op)
    case Minus(_) => 10
    case Plus(_) => 9
    case Not(_) => 7
    case Choice(_, _, _) => 1
    case _ => 12
  }

  predicate Simple(id: nat) {
    Integral(id) && (Dynamic(id) || ListPart(id) != 2)
  }

  // The translator reads the symbols of t as this tree, when oflag is o at its first symbol.
  predicate Readable(t: Tree, o: int) {
    match t
    case Nothing => false
    case Leaf(id) => Simple(id)
    case Dyadic(op, l, r) =>
      && DyadicOperator(op)
      && (if l == Nothing then o == 0 && op in {PLUS, MINUS} else Readable(l, o))
      && Readable(r, if 70 <= op <= 75 then 1 else 0)
      && OperatorPriority(op) <= Level(l) && OperatorPriority(op) < Level(r)
    case Minus(e) => o == 1 && Readable(e, o) && 10 < Level(e)
    case Plus(e) => o == 1 && Readable(e, o) && 9 < Level(e)
    case Not(e) => Readable(e, 1) && 7 < Level(e)
    case Choice(c, y, n) => Readable(c, 1) && Readable(y, 1) && Readable(n, 1) && 1 < Level(y)
    case Parens(e) => Readable(e, 1)
  }

  function Text(t: Tree): seq<Symbol> {
    match t
    case Nothing => []
    case Leaf(id) => [Operand(id)]
    case Dyadic(op, l, r) => Text(l) + [Delimiter(op)] + Text(r)
    case Minus(e) => [Delimiter(MINUS)] + Text(e)
    case Plus(e) => [Delimiter(PLUS)] + Text(e)
    case Not(e) => [Delimiter(NOT)] + Text(e)
    case Choice(c, y, n) => [Delimiter(IF)] + Text(c) + [Delimiter(THEN)] + Text(y) + [Delimiter(ELSE)] + Text(n)
    case Parens(e) => [Delimiter(OPEN)] + Text(e) + [Delimiter(CLOSE)]
  }

  // The number of labels used.
  function Labels(t: Tree): nat {
    match t
    case Dyadic(_, l, r) => Labels(l) + Labels(r)
    case Minus(e) => Labels(e)
    case Plus(e) => Labels(e)
    case Not(e) => Labels(e)
    case Choice(c, y, n) => Labels(c) + 1 + Labels(y) + 1 + Labels(n)
    case Parens(e) => Labels(e)
    case _ => 0
  }

  // The right operand and its operator.
  predicate Fused(op: nat, r: Tree) {
    r.Leaf? && op <= 67
  }

  // The code of t when its first label has number lab.
  function Code(t: Tree, lab: int): seq<Instr> {
    match t
    case Nothing => []
    case Leaf(id) => [AddressToRegister(id), OperandOrder(63, id)]
    case Dyadic(op, l, r) =>
      Code(l, lab)
      + if Fused(op, r) then [AddressToRegister(r.id), OperandOrder(op, r.id)]
        else Code(r, lab + Labels(l)) + [Instr(op - 5, 0)]
    case Minus(e) => Code(e, lab) + [Instr(57, 0)]
    case Plus(e) => Code(e, lab)
    case Not(e) => Code(e, lab) + [Instr(71, 0)]
    case Choice(c, y, n) =>
      var here := lab + Labels(c);
      var past := here + 1 + Labels(y);
      Code(c, lab) + [Instr(30, 0), Instr(2, here + 88178688)]
      + Code(y, here + 1) + [Instr(2, past + 88080384)]
      + Code(n, past + 1)
    case Parens(e) => Code(e, lab)
  }

  function Size(t: Tree): (n: nat)
  {
    match t
    case Nothing => 0
    case Leaf(id) => 2
    case Dyadic(op, l, r) => Size(l) + if Fused(op, r) then 2 else Size(r) + 1
    case Minus(e) => Size(e) + 1
    case Plus(e) => Size(e)
    case Not(e) => Size(e) + 1
    case Choice(c, y, n) => Size(c) + 2 + Size(y) + 1 + Size(n)
    case Parens(e) => Size(e)
  }

  lemma {:induction false} CodeSize(t: Tree, lab: int)
    ensures |Code(t, lab)| == Size(t)
  {
    match t
    case Dyadic(op, l, r) => CodeSize(l, lab); CodeSize(r, lab + Labels(l));
    case Minus(e) => CodeSize(e, lab);
    case Plus(e) => CodeSize(e, lab);
    case Not(e) => CodeSize(e, lab);
    case Choice(c, y, n) =>
      CodeSize(c, lab); CodeSize(y, lab + Labels(c) + 1); CodeSize(n, lab + Labels(c) + 1 + Labels(y) + 1);
    case Parens(e) => CodeSize(e, lab);
    case _ =>
  }

  // The future list f after the code of t, which begins at place at.
  function Goals(t: Tree, at: int, lab: int, f: map<int, int>): map<int, int> {
    match t
    case Dyadic(op, l, r) =>
      var f1 := Goals(l, at, lab, f);
      if Fused(op, r) then f1 else Goals(r, at + Size(l), lab + Labels(l), f1)
    case Minus(e) => Goals(e, at, lab, f)
    case Plus(e) => Goals(e, at, lab, f)
    case Not(e) => Goals(e, at, lab, f)
    case Choice(c, y, n) =>
      var here, other := lab + Labels(c), at + Size(c) + 2 + Size(y) + 1;
      var past := here + 1 + Labels(y);
      var f1 := Goals(y, at + Size(c) + 2, here + 1, Goals(c, at, lab, f));
      Goals(n, other, past + 1, f1[here := other])[past := other + Size(n)]
    case Parens(e) => Goals(e, at, lab, f)
    case _ => f
  }

  // The translation s with the code of t added.
  function With(s: Translation, t: Tree): Translation {
    s.(code := s.code + Code(t, s.flsc),
       future := Goals(t, |s.code|, s.flsc, s.future),
       flsc := s.flsc + Labels(t),
       oflag := 0)
  }

  // The translator is about to read an expression.
  predicate Ready(s: Translation) {
    s.stop == 0 && s.operand == None && s.tlist != []
  }

  // The top of the t-list does not take an operand directly.
  predicate Plain(tlist: seq<int>)
    requires tlist != []
  {
    !(63 < Top(tlist) % 256 <= 67)
  }

  lemma NothingToUnload(s: Translation, oh: int)
    requires s.operand == None && (s.tlist == [] || Priority(Top(s.tlist)) < oh)
    ensures Production(s, oh) == s
  {
  }

  // An operator leaves the t-list when one of lower or equal priority follows.
  lemma OperatorUnloaded(s: Translation, entry: int, oh: int)
    requires s.operand == None && s.stop == 0 && oh <= Priority(entry)
    requires Order(entry % 256) >= 0 && !(129 < entry % 256 < NEG)
    ensures Production(Push(s, entry), oh) == Production(Emit(s, Instr(Order(entry % 256), 0)), oh)
  {
    var s1 := Push(s, entry);
    assert Pop(s1) == s by {
      assert (s.tlist + [entry])[..|s.tlist|] == s.tlist;
    }
  }

  lemma OperandTaken(s: Translation, id: nat, oh: int)
    requires s.operand == None && s.stop == 0 && s.tlist != [] && !Fusible(oh, s.tlist)
    ensures Production(s.(operand := Some(id)), oh)
         == Production(Emit(Emit(s, AddressToRegister(id)), OperandOrder(63, id)), oh)
  {
    hide UnloadOperators, AddressToRegister, OperandOrder;
  }

  lemma OperandFused(s: Translation, id: nat, entry: int, oh: int)
    requires s.operand == None && s.stop == 0 && oh <= Priority(entry) && 63 < entry % 256 <= 67
    ensures Production(Push(s, entry).(operand := Some(id)), oh)
         == Production(Emit(Emit(s, AddressToRegister(id)), OperandOrder(entry % 256, id)), oh)
  {
    hide UnloadOperators, AddressToRegister, OperandOrder;
    var s1 := Push(s, entry).(operand := Some(id));
    assert (s.tlist + [entry])[..|s.tlist|] == s.tlist && Top(s1.tlist) == entry;
    assert TakeOperand(s1, oh) == Emit(Emit(s, AddressToRegister(id)), OperandOrder(entry % 256, id));
  }

  // A binary operator when its left operand has become the code of w.
  lemma OperatorRead(s: Translation, w: Translation, op: nat)
    requires DyadicOperator(op) && s.stop == 0 && s.oflag == 0 && Production(s, OperatorPriority(op)) == w
    requires w.stop == 0 && w.operand == None && w.oflag == 0
    ensures Scan(s, Delimiter(op))
         == Push(w, 256 * OperatorPriority(op) + op).(oflag := if 70 <= op <= 75 then 1 else 0)
  {
    hide Production, UnloadOperators;
  }

  lemma EntryParts(p: int, op: int)
    requires 0 <= p < 16 && 0 <= op < 256
    ensures Priority(256 * p + op) == p && (256 * p + op) % 256 == op
  {
  }

  lemma WithDyadic(s: Translation, op: nat, l: Tree, r: Tree)
    requires !Fused(op, r)
    ensures With(s, Dyadic(op, l, r)) == Emit(With(With(s, l), r), Instr(op - 5, 0))
  {
    CodeSize(l, s.flsc);
    var a, b, c := Code(l, s.flsc), Code(r, s.flsc + Labels(l)), [Instr(op - 5, 0)];
    assert s.code + (a + (b + c)) == ((s.code + a) + b) + c;
  }

  lemma WithFused(s: Translation, op: nat, l: Tree, r: Tree)
    requires Fused(op, r)
    ensures With(s, Dyadic(op, l, r))
         == Emit(Emit(With(s, l), AddressToRegister(r.id)), OperandOrder(op, r.id))
  {
    hide AddressToRegister, OperandOrder;
    assert Labels(r) == 0;
    var a, i, j := Code(l, s.flsc), AddressToRegister(r.id), OperandOrder(op, r.id);
    assert s.code + (a + [i, j]) == ((s.code + a) + [i]) + [j];
  }

  lemma WithNothing(s: Translation)
    requires s.oflag == 0
    ensures With(s, Nothing) == s
  {
    assert s.code + [] == s.code;
  }

  lemma FeedOne(s: Translation, sym: Symbol)
    ensures Feed(s, [sym]) == Scan(s, sym)
  {
    assert [sym][1..] == [];
  }

  // t is read in full, whatever follows, as soon as an operator of no higher priority appears.
  ghost predicate Read(s: Translation, s1: Translation, t: Tree, oh: int) {
    Production(s1, oh) == Production(With(s, t), oh) && s1.stop == 0 && s1.oflag == 0 && s1.mflag == s.mflag
  }

  // The same at the end of the expression.
  ghost predicate ReadToEnd(s: Translation, s1: Translation, t: Tree) {
    EndOfExpression(s1) == EndOfExpression(With(s, t)) && s1.stop == 0 && s1.oflag == 0 && s1.mflag == s.mflag
  }

  lemma FeedThree(s: Translation, a: seq<Symbol>, sym: Symbol, b: seq<Symbol>)
    ensures Feed(s, a + [sym] + b) == Feed(Scan(Feed(s, a), sym), b)
  {
    FeedConcat(s, a + [sym], b);
    FeedConcat(s, a, [sym]);
    FeedOne(Feed(s, a), sym);
  }

  lemma FeedFirst(s: Translation, sym: Symbol, b: seq<Symbol>)
    ensures Feed(s, [sym] + b) == Feed(Scan(s, sym), b)
  {
    FeedConcat(s, [sym], b);
    FeedOne(s, sym);
  }

  // Operators of lower priority than the expression to be read may wait on the t-list.
  predicate Awaits(s: Translation, t: Tree) {
    && s.stop == 0 && s.operand == None && s.tlist != [] && Readable(t, s.oflag)
    && (t.Choice? || Priority(Top(s.tlist)) < Level(t))
  }

  lemma {:induction false} Reading(t: Tree, s: Translation, oh: int)
    requires Awaits(s, t) && 1 <= oh <= Level(t) && !t.Choice?
    requires Plain(s.tlist) || 9 <= Priority(Top(s.tlist))
    requires t.Leaf? ==> !Fusible(oh, s.tlist)
    ensures Read(s, Feed(s, Text(t)), t, oh)
    decreases t, 1
  {
    hide Production, UnloadOperators, TakeOperand, Goals, Code, EndOfExpression, AddressToRegister, OperandOrder;
    hide Feed, Scan, Read, With;
    match t
    case Leaf(id) => ReadingLeaf(s, id, oh);
    case Dyadic(op, l, r) =>
      if l == Nothing {
        WithNothing(s);
        NothingToUnload(s, 9);
        EmptyText(s, op, r);
        ReadingRight(s, s, op, l, r, oh);
      } else {
        Reading(l, s, OperatorPriority(op));
        LeftRead(s, Feed(s, Text(l)), l, OperatorPriority(op));
        FeedThree(s, Text(l), Delimiter(op), Text(r));
        ReadingRight(s, Feed(s, Text(l)), op, l, r, oh);
      }
    case Minus(e) => ReadingMinus(s, e, oh);
    case Plus(e) => ReadingPlus(s, e, oh);
    case Not(e) => ReadingNot(s, e, oh);
    case Parens(e) => ReadingParens(s, e, oh);
  }

  lemma EmptyText(s: Translation, op: nat, r: Tree)
    ensures Feed(s, Text(Dyadic(op, Nothing, r))) == Feed(Scan(s, Delimiter(op)), Text(r))
  {
    hide Scan;
    assert Text(Dyadic(op, Nothing, r)) == [Delimiter(op)] + Text(r);
    FeedFirst(s, Delimiter(op), Text(r));
  }

  lemma LeftRead(s: Translation, s1: Translation, l: Tree, p: int)
    requires Read(s, s1, l, p) && s.operand == None && (s.tlist == [] || Priority(Top(s.tlist)) < p)
    ensures Production(s1, p) == With(s, l) && s1.stop == 0 && s1.oflag == 0 && s1.mflag == s.mflag
  {
    NothingToUnload(With(s, l), p);
  }

  lemma ReadingLeaf(s: Translation, id: nat, oh: int)
    requires Ready(s) && !Fusible(oh, s.tlist)
    ensures Read(s, Feed(s, Text(Leaf(id))), Leaf(id), oh)
  {
    hide UnloadOperators, AddressToRegister, OperandOrder, TakeOperand, Production, With, Feed;
    FeedOperand(s, id);
    WithLeaf(s, id);
    OperandTaken(s.(oflag := 0), id, oh);
  }

  lemma WithLeaf(s: Translation, id: nat)
    ensures With(s, Leaf(id)) == Emit(Emit(s.(oflag := 0), AddressToRegister(id)), OperandOrder(63, id))
  {
    hide AddressToRegister, OperandOrder;
    var i, j := AddressToRegister(id), OperandOrder(63, id);
    assert s.code + [i, j] == (s.code + [i]) + [j];
  }

  // The right operand, when the left one is about to become code.
  lemma {:induction false} ReadingRight(s: Translation, s1: Translation, op: nat, l: Tree, r: Tree, oh: int)
    requires var t := Dyadic(op, l, r); Awaits(s, t) && 1 <= oh <= OperatorPriority(op)
    requires s1.stop == 0 && s1.oflag == 0 && s1.mflag == s.mflag
    requires Production(s1, OperatorPriority(op)) == With(s, l)
    ensures Read(s, Feed(Scan(s1, Delimiter(op)), Text(r)), Dyadic(op, l, r), oh)
    decreases r, 2
  {
    hide Production, UnloadOperators, TakeOperand, EndOfExpression, AddressToRegister, OperandOrder, Feed, Scan, With;
    hide Text, Priority, Order;
    var p, w := OperatorPriority(op), With(s, l);
    WithKeeps(s, l);
    var s2 := Push(w, 256 * p + op).(oflag := if 70 <= op <= 75 then 1 else 0);
    OperatorRead(s1, w, op);
    EntryParts(p, op);
    if Fused(op, r) {
      WithFused(s, op, l, r);
      OperandFused(w, r.id, 256 * p + op, oh);
      FeedOperand(s2, r.id);
    } else {
      Reading(r, s2, oh);
      WithDyadic(s, op, l, r);
      WithPushed(w, 256 * p + op, s2.oflag, r);
      WithKeeps(w, r);
      OrderOfOperator(op);
      OperatorUnloaded(With(w, r), 256 * p + op, oh);
    }
  }

  lemma OrderOfOperator(op: nat)
    requires DyadicOperator(op)
    ensures Order(op) == op - 5
  {
  }

  lemma WithKeeps(s: Translation, t: Tree)
    ensures var w := With(s, t);
            w.tlist == s.tlist && w.operand == s.operand && w.stop == s.stop && w.oflag == 0 && w.mflag == s.mflag
  {
  }

  lemma WithPushed(s: Translation, entry: int, o: int, t: Tree)
    ensures With(Push(s, entry).(oflag := o), t) == Push(With(s, t), entry)
  {
    hide Code, Goals, Labels;
  }

  lemma FeedOperand(s: Translation, id: nat)
    requires s.stop == 0
    ensures Feed(s, Text(Leaf(id))) == s.(operand := Some(id), oflag := 0)
  {
    FeedOne(s, Operand(id));
  }

  // An operator in front of its operand e, which it entered in the t-list.
  lemma PrefixRead(s: Translation, entry: int, e: Tree, s1: Translation, oh: int, t: Tree, order: int)
    requires Ready(s) && oh <= Priority(entry) && Order(entry % 256) == order >= 0 && !(129 < entry % 256 < NEG)
    requires Read(Push(s, entry).(oflag := 1), s1, e, oh)
    requires Code(t, s.flsc) == Code(e, s.flsc) + [Instr(order, 0)] && Labels(t) == Labels(e)
    requires Goals(t, |s.code|, s.flsc, s.future) == Goals(e, |s.code|, s.flsc, s.future)
    ensures Read(s, s1, t, oh)
  {
    hide Production, Goals, Code, Order, Priority;
    OperatorUnloaded(With(s, e), entry, oh);
    var c := Code(e, s.flsc);
    assert s.code + (c + [Instr(order, 0)]) == (s.code + c) + [Instr(order, 0)];
    assert With(s, t) == Emit(With(s, e), Instr(order, 0));
    assert With(Push(s, entry).(oflag := 1), e) == Push(With(s, e), entry);
  }

  lemma {:induction false} ReadingMinus(s: Translation, e: Tree, oh: int)
    requires Awaits(s, Minus(e)) && 1 <= oh <= 10
    ensures Read(s, Feed(s, Text(Minus(e))), Minus(e), oh)
    decreases e, 2
  {
    hide Production, EndOfExpression, Feed, Read, Goals, Code;
    var s1 := Push(s, 256 * 10 + NEG).(oflag := 1);
    EntryParts(10, NEG);
    FeedFirst(s, Delimiter(MINUS), Text(e));
    Reading(e, s1, oh);
    PrefixCode(e, s);
    PrefixRead(s, 256 * 10 + NEG, e, Feed(s1, Text(e)), oh, Minus(e), 57);
  }

  lemma {:induction false} ReadingNot(s: Translation, e: Tree, oh: int)
    requires Awaits(s, Not(e)) && 1 <= oh <= 7
    ensures Read(s, Feed(s, Text(Not(e))), Not(e), oh)
    decreases e, 2
  {
    hide Production, EndOfExpression, Feed, Read, Goals, Code;
    var s1 := Push(s, 256 * 7 + NOT).(oflag := 1);
    EntryParts(7, NOT);
    FeedFirst(s, Delimiter(NOT), Text(e));
    Reading(e, s1, oh);
    PrefixCode(e, s);
    PrefixRead(s, 256 * 7 + NOT, e, Feed(s1, Text(e)), oh, Not(e), 71);
  }

  lemma PrefixCode(e: Tree, s: Translation)
    ensures Code(Minus(e), s.flsc) == Code(e, s.flsc) + [Instr(57, 0)]
    ensures Code(Not(e), s.flsc) == Code(e, s.flsc) + [Instr(71, 0)]
    ensures Goals(Minus(e), |s.code|, s.flsc, s.future) == Goals(e, |s.code|, s.flsc, s.future)
    ensures Goals(Not(e), |s.code|, s.flsc, s.future) == Goals(e, |s.code|, s.flsc, s.future)
  {
  }

  lemma {:induction false} ReadingPlus(s: Translation, e: Tree, oh: int)
    requires Awaits(s, Plus(e)) && 1 <= oh <= 9
    requires Plain(s.tlist) || 9 <= Priority(Top(s.tlist))
    ensures Read(s, Feed(s, Text(Plus(e))), Plus(e), oh)
    decreases e, 2
  {
    hide Production, EndOfExpression, Feed, Goals, Code;
    FeedFirst(s, Delimiter(PLUS), Text(e));
    Reading(e, s, oh);
    WithSame(s, e);
  }

  lemma WithSame(s: Translation, e: Tree)
    ensures With(s, Plus(e)) == With(s, e) && With(s, Parens(e)) == With(s, e)
  {
  }

  lemma {:induction false} ReadingParens(s: Translation, e: Tree, oh: int)
    requires Awaits(s, Parens(e))
    ensures Read(s, Feed(s, Text(Parens(e))), Parens(e), oh)
    decreases e, 4
  {
    hide Production, EndOfExpression, Feed, Goals, Code;
    var s1 := OnOpen(s);
    EntryParts(0, OPEN);
    LevelPositive(e, 1);
    ParensText(s, e);
    hide With, Text, Scan;
    ReadingToEnd(e, s1);
    WithKeeps(s1, e);
    Closed(s, s1, With(s1, e), Feed(s1, Text(e)));
    WithOpened(s, e);
  }

  lemma WithOpened(s: Translation, e: Tree)
    ensures With(s, Parens(e)) == With(OnOpen(s), e).(tlist := s.tlist, mflag := s.mflag)
  {
    WithSame(s, e);
  }

  lemma ParensText(s: Translation, e: Tree)
    requires Ready(s)
    ensures Feed(s, Text(Parens(e))) == Scan(Feed(OnOpen(s), Text(e)), Delimiter(CLOSE))
  {
    hide OnClose;
    var s1 := OnOpen(s);
    assert Scan(s, Delimiter(OPEN)) == s1;
    hide Scan;
    FeedThree(s1, Text(e), Delimiter(CLOSE), []);
    assert Text(e) + [Delimiter(CLOSE)] + [] == Text(e) + [Delimiter(CLOSE)];
    assert Text(Parens(e)) == [Delimiter(OPEN)] + (Text(e) + [Delimiter(CLOSE)]);
    FeedFirst(s, Delimiter(OPEN), Text(e) + [Delimiter(CLOSE)]);
    FeedNothing(Scan(Feed(s1, Text(e)), Delimiter(CLOSE)));
  }

  lemma FeedNothing(s: Translation)
    ensures Feed(s, []) == s
  {
  }

  // The closing parenthesis finds its opening one.
  lemma Closed(s: Translation, s1: Translation, w: Translation, s2: Translation)
    requires s1 == OnOpen(s) && w.tlist == s1.tlist && w.operand == None && w.stop == 0
    requires EndOfExpression(s2) == EndOfExpression(w) && s2.stop == 0 && s2.mflag == 0
    ensures Scan(s2, Delimiter(CLOSE)) == w.(tlist := s.tlist, mflag := s.mflag)
  {
    hide Production, EndOfExpression;
    EntryParts(0, OPEN);
    EndHere(w);
    assert Pop(w).tlist == s.tlist + [s.mflag];
    assert Pop(Pop(w)).tlist == s.tlist;
  }

  // Nothing ends where the top of the t-list waits for more.
  lemma EndHere(w: Translation)
    requires w.operand == None && w.tlist != [] && Priority(Top(w.tlist)) == 0 && Top(w.tlist) % 255 !in {THEN, ELSE}
    ensures EndOfExpression(w) == w
  {
    NothingToUnload(w, 1);
  }

  lemma {:induction false} ReadingToEnd(t: Tree, s: Translation)
    requires Awaits(s, t) && Plain(s.tlist)
    ensures ReadToEnd(s, Feed(s, Text(t)), t)
    decreases t, 3
  {
    hide Production, Feed, Goals, Code;
    if t.Choice? {
      ReadingChoice(t, s);
    } else {
      Reading(t, s, 1);
    }
  }

  // After the then of a conditional expression: the condition is code, and a jump past what follows.
  function AfterThen(s: Translation, c: Tree): Translation {
    var w, lab := With(s, c), s.flsc + Labels(c);
    w.(tlist := s.tlist + [s.eflag, lab, THEN],
       code := w.code + [Instr(30, 0), Instr(2, lab + 88178688)],
       flsc := lab + 1, oflag := 1)
  }

  // After its else: the first jump has found its goal.
  function AfterElse(s: Translation, c: Tree, y: Tree): Translation {
    var w, lab, past := With(AfterThen(s, c), y), s.flsc + Labels(c), s.flsc + Labels(c) + 1 + Labels(y);
    w.(tlist := s.tlist + [s.eflag, past, ELSE],
       code := w.code + [Instr(2, past + 88080384)],
       future := w.future[lab := |w.code| + 1],
       flsc := past + 1, oflag := 1)
  }

  lemma ThenRead(s: Translation, c: Tree, s2: Translation)
    requires Ready(s) && ReadToEnd(OnIf(s), s2, c)
    ensures Scan(s2, Delimiter(THEN)) == AfterThen(s, c)
  {
    hide Production, EndOfExpression, Goals, Code;
    EntryParts(0, IF);
    var w := With(OnIf(s), c);
    EndHere(w);
    assert Pop(w).tlist == s.tlist + [s.eflag];
    var test, jump := [Instr(30, 0)], [Instr(2, w.flsc + 88178688)];
    assert (w.code + test) + jump == w.code + [Instr(30, 0), Instr(2, w.flsc + 88178688)];
    assert ((s.tlist + [s.eflag]) + [w.flsc]) + [THEN] == s.tlist + [s.eflag, w.flsc, THEN];
  }

  lemma ElseRead(s: Translation, c: Tree, y: Tree, s4: Translation)
    requires Ready(s) && Read(AfterThen(s, c), s4, y, 1)
    ensures Scan(s4, Delimiter(ELSE)) == AfterElse(s, c, y)
  {
    hide Production, EndOfExpression, Goals, Code, Labels;
    EntryParts(0, THEN);
    var w := With(AfterThen(s, c), y);
    NothingToUnload(w, 1);
    assert CloseElse(s4) == w;
    var e := ThenElse(Emit(w, Instr(2, w.flsc + 88080384)));
    assert w.tlist[..|w.tlist| - 2] == s.tlist + [s.eflag];
    assert ((s.tlist + [s.eflag]) + [w.flsc]) + [ELSE] == s.tlist + [s.eflag, w.flsc, ELSE];
    assert e.eflag == s.eflag;
  }

  // The end of the conditional expression: the second jump finds its goal.
  lemma ChoiceEnds(s: Translation, c: Tree, y: Tree, n: Tree)
    requires Ready(s)
    ensures EndOfExpression(With(AfterElse(s, c, y), n)) == EndOfExpression(With(s, Choice(c, y, n)))
  {
    hide Production, Goals, Code;
    EntryParts(0, ELSE);
    var w := With(AfterElse(s, c, y), n);
    NothingToUnload(w, 1);
    assert w.tlist[..|w.tlist| - 3] == s.tlist;
    WithChoice(s, c, y, n);
  }

  lemma WithChoice(s: Translation, c: Tree, y: Tree, n: Tree)
    ensures var w := With(AfterElse(s, c, y), n);
            With(s, Choice(c, y, n))
            == w.(tlist := s.tlist, eflag := s.eflag,
                  future := w.future[s.flsc + Labels(c) + 1 + Labels(y) := |w.code|])
  {
    var lab, past := s.flsc + Labels(c), s.flsc + Labels(c) + 1 + Labels(y);
    CodeSize(c, s.flsc);
    CodeSize(y, lab + 1);
    CodeSize(n, past + 1);
    ChoiceCode(s, c, y, n);
    ChoiceGoals(s, c, y, n);
  }

  lemma ChoiceCode(s: Translation, c: Tree, y: Tree, n: Tree)
    ensures s.code + Code(Choice(c, y, n), s.flsc) == With(AfterElse(s, c, y), n).code
  {
    hide Goals, Labels;
    var lab, past := s.flsc + Labels(c), s.flsc + Labels(c) + 1 + Labels(y);
    SevenPieces(s.code, Code(c, s.flsc), [Instr(30, 0), Instr(2, lab + 88178688)], Code(y, lab + 1),
                [Instr(2, past + 88080384)], Code(n, past + 1));
  }

  lemma SevenPieces(s: seq<Instr>, a: seq<Instr>, b: seq<Instr>, c: seq<Instr>, d: seq<Instr>, e: seq<Instr>)
    ensures s + (a + b + c + d + e) == ((((s + a) + b) + c) + d) + e
  {
  }

  lemma ChoiceGoals(s: Translation, c: Tree, y: Tree, n: Tree)
    ensures var w := With(AfterElse(s, c, y), n);
            Goals(Choice(c, y, n), |s.code|, s.flsc, s.future)
            == w.future[s.flsc + Labels(c) + 1 + Labels(y) := |w.code|]
  {
    var lab, past := s.flsc + Labels(c), s.flsc + Labels(c) + 1 + Labels(y);
    CodeSize(c, s.flsc);
    CodeSize(y, lab + 1);
    CodeSize(n, past + 1);
    hide Code, Size, Labels;
    var f1 := Goals(y, |s.code| + Size(c) + 2, lab + 1, Goals(c, |s.code|, s.flsc, s.future));
    assert With(AfterThen(s, c), y).future == f1;
    assert |With(AfterThen(s, c), y).code| == |s.code| + Size(c) + 2 + Size(y);
  }

  lemma {:induction false} ReadingChoice(t: Tree, s: Translation)
    requires Awaits(s, t) && Plain(s.tlist) && t.Choice?
    ensures ReadToEnd(s, Feed(s, Text(t)), t)
    decreases t, 2
  {
    hide Production, Feed, Goals, Code, With, EndOfExpression, OnIf, AfterThen, AfterElse, Plain, Priority, Text;
    var Choice(c, y, n) := t;
    var s1, s3, s5 := OnIf(s), AfterThen(s, c), AfterElse(s, c, y);
    ChoiceText(s, c, y, n);
    Shapes(s, c, y);
    LevelPositive(c, 1);
    LevelPositive(n, 1);
    ReadingToEnd(c, s1);
    ThenRead(s, c, Feed(s1, Text(c)));
    Reading(y, s3, 1);
    ElseRead(s, c, y, Feed(s3, Text(y)));
    ReadingToEnd(n, s5);
    ChoiceEnds(s, c, y, n);
  }

  lemma LevelPositive(t: Tree, o: int)
    requires Readable(t, o)
    ensures 0 < Level(t)
  {
  }

  lemma Shapes(s: Translation, c: Tree, y: Tree)
    requires Ready(s)
    ensures var s1 := OnIf(s); Ready(s1) && s1.oflag == 1 && Plain(s1.tlist) && Priority(Top(s1.tlist)) == 0
    ensures var s3, s5 := AfterThen(s, c), AfterElse(s, c, y);
            && Ready(s3) && Ready(s5) && s3.oflag == 1 == s5.oflag && Plain(s3.tlist) && Plain(s5.tlist)
            && Priority(Top(s3.tlist)) == 0 == Priority(Top(s5.tlist)) && s3.mflag == s.mflag == s5.mflag
  {
    hide Code, Goals;
    EntryParts(0, IF);
    EntryParts(0, THEN);
    EntryParts(0, ELSE);
  }

  lemma ChoiceText(s: Translation, c: Tree, y: Tree, n: Tree)
    requires s.stop == 0
    ensures var condition := Feed(OnIf(s).(operand := None), Text(c));
            Feed(s, Text(Choice(c, y, n)))
            == Feed(Scan(Feed(Scan(condition, Delimiter(THEN)), Text(y)), Delimiter(ELSE)), Text(n))
  {
    hide OnIf, OnThen, OnElse;
    var a, b := Text(c) + [Delimiter(THEN)] + Text(y), [Delimiter(IF)];
    assert Text(Choice(c, y, n)) == b + (a + [Delimiter(ELSE)] + Text(n));
    FeedFirst(s, Delimiter(IF), a + [Delimiter(ELSE)] + Text(n));
    var s1 := Scan(s, Delimiter(IF));
    FeedThree(s1, a, Delimiter(ELSE), Text(n));
    FeedThree(s1, Text(c), Delimiter(THEN), Text(y));
  }
}
