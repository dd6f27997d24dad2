/**
 What the translator makes of an expression goes into the store: its instructions into the object code,
 and the goals of its labels into the future list, in the order in which they become known.
 */
module CodeGeneration {
  import opened Bits
  import opened ObjectCode
  import opened WordStore
  import opened CompilerStore
  import opened ExpressionTranslator
  import opened ExpressionCode
  import opened ExpressionMeaning

  datatype Goal = Goal(number: int, place: int)

  // The goals of the labels of t, in the order in which they are entered.
  function GoalsInOrder(t: Tree, at: int, lab: int): seq<Goal> {
    match t
    case Dyadic(op, l, r) =>
      GoalsInOrder(l, at, lab) + if Fused(op, r) then [] else GoalsInOrder(r, at + Size(l), lab + Labels(l))
    case Minus(e) => GoalsInOrder(e, at, lab)
    case Plus(e) => GoalsInOrder(e, at, lab)
    case Not(e) => GoalsInOrder(e, at, lab)
    case Choice(c, y, n) =>
      var here, other := lab + Labels(c), at + Size(c) + 2 + Size(y) + 1;
      var past := here + 1 + Labels(y);
      GoalsInOrder(c, at, lab) + GoalsInOrder(y, at + Size(c) + 2, here + 1) + [Goal(here, other)]
      + GoalsInOrder(n, other, past + 1) + [Goal(past, other + Size(n))]
    case Parens(e) => GoalsInOrder(e, at, lab)
    case _ => []
  }

  function Filled(f: map<int, int>, goals: seq<Goal>): map<int, int> {
    if goals == [] then f else Filled(f, goals[..|goals| - 1])[goals[|goals| - 1].number := goals[|goals| - 1].place]
  }

  lemma {:induction false} FilledMore(f: map<int, int>, a: seq<Goal>, b: seq<Goal>)
    ensures Filled(f, a + b) == Filled(Filled(f, a), b)
    decreases |b|
  {
    if b == [] {
      assert a + b == a;
    } else {
      assert (a + b)[..|a + b| - 1] == a + b[..|b| - 1];
      FilledMore(f, a, b[..|b| - 1]);
    }
  }

  lemma FilledOne(f: map<int, int>, g: Goal)
    ensures Filled(f, [g]) == f[g.number := g.place]
  {
    assert [g][..0] == [] && Filled(f, []) == f;
  }

  // Entered in this order they are the goals the translator keeps.
  lemma {:induction false} OrderedGoals(t: Tree, at: int, lab: int, f: map<int, int>)
    ensures Filled(f, GoalsInOrder(t, at, lab)) == Goals(t, at, lab, f)
    decreases t, 1
  {
    hide Filled, Size, Labels, Fused;
    match t
    case Dyadic(op, l, r) =>
      OrderedGoals(l, at, lab, f);
      if Fused(op, r) {
        assert GoalsInOrder(l, at, lab) + [] == GoalsInOrder(l, at, lab);
      } else {
        FilledMore(f, GoalsInOrder(l, at, lab), GoalsInOrder(r, at + Size(l), lab + Labels(l)));
        OrderedGoals(r, at + Size(l), lab + Labels(l), Goals(l, at, lab, f));
      }
    case Minus(e) => OrderedGoals(e, at, lab, f);
    case Plus(e) => OrderedGoals(e, at, lab, f);
    case Not(e) => OrderedGoals(e, at, lab, f);
    case Choice(c, y, n) => OrderedChoice(c, y, n, at, lab, f);
    case Parens(e) => OrderedGoals(e, at, lab, f);
    case _ => NothingFilled(f);
  }

  lemma NothingFilled(f: map<int, int>)
    ensures Filled(f, []) == f
  {
  }

  lemma ChoiceInOrder(c: Tree, y: Tree, n: Tree, at: int, lab: int)
    ensures var here, other := lab + Labels(c), at + Size(c) + 2 + Size(y) + 1;
            var past := here + 1 + Labels(y);
            GoalsInOrder(Choice(c, y, n), at, lab)
            == GoalsInOrder(c, at, lab) + GoalsInOrder(y, at + Size(c) + 2, here + 1) + [Goal(here, other)]
               + GoalsInOrder(n, other, past + 1) + [Goal(past, other + Size(n))]
  {
    hide Size, Labels;
  }

  lemma FilledParts(f: map<int, int>, a: seq<Goal>, b: seq<Goal>, g: Goal, d: seq<Goal>, h: Goal)
    ensures Filled(f, a + b + [g] + d + [h])
         == Filled(Filled(Filled(f, a), b)[g.number := g.place], d)[h.number := h.place]
  {
    hide Filled;
    FilledMore(f, a, b);
    FilledMore(f, a + b, [g]);
    FilledOne(Filled(f, a + b), g);
    FilledMore(f, a + b + [g], d);
    FilledMore(f, a + b + [g] + d, [h]);
    FilledOne(Filled(f, a + b + [g] + d), h);
  }

  lemma {:induction false} OrderedChoice(c: Tree, y: Tree, n: Tree, at: int, lab: int, f: map<int, int>)
    ensures Filled(f, GoalsInOrder(Choice(c, y, n), at, lab)) == Goals(Choice(c, y, n), at, lab, f)
    decreases Choice(c, y, n), 0
  {
    hide Filled, GoalsInOrder, Goals, Size, Labels;
    ExpressionMeaning.ChoiceGoals(c, y, n, at, lab, f);
    ChoiceInOrder(c, y, n, at, lab);
    var here, other := lab + Labels(c), at + Size(c) + 2 + Size(y) + 1;
    var past, f1 := here + 1 + Labels(y), Goals(c, at, lab, f);
    var f2 := Goals(y, at + Size(c) + 2, here + 1, f1);
    OrderedGoals(c, at, lab, f);
    OrderedGoals(y, at + Size(c) + 2, here + 1, f1);
    OrderedGoals(n, other, past + 1, f2[here := other]);
    FilledParts(f, GoalsInOrder(c, at, lab), GoalsInOrder(y, at + Size(c) + 2, here + 1), Goal(here, other),
                GoalsInOrder(n, other, past + 1), Goal(past, other + Size(n)));
  }

  // Every label lies in the future list or less than sixteen places behind its end at the time, when
  // the list has size places at first.
  predicate InSteps(goals: seq<Goal>, size: int) {
    goals == [] ||
    (0 <= goals[0].number < size + 16 && InSteps(goals[1..], if goals[0].number >= size then size + 16 else size))
  }

  // The list has the entries of g, and what it had at the other places.
  ghost predicate Carries(was: seq<int>, now: seq<int>, g: map<int, int>) {
    && |was| <= |now|
    && (forall l :: l in g ==> 0 <= l < |now| && now[l] == g[l])
    && forall l :: 0 <= l < |was| && l !in g ==> now[l] == was[l]
  }

  // The goals go into the future list one after the other.
  method EnterGoals(c: Compiler, goals: seq<Goal>) returns (stop: nat)
    requires c.Valid() && InSteps(goals, |c.lists.fli|)
    modifies c`klib, c`nlib, c`lists, c.store
    ensures stop in {0, 6}
    ensures stop == 0 ==>
              && c.Valid() && c.lists == old(c.lists).(fli := c.lists.fli)
              && Carries(old(c.lists.fli), c.lists.fli, Filled(map[], goals))
  {
    hide WordBits, BitsOf, ProgramBits, Holds, Filled;
    NothingFilled(map[]);
    assert goals[..0] == [] && goals[0..] == goals;
    for i := 0 to |goals|
      invariant c.Valid() && c.lists == old(c.lists).(fli := c.lists.fli)
      invariant InSteps(goals[i..], |c.lists.fli|)
      invariant Carries(old(c.lists.fli), c.lists.fli, Filled(map[], goals[..i]))
    {
      ghost var g := goals[i];
      assert goals[i..][0] == g && goals[i..][1..] == goals[i + 1..] && goals[..i + 1] == goals[..i] + [g];
      FilledMore(map[], goals[..i], [g]);
      FilledOne(Filled(map[], goals[..i]), g);
      PlaceInStore(c, goals[i].number);
      stop := c.FillFutureList(c.flib + goals[i].number, goals[i].place);
      if stop != 0 {
        return;
      }
    }
    assert goals[..|goals|] == goals;
    stop := 0;
  }

  lemma PlaceInStore(c: Compiler, number: int)
    requires c.Valid() && 0 <= number < |c.lists.fli| + 16
    ensures c.klib - c.flib == |c.lists.fli| && c.flib + number < c.store.Length
  {
    hide WordBits, BitsOf, ProgramBits;
  }

  // The instructions go into the object code.
  method EnterCode(c: Compiler, code: seq<Instr>) returns (stop: nat)
    requires c.Valid() && AllEmittable(code)
    modifies c, c.store
    ensures stop in {0, 25} && c.lists == old(c.lists)
    ensures stop == 0 ==> c.Valid() && c.program == old(c.program) + code
  {
    hide WordBits, BitsOf, ProgramBits, Holds;
    for i := 0 to |code|
      invariant c.Valid() && c.lists == old(c.lists) && c.program == old(c.program) + code[..i]
    {
      stop := c.FillResultList(code[i].opc, code[i].w);
      if stop != 0 {
        return;
      }
      assert code[..i + 1] == code[..i] + [code[i]];
    }
    assert code[..|code|] == code;
    stop := 0;
  }

  lemma JoinedEmittable(a: seq<Instr>, b: seq<Instr>)
    requires AllEmittable(a) && AllEmittable(b)
    ensures AllEmittable(a + b)
  {
  }

  // All instructions of an expression can be coded.
  lemma {:induction false} CodeEmittable(t: Tree, o: int, lab: int)
    requires Readable(t, o) && 0 <= lab && lab + Labels(t) <= 0x8000
    ensures AllEmittable(Code(t, lab))
    decreases t, 1
  {
    hide Emittable, AllEmittable, AddressToRegister, OperandOrder;
    match t
    case Leaf(id) => OperandEmittable(63, id);
    case Dyadic(op, l, r) => DyadicEmittable(op, l, r, o, lab);
    case Minus(e) =>
      CodeEmittable(e, o, lab);
      OrderEmittable(57);
      JoinedEmittable(Code(e, lab), [Instr(57, 0)]);
    case Plus(e) => CodeEmittable(e, o, lab);
    case Not(e) =>
      CodeEmittable(e, 1, lab);
      OrderEmittable(71);
      JoinedEmittable(Code(e, lab), [Instr(71, 0)]);
    case Choice(c, y, n) => ChoiceEmittable(c, y, n, lab);
    case Parens(e) => CodeEmittable(e, 1, lab);
  }

  lemma {:induction false} DyadicEmittable(op: nat, l: Tree, r: Tree, o: int, lab: int)
    requires Readable(Dyadic(op, l, r), o) && 0 <= lab && lab + Labels(Dyadic(op, l, r)) <= 0x8000
    ensures AllEmittable(Code(Dyadic(op, l, r), lab))
    decreases Dyadic(op, l, r), 0
  {
    hide Emittable, AllEmittable, AddressToRegister, OperandOrder;
    if l == Nothing { NothingEmittable(); } else { CodeEmittable(l, o, lab); }
    if Fused(op, r) {
      OperandEmittable(op, r.id);
      JoinedEmittable(Code(l, lab), [AddressToRegister(r.id), OperandOrder(op, r.id)]);
    } else {
      CodeEmittable(r, if 70 <= op <= 75 then 1 else 0, lab + Labels(l));
      OrderEmittable(op - 5);
      JoinedEmittable(Code(r, lab + Labels(l)), [Instr(op - 5, 0)]);
      JoinedEmittable(Code(l, lab), Code(r, lab + Labels(l)) + [Instr(op - 5, 0)]);
    }
  }

  lemma {:induction false} ChoiceEmittable(c: Tree, y: Tree, n: Tree, lab: int)
    requires Readable(c, 1) && Readable(y, 1) && Readable(n, 1)
    requires 0 <= lab && lab + Labels(Choice(c, y, n)) <= 0x8000
    ensures AllEmittable(Code(Choice(c, y, n), lab))
    decreases Choice(c, y, n), 0
  {
    ChoiceLabels(c, y, n);
    hide Emittable, AllEmittable, Labels, Readable;
    var here, past := lab + Labels(c), lab + Labels(c) + 1 + Labels(y);
    CodeEmittable(c, 1, lab);
    CodeEmittable(y, 1, here + 1);
    CodeEmittable(n, 1, past + 1);
    JumpsEmittable(here, past);
    var a, b, d := Code(c, lab), [Instr(30, 0), Instr(2, here + 88178688)], Code(y, here + 1);
    var g, e := [Instr(2, past + 88080384)], Code(n, past + 1);
    assert Code(Choice(c, y, n), lab) == a + b + d + g + e;
    hide Code;
    JoinedEmittable(a, b);
    JoinedEmittable(a + b, d);
    JoinedEmittable(a + b + d, g);
    JoinedEmittable(a + b + d + g, e);
  }

  lemma NothingEmittable()
    ensures AllEmittable([]) && Code(Nothing, 0) == []
  {
  }

  lemma OrderEmittable(order: int)
    requires 8 <= order <= 112
    ensures AllEmittable([Instr(order, 0)])
  {
  }

  lemma JumpsEmittable(here: int, past: int)
    requires 0 <= here < 0x8000 && 0 <= past < 0x8000
    ensures AllEmittable([Instr(30, 0), Instr(2, here + 88178688)]) && AllEmittable([Instr(2, past + 88080384)])
  {
  }

  lemma OperandEmittable(operator: int, id: nat)
    requires 63 <= operator <= 67
    ensures AllEmittable([AddressToRegister(id), OperandOrder(operator, id)])
  {
  }

  // What was in the future list before does not matter to the goals entered.
  lemma {:induction false} FilledOver(f: map<int, int>, goals: seq<Goal>, l: int)
    requires l in Filled(map[], goals)
    ensures l in Filled(f, goals) && Filled(f, goals)[l] == Filled(map[], goals)[l]
    decreases |goals|
  {
    if goals != [] {
      var last := goals[|goals| - 1];
      if l != last.number {
        FilledOver(f, goals[..|goals| - 1], l);
      }
    }
  }

  // ----- labels far ahead of the future list -----

  // The beginning of n conditional expressions, each in parentheses behind the then of the one before.
  function Nested(n: nat, id: nat): seq<Symbol> {
    if n == 0 then [] else Nested(n - 1, id) + [Delimiter(OPEN), Delimiter(IF), Operand(id), Delimiter(THEN)]
  }

  // One more conditional expression is begun: a label more, and none has its goal.
  lemma BegunOnce(s: Translation, id: nat)
    requires Ready(s) && s.oflag == 1 && Simple(id)
    ensures var t := Feed(s, [Delimiter(OPEN), Delimiter(IF), Operand(id), Delimiter(THEN)]);
            t == AfterThen(OnOpen(s), Leaf(id)) && Ready(t) && t.oflag == 1
            && t.flsc == s.flsc + 1 && t.future == s.future
  {
    var s1, s2, leaf := OnOpen(s), OnIf(OnOpen(s)), Leaf(id);
    assert Scan(s, Delimiter(OPEN)) == s1 && Scan(s1, Delimiter(IF)) == s2;
    Shapes(s1, leaf, leaf);
    BeginningFed(s, s1, s2, id);
    ReadingToEnd(leaf, s2);
    ThenRead(s1, leaf, Feed(s2, Text(leaf)));
  }

  lemma BeginningFed(s: Translation, s1: Translation, s2: Translation, id: nat)
    requires Scan(s, Delimiter(OPEN)) == s1 && Scan(s1, Delimiter(IF)) == s2
    ensures Feed(s, [Delimiter(OPEN), Delimiter(IF), Operand(id), Delimiter(THEN)])
         == Scan(Feed(s2, Text(Leaf(id))), Delimiter(THEN))
  {
    hide Scan;
    var a, b, c := [Delimiter(OPEN)], [Delimiter(IF)], Text(Leaf(id));
    assert [Delimiter(OPEN), Delimiter(IF), Operand(id), Delimiter(THEN)] == a + (b + (c + [Delimiter(THEN)]));
    FeedFirst(s, Delimiter(OPEN), b + (c + [Delimiter(THEN)]));
    FeedFirst(s1, Delimiter(IF), c + [Delimiter(THEN)]);
    FeedConcat(s2, c, [Delimiter(THEN)]);
    FeedOne(Feed(s2, c), Delimiter(THEN));
  }

  lemma {:induction false} Begun(s: Translation, n: nat, id: nat)
    requires Ready(s) && s.oflag == 1 && Simple(id)
    ensures var t := Feed(s, Nested(n, id)); Ready(t) && t.oflag == 1 && t.flsc == s.flsc + n && t.future == s.future
    decreases n
  {
    hide AfterThen, Simple;
    if n == 0 {
      FeedNothing(s);
    } else {
      Begun(s, n - 1, id);
      FeedConcat(s, Nested(n - 1, id), [Delimiter(OPEN), Delimiter(IF), Operand(id), Delimiter(THEN)]);
      BegunOnce(Feed(s, Nested(n - 1, id)), id);
    }
  }

  /**
   The first goal that is entered when n conditional expressions are nested in this way is that of the
   last of their n labels: with 33 of them, at the start of a program, the label is 16 places behind the
   end of the future list of 16 places.
   */
  lemma LastLabelFirst(s: Translation, n: nat, id: nat) returns (place: int)
    requires Ready(s) && s.oflag == 1 && Simple(id) && 1 <= n
    ensures var t := Feed(s, Nested(n, id) + [Operand(id), Delimiter(ELSE)]);
            t.stop == 0 && t.future == s.future[s.flsc + n - 1 := place]
  {
    var begin, step := Nested(n - 1, id), [Delimiter(OPEN), Delimiter(IF), Operand(id), Delimiter(THEN)];
    var u := Feed(s, begin);
    Begun(s, n - 1, id);
    BegunOnce(u, id);
    var s0, leaf := OnOpen(u), Leaf(id);
    FeedConcat(s, begin, step);
    FeedConcat(s, Nested(n, id), [Operand(id), Delimiter(ELSE)]);
    Shapes(s0, leaf, leaf);
    place := FirstGoal(s0, id);
  }

  lemma FirstGoal(s0: Translation, id: nat) returns (place: int)
    requires Ready(s0) && Simple(id)
    ensures var t := Feed(AfterThen(s0, Leaf(id)), [Operand(id), Delimiter(ELSE)]);
            t.stop == 0 && t.future == s0.future[s0.flsc := place]
  {
    var leaf, s3 := Leaf(id), AfterThen(s0, Leaf(id));
    Shapes(s0, leaf, leaf);
    Reading(leaf, s3, 1);
    ElseRead(s0, leaf, leaf, Feed(s3, Text(leaf)));
    assert [Operand(id), Delimiter(ELSE)] == Text(leaf) + [Delimiter(ELSE)];
    FeedConcat(s3, Text(leaf), [Delimiter(ELSE)]);
    FeedOne(Feed(s3, Text(leaf)), Delimiter(ELSE));
    place := |With(s3, leaf).code| + 1;
  }

  // And entering its goal puts this goal in place of the first constant.
  method OverwriteConstant(c: Compiler, place: int) returns (stop: nat)
    requires c.Layout() && |c.lists.fli| == 16 && 0 < c.klsc && c.nlib + c.nlsc + 16 < c.plib
    modifies c`klib, c`nlib, c`lists, c.store
    ensures stop == 0 && c.klib == c.flib + 32 < c.store.Length && c.store[c.klib] == place
  {
    hide WordBits, BitsOf;
    assert c.klib == c.flib + 16;
    stop := c.FillFutureList(c.flib + 32, place);
  }
}
