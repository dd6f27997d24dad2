/**
 From the translator through the object code and the loader to the machine: an expression whose
 code is part of a program is evaluated where the loader has put the program.
 */
module CompileLoadRun {
  import opened ObjectCode
  import opened CompilerStore
  import opened ProgramLoader
  import opened ExpressionTranslator
  import opened ExpressionCode
  import opened Expressions
  import opened ExpressionRun
  import opened ExpressionMeaning
  import opened StackMachine
  import opened CodeGeneration
  import opened ConstantSearch

  // The machine's view of the store after loading, with the given variables in the stack.
  function Machine(words: seq<int>, local: int -> int): Store {
    Store(a => if 0 <= a < |words| then words[a] else 0, local)
  }

  // The goals of labels from..upto lie within first..last.
  ghost predicate Within(g: map<int, int>, from: int, upto: int, first: int, last: int) {
    forall l :: from <= l < upto ==> l in g && first <= g[l] <= last
  }

  // All labels of an expression get goals, and these lie within its code or right behind it.
  lemma {:induction false} GoalsWithin(t: Tree, at: int, lab: int, f: map<int, int>)
    ensures Within(Goals(t, at, lab, f), lab, lab + Labels(t), at, at + Size(t))
    decreases t, 1
  {
    hide Goals, Labels, Size;
    match t
    case Dyadic(op, a, b) => DyadicWithin(op, a, b, at, lab, f);
    case Minus(a) => SameGoals(t, a, at, lab, f); GoalsWithin(a, at, lab, f);
    case Plus(a) => SameGoals(t, a, at, lab, f); GoalsWithin(a, at, lab, f);
    case Not(a) => SameGoals(t, a, at, lab, f); GoalsWithin(a, at, lab, f);
    case Choice(c, y, n) => ChoiceWithin(c, y, n, at, lab, f);
    case Parens(a) => SameGoals(t, a, at, lab, f); GoalsWithin(a, at, lab, f);
    case _ => NoLabels(t);
  }

  lemma NoLabels(t: Tree)
    requires t.Leaf? || t == Nothing
    ensures Labels(t) == 0
  {
  }

  // An operator with one operand has the labels and the goals of this operand.
  lemma SameGoals(t: Tree, a: Tree, at: int, lab: int, f: map<int, int>)
    requires t in {Minus(a), Plus(a), Not(a), Parens(a)}
    ensures Goals(t, at, lab, f) == Goals(a, at, lab, f) && Labels(t) == Labels(a) && Size(a) <= Size(t)
  {
  }

  // Labels keep their goals while t gets its own.
  lemma WithinKept(t: Tree, at: int, lab: int, g: map<int, int>, from: int, upto: int, first: int, last: int)
    requires Within(g, from, upto, first, last) && (upto <= lab || lab + Labels(t) <= from)
    ensures Within(Goals(t, at, lab, g), from, upto, first, last)
  {
    hide Goals, Labels;
    forall l | from <= l < upto
      ensures l in Goals(t, at, lab, g) && first <= Goals(t, at, lab, g)[l] <= last
    {
      assert l in g && first <= g[l] <= last;
      GoalsFrame(t, at, lab, g, l);
    }
  }

  lemma {:induction false} DyadicWithin(op: nat, a: Tree, b: Tree, at: int, lab: int, f: map<int, int>)
    ensures var t := Dyadic(op, a, b); Within(Goals(t, at, lab, f), lab, lab + Labels(t), at, at + Size(t))
    decreases Dyadic(op, a, b), 0
  {
    var g, lab2 := Goals(a, at, lab, f), lab + Labels(a);
    DyadicGoals(op, a, b, at, lab, f);
    hide Goals, Labels, Size, Fused;
    GoalsWithin(a, at, lab, f);
    if !Fused(op, b) {
      GoalsWithin(b, at + Size(a), lab2, g);
      WithinKept(b, at + Size(a), lab2, g, lab, lab2, at, at + Size(a));
    }
  }

  lemma {:induction false} ChoiceWithin(c: Tree, y: Tree, n: Tree, at: int, lab: int, f: map<int, int>)
    ensures var t := Choice(c, y, n); Within(Goals(t, at, lab, f), lab, lab + Labels(t), at, at + Size(t))
    decreases Choice(c, y, n), 0
  {
    ExpressionMeaning.ChoiceGoals(c, y, n, at, lab, f);
    ChoiceSize(c, y, n);
    hide Goals, Labels, Size;
    var here, at2 := lab + Labels(c), at + Size(c) + 2;
    var other, past := at2 + Size(y) + 1, here + 1 + Labels(y);
    var f1 := Goals(c, at, lab, f);
    var f2 := Goals(y, at2, here + 1, f1);
    var f3 := f2[here := other];
    GoalsWithin(c, at, lab, f);
    WithinKept(y, at2, here + 1, f1, lab, here, at, at + Size(c));
    GoalsWithin(y, at2, here + 1, f1);
    assert Within(f3, lab, past, at, other + Size(n));
    WithinKept(n, other, past + 1, f3, lab, past, at, other + Size(n));
    GoalsWithin(n, other, past + 1, f3);
  }

  lemma ChoiceSize(c: Tree, y: Tree, n: Tree)
    ensures Size(Choice(c, y, n)) == Size(c) + 2 + Size(y) + 1 + Size(n)
  {
  }

  // The code and the goals the translator at s makes of e are part of the program q and of the
  // future list fli.
  ghost predicate PartOf(e: Expr, s: Translation, q: seq<Instr>, fli: seq<int>) {
    var w := With(s, Parsed(e, s.oflag));
    && w.code <= q && 0 <= s.flsc && (s.flsc < w.flsc ==> w.flsc <= |fli|)
    && forall l :: s.flsc <= l < w.flsc && l in w.future ==> fli[l] == w.future[l]
  }

  // Entering the goals in order makes the expression part of the program.
  lemma PartStored(e: Expr, s: Translation, was: seq<int>, fli: seq<int>)
    requires 0 <= s.flsc
    requires Carries(was, fli, Filled(map[], GoalsInOrder(Parsed(e, s.oflag), |s.code|, s.flsc)))
    ensures PartOf(e, s, With(s, Parsed(e, s.oflag)).code, fli)
  {
    hide Parsed, Code, Goals, Labels, Size, Filled, GoalsInOrder;
    var t := Parsed(e, s.oflag);
    var goals := GoalsInOrder(t, |s.code|, s.flsc);
    OrderedGoals(t, |s.code|, s.flsc, map[]);
    OrderedGoals(t, |s.code|, s.flsc, s.future);
    GoalsWithin(t, |s.code|, s.flsc, map[]);
    forall l | s.flsc <= l < s.flsc + Labels(t)
      ensures 0 <= l < |fli| && l in Filled(s.future, goals) && fli[l] == Filled(s.future, goals)[l]
    {
      assert l in Filled(map[], goals);
      FilledOver(s.future, goals, l);
    }
    if 0 < Labels(t) {
      assert s.flsc + Labels(t) - 1 in Filled(map[], goals);
    }
  }

  lemma Started(s: Translation)
    requires BeforeExpression(s)
    ensures s.stop == 0 && s.oflag in {0, 1}
  {
  }

  // The translator reads an expression; the code it adds for it.
  method ReadExpression(t: Translator, e: Expr) returns (code: seq<Instr>)
    requires Grammatical(e) && BeforeExpression(t.State())
    modifies t
    ensures var w := With(old(t.State()), Parsed(e, old(t.oflag)));
            && t.State() == EndOfExpression(w) && w.code <= t.code && w.code == old(t.code) + code
            && code == Code(Parsed(e, old(t.oflag)), old(t.flsc))
  {
    hide Feed, EndOfExpression, SourceText, Parsed, Code, Goals, Labels, Size;
    var tree, n := Parsed(e, t.oflag), |t.code|;
    ghost var w := With(t.State(), tree);
    Translated(e, t.State());
    CodeSize(tree, t.flsc);
    t.MainScan(SourceText(e));
    t.CloseExpression();
    assert t.code[..|w.code|] == w.code;
    code := t.code[n..n + Size(tree)];
  }

  /**
   The translator reads an expression, and its code and goals go into its store, which had the code up
   to there.  Unless the object code or the future list runs out of room, the expression is part of the
   stored program afterwards, if every label lies less than sixteen places behind the end of the future
   list when its goal is entered.
   */
  method StoreExpression(t: Translator, c: Compiler, e: Expr) returns (stop: nat)
    requires Grammatical(e) && BeforeExpression(t.State())
    requires c.Valid() && c.program == t.code && 0 <= t.flsc && t.flsc + Labels(Parsed(e, t.oflag)) <= 0x8000
    requires InSteps(GoalsInOrder(Parsed(e, t.oflag), |t.code|, t.flsc), |c.lists.fli|)
    modifies t, c, c.store
    ensures stop in {0, 6, 25}
    ensures stop == 0 ==>
              && t.State() == EndOfExpression(With(old(t.State()), Parsed(e, old(t.oflag)))) && c.program <= t.code
              && c.Valid() && c.lists == old(c.lists).(fli := c.lists.fli)
              && PartOf(e, old(t.State()), c.program, c.lists.fli)
  {
    hide Feed, EndOfExpression, SourceText, Parsed, Code, Goals, Labels, Size, GoalsInOrder, Filled, InSteps, PartOf;
    hide AllEmittable, BeforeExpression;
    ghost var s := t.State();
    var tree, n, lab := Parsed(e, t.oflag), |t.code|, t.flsc;
    Started(s);
    ParsedReadable(e, s.oflag);
    CodeEmittable(tree, s.oflag, lab);
    var code := ReadExpression(t, e);
    stop := EnterCode(c, code);
    if stop != 0 {
      return;
    }
    stop := EnterGoals(c, GoalsInOrder(tree, n, lab));
    if stop == 0 {
      PartStored(e, s, old(c.lists.fli), c.lists.fli);
    }
  }

  // A loaded program has the code of its expressions, with their jumps, in store.
  lemma PartLoaded(e: Expr, s: Translation, q: seq<Instr>, fli: seq<int>, rlib: int, m: Store)
    requires PartOf(e, s, q, fli) && |fli| < 0x8000 && 0 <= rlib && rlib + |q| < 0x8000
    requires var p := FinalPlaces(rlib, fli, |q|);
             AllRelocatable(q, p) && forall i :: 0 <= i < |q| ==> m.memory(rlib + i) == Image(q, p)[i]
    ensures InStore(e, s, m, FinalPlaces(rlib, fli, |q|))
  {
    hide Relocated, Relocatable, Parsed, Code, Goals, Labels, Size;
    var p, t := FinalPlaces(rlib, fli, |q|), Parsed(e, s.oflag);
    var code, w := Code(t, s.flsc), With(s, t);
    forall i | 0 <= i < |code|
      ensures Relocatable(code[i], p) && m.memory(rlib + |s.code| + i) == Relocated(code[i], p)
    {
      assert q[|s.code| + i] == w.code[|s.code| + i] == code[i];
      assert m.memory(rlib + (|s.code| + i)) == Image(q, p)[|s.code| + i];
    }
    CodeSize(t, s.flsc);
    GoalsWithin(t, |s.code|, s.flsc, s.future);
    forall l | s.flsc <= l < w.flsc ensures l in w.future && Goes(p, l, w.future[l]) {
      assert fli[l] == w.future[l];
    }
  }

  // Loads a program: the code of every expression in it is then in store, with its jumps.
  method LoadExpression(c: Compiler, flsc: int, tape: seq<nat>, ghost e: Expr, ghost s: Translation)
    returns (stop: nat, rlib: int)
    requires c.Valid() && 0 <= flsc <= |c.lists.fli| && c.store[BIM - 1] == TERMINATOR
    requires forall i :: 0 <= i < |c.program| && c.program[i].opc == 2 ==> c.program[i].w % 32768 < flsc
    requires PartOf(e, s, c.program, c.lists.fli[..flsc])
    modifies c.store
    ensures rlib == ResultBase(c.rlsc, c.klsc)
    ensures stop == 98 <==> !RoomFor(c.program, Site(rlib, c.flib, flsc, BIM - 1, true))
    ensures stop != 98 ==>
              forall local :: InStore(e, s, Machine(c.store[..], local), FinalPlaces(rlib, c.lists.fli[..flsc], c.rlsc))
  {
    hide PartOf, InStore, Image, Relocated, Relocatable, RoomFor, ResultBase;
    stop, rlib := LoadProgram(c, flsc, tape);
    if stop != 98 {
      forall local: int -> int
        ensures InStore(e, s, Machine(c.store[..], local), FinalPlaces(rlib, c.lists.fli[..flsc], c.rlsc))
      {
        PartLoaded(e, s, c.program, c.lists.fli[..flsc], rlib, Machine(c.store[..], local));
      }
    }
  }

  // The identifier the translator uses for the integer at place n of the constant list.
  function ConstantId(n: nat): nat {
    0x3000000 + n + 0x80000
  }

  /**
   An integer constant, looked up when the list was kli, and in the loaded program: the identifier the translator
   uses for it leads to its word, wherever the program was loaded and whatever was entered later.
   */
  lemma ConstantLoaded(kli: seq<int>, w: int, later: seq<int>, rlib: int, fli: seq<int>, rlsc: int, words: seq<int>,
                       local: int -> int)
    requires AfterLookup(kli, [w]) <= later && |later| <= 0x8000 && 0 <= rlib && 0 <= rlsc && CRFB < rlib + rlsc
    requires rlib + rlsc + |later| <= |words| && rlib + rlsc + |later| <= 0x8000
    requires words[rlib + rlsc..rlib + rlsc + |later|] == later
    ensures var id, p := ConstantId(FirstMatch(kli + [w], [w])), FinalPlaces(rlib, fli, rlsc);
            AddressedLeaf(id, p) && WordOf(id, Machine(words, local), p) == w
  {
    var n, klib := FirstMatch(kli + [w], [w]), rlib + rlsc;
    IntegerLookup(kli, w);
    assert words[klib..klib + |later|][n] == later[n] == w;
    hide FirstMatch, AfterLookup;
    ConstantDigits(n);
    ConstantPlace(n, klib, FinalPlaces(rlib, fli, rlsc));
  }

  lemma ConstantDigits(n: nat)
    requires n < 0x8000
    ensures var id := ConstantId(n);
            ListPart(id) == 3 && AddressPart(id) == n && !Dynamic(id) && Integral(id) && Simple(id)
  {
  }

  lemma ConstantPlace(n: nat, klib: int, p: Places)
    requires p.klib == klib != CRFB && 0 <= n + klib < 0x8000 && n < 0x8000
    requires var id := ConstantId(n); ListPart(id) == 3 && AddressPart(id) == n && !Dynamic(id)
    ensures var i := AddressToRegister(ConstantId(n));
            Relocatable(i, p) && Relocated(i, p) / 0x8000 == 2192 && Relocated(i, p) % 0x8000 == klib + n
  {
    hide ConstantId, ListPart, AddressPart, Dynamic;
    var i := AddressToRegister(ConstantId(n));
    assert i == Instr(3, n + 71827456);
    assert Relocated(i, p) == 2192 * 0x8000 + (klib + n);
  }

  /**
   The whole way of an expression: it was translated at s, its code became part of the program q,
   the program was loaded at rlib, and the machine runs it from there.  The value is right exactly
   when no sign it depends on follows a binary logical operator.
   */
  lemma CompiledLoadedRun(e: Expr, s: Translation, q: seq<Instr>, fli: seq<int>, rlib: int, words: seq<int>,
                          local: int -> int, v: nat -> Value, st: State) returns (n: nat)
    requires Grammatical(e) && BeforeExpression(s) && PartOf(e, s, q, fli)
    requires |fli| < 0x8000 && 0 <= rlib && rlib + |q| < 0x8000 && rlib + |q| <= |words|
    requires var p := FinalPlaces(rlib, fli, |q|);
             AllRelocatable(q, p) && words[rlib..rlib + |q|] == Image(q, p)
    requires var m, p := Machine(words, local), FinalPlaces(rlib, fli, |q|);
             WellTyped(e, v) && Holding(e, v, m, p)
    requires st.Running? && st.ot == rlib + |s.code|
    ensures var end, w := Steps(Machine(words, local), st, n), With(s, Parsed(e, s.oflag));
            && EndOfExpression(Feed(s, SourceText(e))) == EndOfExpression(w)
            && (end.Running? ==> end.ot == rlib + |w.code|)
            && Outcome(if end.Stopped? then None else Some(end.stack), st.stack, Unharmed(e, s.oflag, v), Meaning(e, v))
  {
    hide Feed, EndOfExpression, SourceText, Steps, Outcome, InStore, With, BeforeExpression, PartOf, Relocated;
    hide Relocatable;
    var m, p := Machine(words, local), FinalPlaces(rlib, fli, |q|);
    forall i | 0 <= i < |q| ensures m.memory(rlib + i) == Image(q, p)[i] {
      assert words[rlib..rlib + |q|][i] == words[rlib + i];
    }
    PartLoaded(e, s, q, fli, rlib, m);
    n := Evaluated(e, s, v, m, p, st);
  }
}
