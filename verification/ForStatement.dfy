/**
 The for statement: the elements of its list as section 4.6.4 of the Revised Report on ALGOL 60
 defines them, and the machine that runs them with the orders FOR1..FOR8, a resume point and a step
 sign in the frame, and one address on its stack.
 */
module ForStatement {
  import opened X1Integers

  type Store = nat -> int

  function Set(s: Store, v: nat, x: int): Store {
    (y: nat) => if y == v then x else s(y)
  }

  datatype Element =
    | Single(value: Store -> int)
    | While(value: Store -> int, cond: Store -> bool)
    | Step(from: Store -> int, step: Store -> int, limit: Store -> int)

  // v is the controlled variable, body the effect of the controlled statement.
  datatype For = For(v: nat, elements: seq<Element>, body: Store -> Store)

  // After n executions of the statement: the list is exhausted, one more is due, or a sum did not fit.
  datatype Outcome = Exhausted(s: Store) | Due(s: Store) | Overflow

  // The test of a step element, with the sign of the step.
  predicate Over(x: int, limit: int, step: int) {
    (step > 0 && limit < x) || (step < 0 && x < limit)
  }

  lemma OverIsReport(x: int, limit: int, step: int)
    ensures Over(x, limit, step) <==> (x - limit) * Sign(step) > 0
  {
    if step > 0 {
      assert (x - limit) * 1 == x - limit;
    } else if step < 0 {
      assert (x - limit) * (-1) == limit - x;
    }
  }

  // The Report: step and limit are evaluated where V already has its new value.
  function Report(f: For, i: nat, s: Store, n: nat): Outcome
    requires i <= |f.elements|
    decreases n, |f.elements| - i, 1
  {
    if i == |f.elements| then Exhausted(s)
    else match f.elements[i]
      case Single(e) =>
        var s1 := Set(s, f.v, e(s));
        if n == 0 then Due(s1) else Report(f, i + 1, f.body(s1), n - 1)
      case While(e, b) =>
        var s1 := Set(s, f.v, e(s));
        if !b(s1) then Report(f, i + 1, s1, n)
        else if n == 0 then Due(s1) else Report(f, i, f.body(s1), n - 1)
      case Step(a, _, _) => ReportTest(f, i, Set(s, f.v, a(s)), n)
  }

  function ReportTest(f: For, i: nat, s: Store, n: nat): Outcome
    requires i < |f.elements| && f.elements[i].Step?
    decreases n, |f.elements| - i, 0
  {
    var Step(_, b, c) := f.elements[i];
    if (s(f.v) - c(s)) * Sign(b(s)) > 0 then Report(f, i + 1, s, n)
    else if n == 0 then Due(s)
    else
      var s1 := f.body(s);
      var x := s1(f.v) + b(s1);
      if Fits(x) then ReportTest(f, i, Set(s1, f.v, x), n - 1) else Overflow
  }

  // What the orders do: step and limit are evaluated once, before V gets its new value.
  function Once(f: For, i: nat, s: Store, n: nat): Outcome
    requires i <= |f.elements|
    decreases n, |f.elements| - i, 1
  {
    if i == |f.elements| then Exhausted(s)
    else match f.elements[i]
      case Single(e) =>
        var s1 := Set(s, f.v, e(s));
        if n == 0 then Due(s1) else Once(f, i + 1, f.body(s1), n - 1)
      case While(e, b) =>
        var s1 := Set(s, f.v, e(s));
        if !b(s1) then Once(f, i + 1, s1, n)
        else if n == 0 then Due(s1) else Once(f, i, f.body(s1), n - 1)
      case Step(a, _, _) => OnceTest(f, i, s, a(s), n)
  }

  function OnceTest(f: For, i: nat, s: Store, x: int, n: nat): Outcome
    requires i < |f.elements| && f.elements[i].Step?
    decreases n, |f.elements| - i, 0
  {
    var Step(_, b, c) := f.elements[i];
    var s1 := Set(s, f.v, x);
    if Over(x, c(s), b(s)) then Once(f, i + 1, s1, n)
    else if n == 0 then Due(s1) else OnceAgain(f, i, f.body(s1), n - 1)
  }

  function OnceAgain(f: For, i: nat, s: Store, n: nat): Outcome
    requires i < |f.elements| && f.elements[i].Step?
    decreases n, |f.elements| - i, 1
  {
    var x := s(f.v) + f.elements[i].step(s);
    if Fits(x) then OnceTest(f, i, s, x, n) else Overflow
  }

  // The end of a step element is seen at the same time before and after V gets its new value.
  ghost predicate Steady(f: For, e: Element) {
    e.Step? ==>
      forall s: Store, x: int ::
        Over(x, e.limit(s), e.step(s)) == Over(x, e.limit(Set(s, f.v, x)), e.step(Set(s, f.v, x)))
  }

  ghost predicate AllSteady(f: For) {
    forall i :: 0 <= i < |f.elements| ==> Steady(f, f.elements[i])
  }

  lemma {:induction false} SteadyAgrees(f: For, i: nat, s: Store, n: nat)
    requires i <= |f.elements| && AllSteady(f)
    ensures Once(f, i, s, n) == Report(f, i, s, n)
    decreases n, |f.elements| - i, 1
  {
    if i < |f.elements| {
      match f.elements[i]
      case Single(e) =>
        if n > 0 { SteadyAgrees(f, i + 1, f.body(Set(s, f.v, e(s))), n - 1); }
      case While(e, b) =>
        var s1 := Set(s, f.v, e(s));
        SteadyAgrees(f, i + 1, s1, n);
        if n > 0 { SteadyAgrees(f, i, f.body(s1), n - 1); }
      case Step(a, _, _) => SteadyTest(f, i, s, a(s), n);
    }
  }

  lemma {:induction false} SteadyTest(f: For, i: nat, s: Store, x: int, n: nat)
    requires i < |f.elements| && f.elements[i].Step? && AllSteady(f)
    ensures OnceTest(f, i, s, x, n) == ReportTest(f, i, Set(s, f.v, x), n)
    decreases n, |f.elements| - i, 0
  {
    var Step(_, b, c) := f.elements[i];
    var s1 := Set(s, f.v, x);
    assert Steady(f, f.elements[i]);
    OverIsReport(x, c(s1), b(s1));
    SteadyAgrees(f, i + 1, s1, n);
    if n > 0 {
      var s2 := f.body(s1);
      SteadyTest(f, i, s2, s2(f.v) + b(s2), n - 1);
    }
  }

  function OneElement(v: nat, e: Element, body: Store -> Store): For {
    For(v, [e], body)
  }

  // A step element that is not steady goes wrong for some initial value.
  lemma UnsteadyDiffers(v: nat, step: Store -> int, limit: Store -> int, body: Store -> Store, s: Store, x: int)
    requires Over(x, limit(s), step(s)) != Over(x, limit(Set(s, v, x)), step(Set(s, v, x)))
    ensures var f := OneElement(v, Step(_ => x, step, limit), body);
            Once(f, 0, s, 0) != Report(f, 0, s, 0)
  {
    var f := OneElement(v, Step(_ => x, step, limit), body);
    var s1 := Set(s, v, x);
    OverIsReport(x, limit(s1), step(s1));
    FirstTests(f, s, x);
  }

  // An element that is the only one, tested for the first time.
  lemma FirstTests(f: For, s: Store, x: int)
    requires |f.elements| == 1 && f.elements[0].Step? && f.elements[0].from(s) == x
    ensures var s1, e := Set(s, f.v, x), f.elements[0];
            && Once(f, 0, s, 0) == (if Over(x, e.limit(s), e.step(s)) then Exhausted(s1) else Due(s1))
            && Report(f, 0, s, 0) == (if (s1(f.v) - e.limit(s1)) * Sign(e.step(s1)) > 0 then Exhausted(s1) else Due(s1))
  {
    var s1 := Set(s, f.v, x);
    assert Once(f, 1, s1, 0) == Exhausted(s1) == Report(f, 1, s1, 0);
    assert Once(f, 0, s, 0) == OnceTest(f, 0, s, x, 0);
    assert Report(f, 0, s, 0) == ReportTest(f, 0, s1, 0);
  }

  // The translated element and the Report agree for all initial values, stores and statements
  // exactly when the element is steady.
  lemma SteadyExactly(v: nat, step: Store -> int, limit: Store -> int)
    ensures Steady(For(v, [], s => s), Step(s => 0, step, limit))
        <==> forall from: Store -> int, body: Store -> Store, s: Store, n: nat ::
               var f := OneElement(v, Step(from, step, limit), body); Once(f, 0, s, n) == Report(f, 0, s, n)
  {
    var e := Step(s => 0, step, limit);
    if Steady(For(v, [], s => s), e) {
      forall from: Store -> int, body: Store -> Store, s: Store, n: nat
        ensures var f := OneElement(v, Step(from, step, limit), body); Once(f, 0, s, n) == Report(f, 0, s, n)
      {
        var f := OneElement(v, Step(from, step, limit), body);
        assert Steady(f, f.elements[0]);
        SteadyAgrees(f, 0, s, n);
      }
    } else {
      var s: Store, x: int :| Over(x, limit(s), step(s)) != Over(x, limit(Set(s, v, x)), step(Set(s, v, x)));
      UnsteadyDiffers(v, step, limit, s => s, s, x);
    }
  }

  // The expression e does not look at the variable v.
  ghost predicate Independent(e: Store -> int, v: nat) {
    forall s: Store, x: int :: e(Set(s, v, x)) == e(s)
  }

  // What a programmer can see: steps and limits that do not name the controlled variable do no harm,
  // whatever else the controlled statement changes in them.
  lemma IndependentAgrees(f: For, s: Store, n: nat)
    requires forall i :: 0 <= i < |f.elements| && f.elements[i].Step? ==>
               Independent(f.elements[i].step, f.v) && Independent(f.elements[i].limit, f.v)
    ensures Once(f, 0, s, n) == Report(f, 0, s, n)
  {
    hide Over;
    forall i | 0 <= i < |f.elements| ensures Steady(f, f.elements[i]) {
      var e := f.elements[i];
      if e.Step? {
        assert Independent(e.step, f.v) && Independent(e.limit, f.v);
      }
    }
    SteadyAgrees(f, 0, s, n);
  }

  // for i := 5 step 1 until i, entered with i = 0: the Report executes the statement, the machine does not.
  lemma LimitNamesVariable(body: Store -> Store)
    ensures var s: Store := _ => 0;
            var f := OneElement(0, Step(_ => 5, _ => 1, (s: Store) => s(0)), body);
            Report(f, 0, s, 0).Due? && Once(f, 0, s, 0).Exhausted?
  {
    var s: Store := _ => 0;
    var f := OneElement(0, Step(_ => 5, _ => 1, (s: Store) => s(0)), body);
    assert Report(f, 0, s, 0) == ReportTest(f, 0, Set(s, 0, 5), 0);
    assert Once(f, 0, s, 0) == OnceTest(f, 0, s, 5, 0);
  }

  // What the orders find on the stack.
  datatype Item = Number(n: int) | Location(v: nat)

  // Where the machine goes on after the controlled statement: an element, or the step of one.
  datatype Place = AtElement(i: nat) | AtStep(i: nat)

  datatype Mark = Unset | Direction(d: int)

  class Machine {
    const f: For
    var stack: seq<Item>
    var resume: Place
    var result: Mark
    var store: Store

    constructor (statement: For, s: Store, below: seq<Item>)
      ensures f == statement && store == s && stack == below && resume == AtElement(0)
    {
      f, store, stack, resume, result := statement, s, below, AtElement(0), Unset;
    }

    method Push(x: Item)
      modifies this`stack
      ensures stack == old(stack) + [x]
    {
      stack := stack + [x];
    }

    method Pop(ghost rest: seq<Item>, ghost top: Item) returns (x: Item)
      requires stack == rest + [top]
      modifies this`stack
      ensures stack == rest && x == top
    {
      x := stack[|stack| - 1];
      stack := stack[..|stack| - 1];
    }

    // The element does not repeat.
    method For2(next: Place, ghost below: seq<Item>, ghost x: int)
      requires stack == below + [Location(f.v)] + [Number(x)]
      modifies this`stack, this`resume, this`store
      ensures stack == below && resume == next && store == Set(old(store), f.v, x)
    {
      resume := next;
      var src := Pop(below + [Location(f.v)], Number(x));
      var dest := Pop(below, Location(f.v));
      store := Set(store, dest.v, src.n);
    }

    // The next value of a while element.
    method For3(ghost below: seq<Item>, ghost x: int)
      requires stack == below + [Location(f.v)] + [Number(x)]
      modifies this`stack, this`store
      ensures stack == below + [Location(f.v)] && store == Set(old(store), f.v, x)
    {
      var src := Pop(below + [Location(f.v)], Number(x));
      var dest := Pop(below, Location(f.v));
      store := Set(store, dest.v, src.n);
      Push(dest);
    }

    // The condition of a while element.
    method For4(next: Place, ghost below: seq<Item>, ghost c: bool) returns (again: bool)
      requires stack == below + [Location(f.v)] + [Number(if c then 0 else 1)]
      modifies this`stack, this`resume
      ensures again == c
      ensures if c then stack == below && resume == old(resume) else stack == below + [Location(f.v)] && resume == next
    {
      var truth := Pop(below + [Location(f.v)], Number(if c then 0 else 1));
      again := truth.n == 0;
      if again {
        var _ := Pop(below, Location(f.v));
      } else {
        resume := next;
      }
    }

    // From now on the machine resumes at the step.
    method For5(step: Place)
      modifies this`resume, this`result
      ensures resume == step && result == Unset
    {
      result := Unset;
      resume := step;
    }

    // The value to be tested: the initial one, or the sum of the variable and the step.
    method For6(ghost below: seq<Item>, ghost x: int, b: int) returns (fits: bool)
      requires if result == Unset then stack == below + [Location(f.v)] + [Number(x)] + [Number(b)]
               else stack == below + [Location(f.v)] + [Number(b)] && x == store(f.v) + b
      modifies this`stack, this`result
      ensures fits == (old(result) == Unset || Fits(x))
      ensures fits ==> stack == below + [Location(f.v)] + [Number(x)] && result == Direction(Sign(b))
    {
      ghost var under := below + [Location(f.v)];
      var incr := Pop(if result == Unset then under + [Number(x)] else under, Number(b));
      var direction := Sign(incr.n);
      if result != Unset {
        var dest := Pop(below, Location(f.v));
        var value := store(dest.v) + incr.n;
        if !Fits(value) {
          return false;
        }
        Push(dest);
        Push(Number(value));
      }
      result := Direction(direction);
      fits := true;
    }

    // The test of a step element, after which the variable has its new value.
    method For7(next: Place, ghost below: seq<Item>, ghost x: int, ghost c: int, ghost b: int) returns (again: bool)
      requires stack == below + [Location(f.v)] + [Number(x)] + [Number(c)] && result == Direction(Sign(b))
      modifies this`stack, this`resume, this`store
      ensures again == !Over(x, c, b) && store == Set(old(store), f.v, x)
      ensures if again then stack == below && resume == old(resume)
              else stack == below + [Location(f.v)] && resume == next
    {
      var limit := Pop(below + [Location(f.v)] + [Number(x)], Number(c));
      var value := Pop(below + [Location(f.v)], Number(x));
      var dest := Pop(below, Location(f.v));
      store := Set(store, dest.v, value.n);
      if (result.d > 0 && limit.n < value.n) || (result.d < 0 && value.n < limit.n) {
        Push(dest);
        resume := next;
        again := false;
      } else {
        again := true;
      }
    }

    // The step and the limit of element i, with the initial value already on the stack or not.
    method StepPart(i: nat, ghost below: seq<Item>, ghost x: int) returns (again: bool, fits: bool)
      requires i < |f.elements| && f.elements[i].Step?
      requires if result == Unset then stack == below + [Location(f.v)] + [Number(x)]
               else stack == below + [Location(f.v)] && x == store(f.v) + f.elements[i].step(store)
      modifies this`stack, this`resume, this`store, this`result
      ensures fits == (old(result) == Unset || Fits(x))
      ensures fits ==>
                var e, s := f.elements[i], old(store);
                && again == !Over(x, e.limit(s), e.step(s)) && store == Set(s, f.v, x) && result != Unset
                && if again then stack == below && resume == old(resume)
                   else stack == below + [Location(f.v)] && resume == AtElement(i + 1)
    {
      var b := f.elements[i].step(store);
      Push(Number(b));
      fits := For6(below, x, b);
      again := false;
      if fits {
        ghost var c := f.elements[i].limit(store);
        Push(Number(f.elements[i].limit(store)));
        again := For7(AtElement(i + 1), below, x, c, b);
      }
    }

    // What is still to come at a place.
    ghost function Remaining(ot: Place, n: nat): Outcome
      requires ot.i <= |f.elements| && (ot.AtStep? ==> ot.i < |f.elements| && f.elements[ot.i].Step?)
      reads this
    {
      match ot
      case AtElement(i) => Once(f, i, store, n)
      case AtStep(i) => OnceAgain(f, i, store, n)
    }

    lemma Unfolded(i: nat, s: Store, x: int, n: nat)
      requires i < |f.elements| && f.elements[i].Step?
      ensures var e, s1 := f.elements[i], Set(s, f.v, x);
              OnceTest(f, i, s, x, n) == if Over(x, e.limit(s), e.step(s)) then Once(f, i + 1, s1, n)
                                         else if n == 0 then Due(s1) else OnceAgain(f, i, f.body(s1), n - 1)
    {
    }

    // The orders at one place, with the address of the variable on the stack.
    method Visit(ot: Place, n: nat, ghost below: seq<Item>) returns (again: bool, fits: bool)
      requires ot.i < |f.elements| && (ot.AtStep? ==> f.elements[ot.i].Step? && result != Unset)
      requires stack == below + [Location(f.v)] && resume == ot
      modifies this`stack, this`resume, this`store, this`result
      ensures !fits ==> old(Remaining(ot, n)) == Overflow
      ensures fits && again ==> stack == below && resume.i <= |f.elements|
      ensures fits && again && resume.AtStep? ==>
                resume.i < |f.elements| && f.elements[resume.i].Step? && result != Unset
      ensures fits && again ==>
                old(Remaining(ot, n)) == if n == 0 then Due(store) else
                  match resume
                  case AtElement(j) => Once(f, j, f.body(store), n - 1)
                  case AtStep(j) => OnceAgain(f, j, f.body(store), n - 1)
      ensures fits && !again ==> stack == below + [Location(f.v)] && resume == AtElement(ot.i + 1)
      ensures fits && !again ==> old(Remaining(ot, n)) == Once(f, ot.i + 1, store, n)
    {
      ghost var s := store;
      again, fits := true, true;
      match ot {
        case AtElement(i) =>
          assert old(Remaining(ot, n)) == Once(f, i, s, n);
          match f.elements[i] {
            case Single(e) =>
              ghost var x := e(store);
              Push(Number(e(store)));
              For2(AtElement(i + 1), below, x);
            case While(e, c) =>
              ghost var x := e(store);
              Push(Number(e(store)));
              For3(below, x);
              ghost var b := c(store);
              Push(Number(if c(store) then 0 else 1));
              again := For4(AtElement(i + 1), below, b);
            case Step(a, _, _) =>
              ghost var x := a(store);
              Push(Number(a(store)));
              For5(AtStep(i));
              again, fits := StepPart(i, below, x);
              Unfolded(i, s, x, n);
          }
        case AtStep(i) =>
          ghost var x := store(f.v) + f.elements[i].step(store);
          assert old(Remaining(ot, n)) == if Fits(x) then OnceTest(f, i, s, x, n) else Overflow;
          again, fits := StepPart(i, below, x);
          Unfolded(i, s, x, n);
      }
    }

    /**
     Runs the statement until its body is due for the n-th time more, or the list is exhausted.  At
     every element there is exactly the address of the variable on the stack, and while the body runs
     and at the end there is nothing.
     */
    method Execute(n: nat) returns (outcome: Outcome)
      requires resume == AtElement(0)
      modifies this
      ensures outcome == Once(f, 0, old(store), n)
      ensures outcome != Overflow ==> stack == old(stack)
    {
      hide Once, OnceTest, OnceAgain;
      ghost var below := stack;
      var left := n;
      Push(Location(f.v));
      while resume != AtElement(|f.elements|)
        invariant stack == below + [Location(f.v)] && resume.i <= |f.elements|
        invariant resume.AtStep? ==> resume.i < |f.elements| && f.elements[resume.i].Step? && result != Unset
        invariant Remaining(resume, left) == Once(f, 0, old(store), n)
        decreases left, |f.elements| - resume.i
      {
        var again, fits := Visit(resume, left, below);
        if !fits {
          return Overflow;
        }
        if again {
          if left == 0 {
            return Due(store);
          }
          store := f.body(store);
          left := left - 1;
          Push(Location(f.v));
        }
      }
      var _ := Pop(below, Location(f.v));
      AtEnd(store, left);
      outcome := Exhausted(store);
    }

    lemma AtEnd(s: Store, n: nat)
      ensures Once(f, |f.elements|, s, n) == Exhausted(s)
    {
    }
  }
}
