/**
 Whole runs of the run-time machine: from the empty stack on, and from a call or by-name evaluation to
 the order that ends it.
 */
module RunTimeRuns {
  import opened StackCells
  import opened RunTimeState
  import opened Activations
  import opened RunTimeSafety

  // The events are legal one after the other.
  ghost predicate LegalRun(s: State, acts: seq<Act>, evs: seq<Event>, v: Values)
    decreases |evs|
  {
    evs == [] ||
    (Legal(s, acts, evs[0])
     && (CanStep(s, acts, evs[0]) ==> LegalRun(Next(s, acts, evs[0], v), NextActs(s, acts, evs[0]), evs[1..], v)))
  }

  // They can also be carried out.
  ghost predicate Possible(s: State, acts: seq<Act>, evs: seq<Event>, v: Values)
    decreases |evs|
  {
    evs == [] ||
    (Legal(s, acts, evs[0]) && CanStep(s, acts, evs[0])
     && Possible(Next(s, acts, evs[0], v), NextActs(s, acts, evs[0]), evs[1..], v))
  }

  function Run(s: State, acts: seq<Act>, evs: seq<Event>, v: Values): (State, seq<Act>)
    requires Possible(s, acts, evs, v)
    decreases |evs|
  {
    if evs == [] then (s, acts) else Run(Next(s, acts, evs[0], v), NextActs(s, acts, evs[0]), evs[1..], v)
  }

  // Every legal run can be carried out to its end, and keeps the invariant.
  lemma {:induction false} RunKeeps(s: State, acts: seq<Act>, evs: seq<Event>, v: Values)
    requires Inv(s, acts) && LegalRun(s, acts, evs, v)
    ensures Possible(s, acts, evs, v) && Inv(Run(s, acts, evs, v).0, Run(s, acts, evs, v).1)
    decreases |evs|
  {
    hide Inv, Legal, CanStep, Next, NextActs;
    if evs != [] {
      StepKeeps(s, acts, evs[0], v);
      RunKeeps(Next(s, acts, evs[0], v), NextActs(s, acts, evs[0]), evs[1..], v);
    }
  }

  lemma {:induction false} PossibleIsLegal(s: State, acts: seq<Act>, evs: seq<Event>, v: Values)
    requires Possible(s, acts, evs, v)
    ensures LegalRun(s, acts, evs, v)
    decreases |evs|
  {
    hide Legal, CanStep, Next, NextActs;
    if evs != [] {
      PossibleIsLegal(Next(s, acts, evs[0], v), NextActs(s, acts, evs[0]), evs[1..], v);
    }
  }

  // The machine after its reset.
  predicate AtStart(s: State) {
    s.stack == [] && s.framePtr == 0 == s.stackBase && |s.display| == LEVELS
  }

  // States and activations that some run from the start leads to.
  ghost predicate Reachable(s: State, acts: seq<Act>, v: Values) {
    exists start: State, evs: seq<Event> ::
      AtStart(start) && Possible(start, [], evs, v) && Run(start, [], evs, v) == (s, acts)
  }

  lemma ReachableInv(s: State, acts: seq<Act>, v: Values)
    requires Reachable(s, acts, v)
    ensures Inv(s, acts)
  {
    var start: State, evs: seq<Event> :|
      AtStart(start) && Possible(start, [], evs, v) && Run(start, [], evs, v) == (s, acts);
    PossibleIsLegal(start, [], evs, v);
    RunKeeps(start, [], evs, v);
  }

  // Every legal run from the start ends in a reachable state: nothing ever gets stuck.
  lemma StartRuns(start: State, evs: seq<Event>, v: Values)
    requires AtStart(start) && LegalRun(start, [], evs, v)
    ensures Possible(start, [], evs, v) && Reachable(Run(start, [], evs, v).0, Run(start, [], evs, v).1, v)
  {
    RunKeeps(start, [], evs, v);
  }

  // In every reachable state the display is the static chain of the current frame.
  lemma DisplayAlwaysRight(s: State, acts: seq<Act>, v: Values, k: nat)
    requires Reachable(s, acts, v) && 1 <= k <= BlockLevel(s)
    ensures BlockLevel(s) < LEVELS == |s.display| && s.display[k] == Walk(s.stack, s.framePtr, BlockLevel(s) - k)
    ensures exists i :: IsFrame(acts, i, k, s.display[k])
  {
    ReachableInv(s, acts, v);
    DisplayIsStaticChain(s, acts, k);
  }

  // In every reachable state all links point down, and no two active calls share a base.
  lemma LinksAlwaysPointDown(s: State, acts: seq<Act>, v: Values, i: nat)
    requires Reachable(s, acts, v) && i < |acts|
    ensures var f := acts[i].frame;
            && AddressAt(s.stack, f + FP) < f && AddressAt(s.stack, f + SP) < f
            && (acts[i].kind == Inside && acts[i].level > 1 ==> AddressAt(s.stack, f + DISPLAY) < f)
    ensures forall j :: i < j < |acts| ==> acts[i].base < acts[j].base
    ensures acts[i].base in s.eis && s.eis[acts[i].base] == acts[i].op
  {
    ReachableInv(s, acts, v);
    LinksPointDown(s, acts, i);
    forall j | i < j < |acts| ensures acts[i].base < acts[j].base {
      BasesRise(s, acts, i, j);
    }
    OpOf(s.eis, acts, i);
  }

  lemma {:induction false} OpOf(eis: map<nat, FormalOp>, acts: seq<Act>, i: nat)
    requires OpsOk(eis, acts) && i < |acts|
    ensures acts[i].base in eis && eis[acts[i].base] == acts[i].op
    decreases |acts|
  {
    if i < |acts| - 1 {
      OpOf(eis, Below(acts), i);
    }
  }

  // More than n activations remain throughout, so that activation n stays.
  ghost predicate Above(s: State, acts: seq<Act>, evs: seq<Event>, v: Values, n: nat)
    requires Possible(s, acts, evs, v)
    decreases |evs|
  {
    n < |acts| && (evs == [] || Above(Next(s, acts, evs[0], v), NextActs(s, acts, evs[0]), evs[1..], v, n))
  }

  // Activation n is no for statement that changes where it goes on.
  ghost predicate NotResumed(s: State, acts: seq<Act>, evs: seq<Event>, v: Values, n: nat)
    requires Possible(s, acts, evs, v)
    decreases |evs|
  {
    evs == [] ||
    (!(evs[0].Resume? && |acts| == n + 1)
     && NotResumed(Next(s, acts, evs[0], v), NextActs(s, acts, evs[0]), evs[1..], v, n))
  }

  // The activation has the same place and recorded operation, whatever it did since.
  predicate SameEntry(a: Act, b: Act) {
    a.frame == b.frame && a.op == b.op
  }

  // An event leaves the list below the top activation alone.
  lemma EventLocal(s: State, acts: seq<Act>, ev: Event, n: nat)
    requires Legal(s, acts, ev) && n < |acts| && n < |NextActs(s, acts, ev)|
    ensures var acts1 := NextActs(s, acts, ev);
            && acts1[..n] == acts[..n] && SameEntry(acts1[n], acts[n])
            && (!(ev.Resume? && |acts| == n + 1) ==> acts1[n].ret == acts[n].ret)
  {
  }

  /**
   While activation n stays, however many calls and implicit subroutines nest above it, nothing below
   it in the list changes, and it keeps its place, its operation and, unless it resumes, its return
   address.
   */
  lemma {:induction false} RunLocal(s: State, acts: seq<Act>, evs: seq<Event>, v: Values, n: nat)
    requires Possible(s, acts, evs, v) && Above(s, acts, evs, v, n)
    ensures var acts1 := Run(s, acts, evs, v).1;
            && n < |acts1| && acts1[..n] == acts[..n] && SameEntry(acts1[n], acts[n])
            && (NotResumed(s, acts, evs, v, n) ==> acts1[n].ret == acts[n].ret)
    decreases |evs|
  {
    hide Legal, CanStep, Next, NextActs;
    if evs != [] {
      EventLocal(s, acts, evs[0], n);
      RunLocal(Next(s, acts, evs[0], v), NextActs(s, acts, evs[0]), evs[1..], v, n);
    }
  }

  // Up to here the cells belong to the activations below n; the operation of n may use the last one.
  function Floor(a: Act): int {
    a.frame - 1 - if TakesOne(a.op) then 1 else 0
  }

  // A cell below activation n changes only by a store into it.
  lemma EventCell(s: State, acts: seq<Act>, ev: Event, v: Values, n: nat, c: nat)
    requires Inv(s, acts) && Legal(s, acts, ev) && CanStep(s, acts, ev) && n < |acts|
    requires c < acts[n].frame && (|NextActs(s, acts, ev)| <= n ==> c < Floor(acts[n]))
    requires !(ev.Assign? && ev.place == c)
    ensures c < |s.stack| && c < |Next(s, acts, ev, v).stack| && Next(s, acts, ev, v).stack[c] == s.stack[c]
  {
    CellInPlace(s, acts, n, c);
    hide Good, OpsOk, Cached, Environment, Enclosing, Entered, ThunkEntered, ThunkEnded, CanStep, FrameReleased;
    hide FrameCreated, Returned, AddressAt;
    match ev
    case Working(_) =>
    case Assign(_, _) =>
    case Call(result, args, _) => CreatedCells(s.(stack := s.stack + [result]), s.ot, args);
    case Reserve(_) =>
    case Implicit(_, _, _) => ImplicitCell(s, acts, ev, v, c);
    case Resume(_) => TopFrame(s, acts);
    case Enter(level) => EnterCell(s, acts, level, c);
    case Return => ReturnCell(s, acts, v, c);
    case EndImplicit => EndCell(s, acts, v, c);
  }

  // Activation n and those above it lie above the cell.
  lemma CellInPlace(s: State, acts: seq<Act>, n: nat, c: nat)
    requires Inv(s, acts) && n < |acts| && c < acts[n].frame
    ensures c < s.stackBase <= |s.stack| && c < Top(acts).frame
    ensures n < |acts| - 1 ==> c < Floor(Top(acts))
  {
    hide FormalsOk, KindOk, OpsOk, Cached, AddressAt;
    GoodAt(s.stack, acts, n);
    TopOk(s, acts);
    if n < |acts| - 1 {
      assert Below(acts)[|acts| - 2] == acts[|acts| - 2];
      GoodAt(s.stack, acts, |acts| - 2);
      if n < |acts| - 2 {
        BasesRise(s, acts, n, |acts| - 2);
      }
    }
  }

  lemma ImplicitCell(s: State, acts: seq<Act>, ev: Event, v: Values, c: nat)
    requires Inv(s, acts) && Legal(s, acts, ev) && ev.Implicit? && CanStep(s, acts, ev) && c < |s.stack|
    ensures var s1 := Next(s, acts, ev, v); c < |s1.stack| && s1.stack[c] == s.stack[c]
  {
    hide Good, OpsOk, Cached, Legal, NextActs, Next, CanStep, ActOk, Updated;
    var a := ImplicitLink(s, acts, ev);
    ImplicitAct(s, acts, ev, v, a);
  }

  lemma EnterCell(s: State, acts: seq<Act>, level: nat, c: nat)
    requires Inv(s, acts) && Legal(s, acts, Enter(level)) && CanStep(s, acts, Enter(level)) && c < Top(acts).frame
    ensures c < |s.stack| && c < |Entered(s, level).stack| && Entered(s, level).stack[c] == s.stack[c]
  {
    hide Good, OpsOk, Cached, Environment, FormalsOk, Updated, BlockLevel, Entered, EnvironmentLevel;
    LevelIs(s, acts);
    TopOk(s, acts);
    EnterCells(s, level, Top(acts).frame);
  }

  lemma ReturnCell(s: State, acts: seq<Act>, v: Values, c: nat)
    requires Inv(s, acts) && Legal(s, acts, Return) && CanStep(s, acts, Return) && c < Floor(Top(acts))
    ensures c < |s.stack| && c < |Next(s, acts, Return, v).stack| && Next(s, acts, Return, v).stack[c] == s.stack[c]
  {
    hide Good, OpsOk, Cached, CanStep, Returned, Combined, Load;
    ReturnKeeps(s, acts, Return, v);
    EndUnder(s, acts);
  }

  lemma EndCell(s: State, acts: seq<Act>, v: Values, c: nat)
    requires Inv(s, acts) && Legal(s, acts, EndImplicit) && CanStep(s, acts, EndImplicit) && c < Floor(Top(acts))
    ensures c < |s.stack| && c < |ThunkEnded(s, v).stack| && ThunkEnded(s, v).stack[c] == s.stack[c]
  {
    EndKeeps(s, acts, EndImplicit, v);
    EndUnder(s, acts);
  }

  // Below the frame there is room for the operand an operation takes.
  lemma EndUnder(s: State, acts: seq<Act>)
    requires Inv(s, acts) && acts != []
    ensures Top(acts).frame < |s.stack| && 1 + (if TakesOne(Top(acts).op) then 1 else 0) <= Top(acts).frame
  {
    hide FormalsOk, KindOk, OpsOk, Cached;
    TopOk(s, acts);
  }

  // No event stores into the cell.
  predicate Spared(evs: seq<Event>, c: nat) {
    forall i :: 0 <= i < |evs| && evs[i].Assign? ==> evs[i].place != c
  }

  lemma {:induction false} RunCell(s: State, acts: seq<Act>, evs: seq<Event>, v: Values, n: nat, c: nat)
    requires Inv(s, acts) && Possible(s, acts, evs, v) && Above(s, acts, evs, v, n) && c < acts[n].frame
             && Spared(evs, c)
    ensures c < |s.stack| && c < |Run(s, acts, evs, v).0.stack| && Run(s, acts, evs, v).0.stack[c] == s.stack[c]
    decreases |evs|
  {
    hide Inv, Legal, CanStep, Next, NextActs, Floor;
    CellInPlace(s, acts, n, c);
    if evs != [] {
      StepKeeps(s, acts, evs[0], v);
      EventLocal(s, acts, evs[0], n);
      EventCell(s, acts, evs[0], v, n, c);
      RunCell(Next(s, acts, evs[0], v), NextActs(s, acts, evs[0]), evs[1..], v, n, c);
    }
  }

  // The cached part of the display depends on the activations alone.
  lemma CachedAgrees(d: seq<nat>, other: seq<nat>, stack: seq<Cell>, acts: seq<Act>, e: nat, k: nat)
    requires Good(stack, acts) && e < |acts| && acts[e].kind == Inside && Cached(d, acts, e) && Cached(other, acts, e)
    requires 1 <= k <= acts[e].level
    ensures k < |d| && k < |other| && d[k] == other[k]
  {
    EnclosingFrame(d, stack, acts, e, k);
    EnclosingFrame(other, stack, acts, e, k);
  }

  // The frame pointer, the base and the display of the current block.
  predicate SameBlock(s: State, s1: State, acts: seq<Act>) {
    && s1.framePtr == s.framePtr && s1.stackBase == s.stackBase
    && |s1.display| == |s.display| == LEVELS && EnvironmentLevel(acts) < LEVELS
    && forall k :: 1 <= k <= EnvironmentLevel(acts) ==> s1.display[k] == s.display[k]
  }

  // Two states with the same activations have the same block.
  lemma SameEnvironment(s: State, s1: State, acts: seq<Act>)
    requires Inv(s, acts) && Inv(s1, acts)
    ensures SameBlock(s, s1, acts)
  {
    EnvironmentInside(s.stack, acts);
    hide Good, OpsOk, Environment;
    var e := Environment(acts);
    assert EnvironmentLevel(acts) < LEVELS by {
      if 0 <= e { GoodAt(s.stack, acts, e); }
    }
    forall k | 1 <= k <= EnvironmentLevel(acts) ensures s1.display[k] == s.display[k] {
      if 0 <= e {
        CachedAgrees(s.display, s1.display, s.stack, acts, e, k);
      }
    }
  }

  predicate Opens(first: Event) {
    first.Implicit? || first.Call?
  }

  function EntryOp(first: Event): FormalOp {
    if first.Implicit? then first.op else PushValue
  }

  // The activation made by a call or by an implicit subroutine.
  lemma EntryAct(s: State, acts: seq<Act>, first: Event)
    requires Legal(s, acts, first) && Opens(first)
    ensures var acts1 := NextActs(s, acts, first);
            && |acts1| == |acts| + 1 && acts1[..|acts|] == acts
            && acts1[|acts|].frame == |s.stack| + 1 && acts1[|acts|].ret == s.ot && acts1[|acts|].op == EntryOp(first)
  {
  }

  // What is on the stack of s when the activation entered there ends in s2.
  predicate Delivered(s: State, s2: State, last: Event, op: FormalOp, v: Values, s3: State) {
    if last.EndImplicit? then
      && |s3.stack| == |s.stack| + (if TakesOne(op) then 0 else 1)
      && |s.stack| < |s2.stack|
      && CanApply(s2.(stack := s2.stack[..|s.stack|] + [s2.stack[|s2.stack| - 1]]), op)
      && s3.stack == Applied(op, v, s2.stack[..|s.stack|] + [s2.stack[|s2.stack| - 1]])
    else
      && |s.stack| < |s2.stack|
      && (if s2.stack[|s.stack|] == Null then s3.stack == s2.stack[..|s.stack|]
          else
            && |s3.stack| == |s.stack| + (if TakesOne(op) then 0 else 1)
            && CanApply(s2.(stack := s2.stack[..|s.stack| + 1]), op)
            && s3.stack == Applied(op, v, s2.stack[..|s.stack| + 1]))
  }

  lemma LastEvent(s: State, s2: State, acts2: seq<Act>, last: Event, v: Values)
    requires Inv(s2, acts2) && Legal(s2, acts2, last) && (last.Return? || last.EndImplicit?)
    requires Top(acts2).frame == |s.stack| + 1
    ensures CanStep(s2, acts2, last) && NextActs(s2, acts2, last) == Below(acts2)
    ensures Inv(Next(s2, acts2, last, v), Below(acts2)) && Next(s2, acts2, last, v).ot == Top(acts2).ret
    ensures Delivered(s, s2, last, Top(acts2).op, v, Next(s2, acts2, last, v))
  {
    hide Inv, Good, OpsOk, CanStep, Next, Applied, TakesOne;
    TopFrame(s2, acts2);
    if last.EndImplicit? {
      EndKeeps(s2, acts2, last, v);
      EndUnder(s2, acts2);
    } else {
      ReturnKeeps(s2, acts2, last, v);
    }
  }

  // t is a state in which the activation of the event first has been entered on the stack of s.
  predicate EnteredFrom(s: State, acts: seq<Act>, first: Event, t: State) {
    && Legal(s, acts, first) && Opens(first) && Inv(t, NextActs(s, acts, first))
    && |s.stack| <= |t.stack| && forall c :: 0 <= c < |s.stack| ==> t.stack[c] == s.stack[c]
  }

  // The events evs run from t to s2, above the activations acts, until only the first entered one is left.
  ghost predicate Inner(t: State, acts1: seq<Act>, evs: seq<Event>, v: Values, n: nat, s2: State, acts2: seq<Act>) {
    && Possible(t, acts1, evs, v) && Above(t, acts1, evs, v, n)
    && (s2, acts2) == Run(t, acts1, evs, v) && |acts2| == n + 1
  }

  /**
   From a call or by-name evaluation entered in t to the order that ends it (the event last): the frame
   pointer, the base and the display of the block of s come back, the stack has grown by what the
   operation recorded at the entry leaves, every cell below not stored into is as it was, and the
   machine goes on behind the entry.
   */
  lemma BalancedRun(s: State, acts: seq<Act>, first: Event, t: State, evs: seq<Event>, last: Event, v: Values,
                    s2: State, acts2: seq<Act>)
    requires Inv(s, acts) && EnteredFrom(s, acts, first, t)
    requires Inner(t, NextActs(s, acts, first), evs, v, |acts|, s2, acts2)
    requires Legal(s2, acts2, last) && (last.Return? || last.EndImplicit?)
    ensures CanStep(s2, acts2, last) && NextActs(s2, acts2, last) == acts
    ensures var s3 := Next(s2, acts2, last, v);
            && Inv(s3, acts) && SameBlock(s, s3, acts) && Delivered(s, s2, last, EntryOp(first), v, s3)
            && (NotResumed(t, NextActs(s, acts, first), evs, v, |acts|) ==> s3.ot == s.ot)
    ensures var s3, n := Next(s2, acts2, last, v), |s.stack| - if TakesOne(EntryOp(first)) then 1 else 0;
            n <= |s3.stack| && forall c :: 0 <= c < n && Spared(evs, c) ==> s3.stack[c] == s.stack[c]
  {
    hide Legal, CanStep, Next, NextActs, Inv, Run, Possible, Above, NotResumed, Delivered, EntryOp, Spared, TakesOne;
    hide SameBlock, Opens;
    var acts1 := NextActs(s, acts, first);
    EntryAct(s, acts, first);
    PossibleIsLegal(t, acts1, evs, v);
    RunKeeps(t, acts1, evs, v);
    RunLocal(t, acts1, evs, v, |acts|);
    assert Below(acts2) == acts;
    LastEvent(s, s2, acts2, last, v);
    var s3 := Next(s2, acts2, last, v);
    SameEnvironment(s, s3, acts);
    DeliveredHeight(s, s2, last, EntryOp(first), v, s3);
    var n := |s.stack| - if TakesOne(EntryOp(first)) then 1 else 0;
    forall c | 0 <= c < n && Spared(evs, c) ensures s3.stack[c] == s.stack[c] {
      RunCell(t, acts1, evs, v, |acts|, c);
      LastCell(s, s2, last, EntryOp(first), v, s3, c);
    }
  }

  lemma DeliveredHeight(s: State, s2: State, last: Event, op: FormalOp, v: Values, s3: State)
    requires Delivered(s, s2, last, op, v, s3)
    ensures |s.stack| - (if TakesOne(op) then 1 else 0) <= |s3.stack|
  {
    hide Applied;
  }

  lemma LastCell(s: State, s2: State, last: Event, op: FormalOp, v: Values, s3: State, c: nat)
    requires Delivered(s, s2, last, op, v, s3) && c < |s.stack| - (if TakesOne(op) then 1 else 0)
    ensures c < |s2.stack| && c < |s3.stack| && s3.stack[c] == s2.stack[c]
  {
  }

  // A call or implicit subroutine entered by its own event.
  lemma EnteredByEvent(s: State, acts: seq<Act>, first: Event, v: Values)
    requires Inv(s, acts) && Legal(s, acts, first) && Opens(first)
    ensures CanStep(s, acts, first) && EnteredFrom(s, acts, first, Next(s, acts, first, v))
  {
    hide Inv, Legal, CanStep, Next, NextActs;
    StepKeeps(s, acts, first, v);
    EntryCells(s, acts, first, v);
  }

  lemma EntryCells(s: State, acts: seq<Act>, first: Event, v: Values)
    requires Inv(s, acts) && Legal(s, acts, first) && Opens(first) && CanStep(s, acts, first)
    ensures var t := Next(s, acts, first, v);
            |s.stack| <= |t.stack| && forall c :: 0 <= c < |s.stack| ==> t.stack[c] == s.stack[c]
  {
    hide Good, OpsOk, Cached, NextActs, Environment;
    if first.Implicit? {
      var a := ImplicitLink(s, acts, first);
      ImplicitAct(s, acts, first, v, a);
    } else {
      hide BlockLevel, FrameCreated;
      CreatedCells(s.(stack := s.stack + [first.result]), s.ot, first.args);
      assert forall c :: 0 <= c < |s.stack| ==> (s.stack + [first.result])[c] == s.stack[c];
    }
  }

  /**
   FOR8 ends a for statement: it drops the address of the controlled variable and returns, so that the
   caller's height comes back and the machine goes on at the given place.
   */
  lemma ForLeaves(s: State, acts: seq<Act>, target: nat, v: Values)
    requires Inv(s, acts) && acts != [] && Top(acts).kind == Inside && s.stackBase < |s.stack|
    ensures CanLeaveFor(s, target)
    ensures var s3 := ForLeft(s, target, v);
            Inv(s3, Below(acts)) && s3.ot == target && s3.stack == s.stack[..Top(acts).frame - 1]
  {
    hide Inv, Good, OpsOk, Cached, Returned, CanReturn;
    TopFrame(s, acts);
    var f, n := Top(acts).frame, |s.stack|;
    ResultOutside(s, acts);
    var dropped := Working(s.stack[s.stackBase..n - 1]);
    StepKeeps(s, acts, dropped, v);
    var s1 := Next(s, acts, dropped, v);
    assert s1.stack == s.stack[..n - 1];
    StepKeeps(s1, acts, Assign(f - 1, Null), v);
    var s2 := Next(s1, acts, Assign(f - 1, Null), v);
    StepKeeps(s2, acts, Resume(target), v);
    var s3, acts3 := Next(s2, acts, Resume(target), v), NextActs(s2, acts, Resume(target));
    assert s3 == ForEnding(s, target);
    assert Below(acts3) == Below(acts) && Top(acts3) == Top(acts).(ret := target);
    StepKeeps(s3, acts3, Return, v);
    ReturnKeeps(s3, acts3, Return, v);
    assert s3.stack[..f - 1] == s.stack[..f - 1];
  }

  // The place for the result of an activation is in no frame.
  lemma ResultOutside(s: State, acts: seq<Act>)
    requires Inv(s, acts) && acts != []
    ensures 0 < Top(acts).frame && OutsideLinks(acts, Top(acts).frame - 1)
  {
    hide FormalsOk, KindOk, OpsOk, Cached, AddressAt, Environment;
    TopOk(s, acts);
    var f := Top(acts).frame;
    forall j | 0 <= j < |acts| ensures !(acts[j].frame <= f - 1 < acts[j].frame + ARG + 2 * acts[j].args) {
      GoodAt(s.stack, acts, j);
      if j < |acts| - 1 {
        BasesRise(s, acts, j, |acts| - 1);
        BaseUnder(s, acts, j);
      }
    }
  }

  lemma BaseUnder(s: State, acts: seq<Act>, j: nat)
    requires Inv(s, acts) && j < |acts| - 1
    ensures acts[j].base <= CurrentBase(Below(acts))
  {
    hide FormalsOk, KindOk, FrameOk, OpsOk, Cached;
    assert Below(acts)[j] == acts[j];
    GoodAt(s.stack, Below(acts), j);
  }

  /**
   A for statement called in s, from its call to FOR8: block and stack of the caller are those of
   before, whatever its body and its elements did, and the machine goes on behind the statement.
   */
  lemma ForStatementBalanced(s: State, acts: seq<Act>, target: nat, evs: seq<Event>, v: Values,
                             s2: State, acts2: seq<Act>, goal: nat)
    requires var first := Call(Null, 0, target);
             && Inv(s, acts) && Legal(s, acts, first) && CanStep(s, acts, first)
             && Inner(Next(s, acts, first, v), NextActs(s, acts, first), evs, v, |acts|, s2, acts2)
    requires Top(acts2).kind == Inside && s2.stackBase < |s2.stack|
    ensures CanLeaveFor(s2, goal)
    ensures var s3 := ForLeft(s2, goal, v);
            && Inv(s3, acts) && SameBlock(s, s3, acts) && s3.ot == goal && |s3.stack| == |s.stack|
            && forall c :: 0 <= c < |s.stack| && Spared(evs, c) ==> s3.stack[c] == s.stack[c]
  {
    hide Legal, CanStep, Next, NextActs, Inv, Run, Possible, Above, Spared, SameBlock, CanLeaveFor, ForLeft;
    var first := Call(Null, 0, target);
    var t, acts1 := Next(s, acts, first, v), NextActs(s, acts, first);
    EnteredByEvent(s, acts, first, v);
    EntryAct(s, acts, first);
    PossibleIsLegal(t, acts1, evs, v);
    RunKeeps(t, acts1, evs, v);
    RunLocal(t, acts1, evs, v, |acts|);
    assert Below(acts2) == acts;
    ForLeaves(s2, acts2, goal, v);
    TopFrame(s2, acts2);
    SameEnvironment(s, ForLeft(s2, goal, v), acts);
    forall c | 0 <= c < |s.stack| && Spared(evs, c) ensures ForLeft(s2, goal, v).stack[c] == s.stack[c] {
      RunCell(t, acts1, evs, v, |acts|, c);
    }
  }

  // The subroutine of a for statement has been called; at the global level the stack was empty.
  predicate ForCalled(s: State, acts: seq<Act>) {
    && Inv(s, acts) && acts != [] && Top(acts).kind == Calling && (|acts| > 1 || Top(acts).frame == 1)
    && EnvironmentLevel(acts) + 1 < LEVELS
  }

  // What FOR0 does there: a cell of its own, and a block one level further in than the one around.
  function ForEvents(acts: seq<Act>): seq<Event> {
    [Reserve(Cleared(1)), Enter(EnvironmentLevel(acts) + 1)]
  }

  lemma ForEntered(s: State, acts: seq<Act>, v: Values)
    requires ForCalled(s, acts)
    ensures var s1, level := Reserved(s, Cleared(1)), AddressAt(s.stack, AddressAt(s.stack, s.framePtr + FP) + BN) + 1;
            && Possible(s, acts, ForEvents(acts), v)
            && ARG <= s1.stackBase && BlockLevel(s1) == 0 && CanSetLevel(s1, level)
            && Run(s, acts, ForEvents(acts), v).0 == Entered(s1, level)
  {
    hide Inv, AddressAt, EnvironmentLevel, CanSetLevel, Entered, Reserved, BlockLevel, Possible, Run, LegalRun;
    ForLevel(s, acts);
    var level := EnvironmentLevel(acts) + 1;
    ReserveKeeps(s, acts, Reserve(Cleared(1)), v);
    ReservedCall(s, acts, Cleared(1));
    var s1, acts1 := Reserved(s, Cleared(1)), NextActs(s, acts, Reserve(Cleared(1)));
    EnterKeeps(s1, acts1, Enter(level), v);
    TwoEvents(s, acts, Reserve(Cleared(1)), Enter(level), v);
    AtLevelZero(s1, acts1);
    assert Run(s, acts, ForEvents(acts), v).0 == Next(s1, acts1, Enter(level), v) == Entered(s1, level);
  }

  // A called procedure that has not entered its block yet has no level.
  lemma AtLevelZero(s: State, acts: seq<Act>)
    requires Inv(s, acts) && acts != [] && Top(acts).kind == Calling
    ensures BlockLevel(s) == 0
  {
    hide FormalsOk, OpsOk, Cached;
    TopOk(s, acts);
    LevelIs(s, acts);
  }

  lemma ReservedCall(s: State, acts: seq<Act>, cells: seq<Cell>)
    requires acts != [] && Top(acts).kind == Calling
    ensures Legal(s, acts, Reserve(cells))
    ensures var acts1 := NextActs(s, acts, Reserve(cells));
            acts1 != [] && Top(acts1).kind == Calling && EnvironmentLevel(acts1) == EnvironmentLevel(acts)
  {
    assert Below(NextActs(s, acts, Reserve(cells))) == Below(acts);
    CallingEnvironment(acts);
    CallingEnvironment(NextActs(s, acts, Reserve(cells)));
  }

  lemma TwoEvents(s: State, acts: seq<Act>, first: Event, second: Event, v: Values)
    requires Legal(s, acts, first) && CanStep(s, acts, first)
    requires var s1, acts1 := Next(s, acts, first, v), NextActs(s, acts, first);
             Legal(s1, acts1, second) && CanStep(s1, acts1, second)
    ensures Possible(s, acts, [first, second], v)
    ensures Run(s, acts, [first, second], v).0
         == Next(Next(s, acts, first, v), NextActs(s, acts, first), second, v)
  {
    hide Legal, CanStep, Next, NextActs;
    assert [first, second][1..] == [second] && [second][1..] == [];
    var s1, acts1 := Next(s, acts, first, v), NextActs(s, acts, first);
    var s2, acts2 := Next(s1, acts1, second, v), NextActs(s1, acts1, second);
    assert Possible(s2, acts2, [], v) && Run(s2, acts2, [], v) == (s2, acts2);
    assert Possible(s1, acts1, [second], v) && Run(s1, acts1, [second], v) == (s2, acts2);
  }
}
