/**
  What a rule does for a contact, read off its tree: which steps are performed,
  in which order, how each ends, and which are recorded without being performed.
  The walk that parks and resumes comes to exactly that.
 */
module AutomationPath {
  import opened Wrappers
  import opened Sequences
  import opened AutomationSteps
  import opened AutomationFlow
  import opened AutomationResume

  // ----- reading the tree

  /** A question answered towards one of its two branches: "no" is also what one not filled in or without a contact gets. */
  predicate Towards(world: World, q: Step, yes: bool)
  {
    && q.kind.Condition?
    && (yes ==> world.asks(q) && world.contactKnown && world.answer(q) == Matched)
    && (!yes ==> !world.asks(q) || !world.contactKnown || world.answer(q) == Unmatched)
  }

  /** Every question around the step was answered towards the branch the step is in. */
  ghost predicate Led(world: World, tree: seq<Step>, id: string)
  {
    forall q :: Within(tree, q) ==> LedBy(world, q, id)
  }

  ghost predicate LedBy(world: World, q: Step, id: string)
  {
    (id in Ids(q.yes) ==> Towards(world, q, true)) && (id in Ids(q.no) ==> Towards(world, q, false))
  }

  /** The steps that end a run: a question the database cannot answer, a wait without a length, a failing action that must not fail. */
  predicate Stops(world: World, s: Step)
  {
    match s.kind
    case Condition => world.asks(s) && world.contactKnown && world.answer(s) == Broken
    case Wait => world.waitLength(s).None?
    case Action(_) => !s.continueOnError && !(world.complete(s) && world.works(s))
  }

  /** How a performed step ends. */
  predicate EndsAs(world: World, s: Step, r: ActionResult)
  {
    && r.id == s.id && r.kind == s.kind
    && match s.kind
       case Condition =>
         if Stops(world, s) then r.status == Failed && r.note == Plain
         else r.status == Succeeded && r.note == Branch(Towards(world, s, true))
       case Wait => r.note == Plain && r.status == if world.waitLength(s).Some? then Succeeded else Failed
       case Action(_) => r.note == Plain && r.status == if world.complete(s) && world.works(s) then Succeeded else Failed
  }

  /** In written order, `a` comes before `b`. */
  ghost predicate Before(ids: seq<string>, a: string, b: string)
  {
    exists i, j :: 0 <= i < j < |ids| && ids[i] == a && ids[j] == b
  }

  ghost predicate InWrittenOrder(xs: seq<string>, ids: seq<string>)
  {
    forall i, j :: 0 <= i < j < |xs| ==> Before(ids, xs[i], xs[j])
  }

  // ----- the path through the tree

  /** The steps the answers lead to, as if nothing stopped the run. */
  function Path(world: World, steps: seq<Step>): seq<Step>
    decreases steps, 2
  {
    if steps == [] then [] else Turn(world, steps[0]) + Path(world, steps[1..])
  }

  /** One step and what its answer leads to. */
  function Turn(world: World, s: Step): seq<Step>
    decreases s, 1
  {
    [s] + Taken(world, s)
  }

  function Taken(world: World, s: Step): seq<Step>
    decreases s, 0
  {
    if Towards(world, s, true) then Path(world, s.yes)
    else if Towards(world, s, false) then Path(world, s.no)
    else []
  }

  /** Up to and including the first step that stops the run. */
  function UntilStop(world: World, path: seq<Step>): seq<Step>
  {
    if path == [] then []
    else if Stops(world, path[0]) then [path[0]]
    else [path[0]] + UntilStop(world, path[1..])
  }

  predicate NoneStops(world: World, path: seq<Step>)
  {
    forall i :: 0 <= i < |path| ==> !Stops(world, path[i])
  }

  function Outcome(world: World, s: Step): (r: ActionResult)
    ensures EndsAs(world, s, r)
  {
    if s.kind.Condition? then
      if Stops(world, s) then ActionResult(s.id, s.kind, Failed, Plain)
      else ActionResult(s.id, s.kind, Succeeded, Branch(Towards(world, s, true)))
    else if s.kind.Wait? then
      ActionResult(s.id, s.kind, if world.waitLength(s).Some? then Succeeded else Failed, Plain)
    else
      ActionResult(s.id, s.kind, if world.complete(s) && world.works(s) then Succeeded else Failed, Plain)
  }

  function Outcomes(world: World, path: seq<Step>): (r: seq<ActionResult>)
    ensures |r| == |path|
  {
    seq(|path|, i requires 0 <= i < |path| => Outcome(world, path[i]))
  }

  lemma FirstStops(world: World, path: seq<Step>)
    requires path != []
    ensures NoneStops(world, path) <==> !Stops(world, path[0]) && NoneStops(world, path[1..])
  {
    if NoneStops(world, path[1..]) {
      assert forall i :: 1 <= i < |path| ==> path[i] == path[1..][i - 1];
    }
  }

  lemma FirstAndRest<T>(a: seq<T>, b: seq<T>)
    requires a != []
    ensures [a[0]] + (a[1..] + b) == a + b
  {
  }

  lemma {:induction false} UntilStopAppend(world: World, a: seq<Step>, b: seq<Step>)
    ensures UntilStop(world, a + b) == if NoneStops(world, a) then a + UntilStop(world, b) else UntilStop(world, a)
    decreases |a|
  {
    if a == [] {
      assert a + b == b;
    } else {
      assert (a + b)[1..] == a[1..] + b;
      UntilStopAppend(world, a[1..], b);
      FirstStops(world, a);
      FirstAndRest(a, UntilStop(world, b));
    }
  }

  lemma OutcomesConcat(world: World, a: seq<Step>, b: seq<Step>)
    ensures Outcomes(world, a + b) == Outcomes(world, a) + Outcomes(world, b)
  {
  }

  lemma {:induction false} ExecutedConcat(a: seq<ActionResult>, b: seq<ActionResult>)
    ensures Executed(a + b) == Executed(a) + Executed(b)
    decreases |a|
  {
    if a == [] {
      assert a + b == b;
    } else {
      assert (a + b)[1..] == a[1..] + b;
      ExecutedConcat(a[1..], b);
    }
  }

  lemma {:induction false} ExecutedSkips(steps: seq<Step>)
    ensures Executed(SkippedAll(steps)) == []
  {
    if steps != [] {
      assert SkippedAll(steps)[1..] == SkippedAll(steps[1..]);
      ExecutedSkips(steps[1..]);
    }
  }

  /** What a walk over a path has done: nothing once stopped, otherwise the path up to the first stop. */
  ghost predicate Follows(world: World, path: seq<Step>, p: Progress, q: Progress)
  {
    && q.paused.None?
    && Executed(q.results) ==
         Executed(p.results) + (if p.stopped then [] else Outcomes(world, UntilStop(world, path)))
    && (q.stopped <==> p.stopped || !NoneStops(world, path))
  }

  lemma FollowsTwice(world: World, a: seq<Step>, b: seq<Step>, p: Progress, q: Progress, r: Progress)
    requires Follows(world, a, p, q) && Follows(world, b, q, r)
    ensures Follows(world, a + b, p, r)
  {
    UntilStopAppend(world, a, b);
    NoneStopsConcat(world, a, b);
    if !p.stopped && NoneStops(world, a) {
      NoneStopsUntil(world, a);
      OutcomesConcat(world, a, UntilStop(world, b));
      Regroup(Executed(p.results), Outcomes(world, a), Outcomes(world, UntilStop(world, b)));
    } else {
      assert Executed(q.results) + [] == Executed(q.results);
    }
  }

  lemma Regroup(a: seq<ActionResult>, b: seq<ActionResult>, c: seq<ActionResult>)
    ensures a + b + c == a + (b + c)
  {
  }

  lemma NoneStopsConcat(world: World, a: seq<Step>, b: seq<Step>)
    ensures NoneStops(world, a + b) <==> NoneStops(world, a) && NoneStops(world, b)
  {
    assert forall i :: 0 <= i < |a| ==> (a + b)[i] == a[i];
    assert forall i :: 0 <= i < |b| ==> (a + b)[|a| + i] == b[i];
  }

  lemma {:induction false} NoneStopsUntil(world: World, a: seq<Step>)
    ensures NoneStops(world, a) ==> UntilStop(world, a) == a
  {
    if a != [] && NoneStops(world, a) {
      assert NoneStops(world, a[1..]);
      NoneStopsUntil(world, a[1..]);
    }
  }

  lemma {:induction false} StepFollows(world: World, s: Step, p: Progress)
    requires p.paused.None? && !p.stopped
    ensures Follows(world, Turn(world, s), p, Perform(Uninterrupted(world), s, p))
    decreases s
  {
    var q := p.Add(Outcome(world, s)).(stopped := Stops(world, s));
    ExecutedConcat(p.results, [Outcome(world, s)]);
    assert [Outcome(world, s)][1..] == [] && Outcomes(world, [s]) == [Outcome(world, s)];
    assert UntilStop(world, [s]) == [s];
    assert NoneStops(world, [s]) <==> !Stops(world, s) by {
      assert [s][0] == s;
    }
    assert Follows(world, [s], p, q);
    if Towards(world, s, true) {
      WalkFollows(world, s.yes, q);
      FollowsTwice(world, [s], Path(world, s.yes), p, q, Walk(Uninterrupted(world), s.yes, q));
    } else if Towards(world, s, false) {
      WalkFollows(world, s.no, q);
      FollowsTwice(world, [s], Path(world, s.no), p, q, Walk(Uninterrupted(world), s.no, q));
    } else {
      assert [s] + [] == [s];
    }
  }

  lemma {:induction false} WalkFollows(world: World, steps: seq<Step>, p: Progress)
    requires p.paused.None?
    ensures Follows(world, Path(world, steps), p, Walk(Uninterrupted(world), steps, p))
    decreases steps
  {
    if steps == [] {
      assert Outcomes(world, UntilStop(world, [])) == [];
    } else if p.stopped {
      ExecutedConcat(p.results, SkippedAll(steps));
      ExecutedSkips(steps);
    } else {
      var q := Perform(Uninterrupted(world), steps[0], p);
      StepFollows(world, steps[0], p);
      WalkFollows(world, steps[1..], q);
      FollowsTwice(world, Turn(world, steps[0]), Path(world, steps[1..]), p, q, Walk(Uninterrupted(world), steps, p));
    }
  }

  // ----- the path is what the answers say

  function StepIds(path: seq<Step>): (ids: seq<string>)
    ensures |ids| == |path|
  {
    seq(|path|, i requires 0 <= i < |path| => path[i].id)
  }

  lemma {:induction false} WithinIds(steps: seq<Step>, q: Step)
    requires Within(steps, q)
    ensures q.id in Ids(steps)
    ensures forall x :: x in Ids(q.yes) || x in Ids(q.no) ==> x in Ids(steps)
    decreases steps
  {
    if steps[0] != q {
      if Within(steps[0].yes, q) {
        WithinIds(steps[0].yes, q);
      } else if Within(steps[0].no, q) {
        WithinIds(steps[0].no, q);
      } else {
        WithinIds(steps[1..], q);
      }
    }
  }

  /** Which part of the tree an id is in decides which questions can be around it. */
  lemma {:induction false} LedByOutside(world: World, steps: seq<Step>, q: Step, id: string)
    requires Within(steps, q) && id !in Ids(steps)
    ensures LedBy(world, q, id)
  {
    WithinIds(steps, q);
  }

  lemma {:induction false} LedInRest(world: World, steps: seq<Step>, id: string)
    requires steps != [] && Distinct(Ids(steps)) && id in Ids(steps[1..])
    ensures Led(world, steps, id) <==> Led(world, steps[1..], id)
  {
    DistinctStep(steps);
    forall q | Within(steps, q) && !Within(steps[1..], q)
      ensures LedBy(world, q, id)
    {
      if q != steps[0] {
        LedByOutside(world, if Within(steps[0].yes, q) then steps[0].yes else steps[0].no, q, id);
      }
    }
  }

  lemma {:induction false} LedInBranch(world: World, steps: seq<Step>, yes: bool, id: string)
    requires steps != [] && Distinct(Ids(steps)) && id in Ids(if yes then steps[0].yes else steps[0].no)
    ensures Led(world, steps, id) <==>
            Towards(world, steps[0], yes) && Led(world, if yes then steps[0].yes else steps[0].no, id)
  {
    DistinctStep(steps);
    var branch := if yes then steps[0].yes else steps[0].no;
    assert Within(steps, steps[0]) && (LedBy(world, steps[0], id) <==> Towards(world, steps[0], yes));
    forall q | Within(steps, q) && q != steps[0] && !Within(branch, q)
      ensures LedBy(world, q, id)
    {
      LedByOutside(world,
        if Within(steps[0].yes, q) then steps[0].yes else if Within(steps[0].no, q) then steps[0].no else steps[1..], q, id);
    }
  }

  lemma {:induction false} HeadIsLed(world: World, steps: seq<Step>)
    requires steps != [] && Distinct(Ids(steps))
    ensures Led(world, steps, steps[0].id)
  {
    DistinctStep(steps);
    forall q | Within(steps, q) && q != steps[0]
      ensures LedBy(world, q, steps[0].id)
    {
      LedByOutside(world,
        if Within(steps[0].yes, q) then steps[0].yes else if Within(steps[0].no, q) then steps[0].no else steps[1..],
        q, steps[0].id);
    }
  }

  lemma InStepIds(path: seq<Step>, id: string)
    ensures id in StepIds(path) <==> exists i :: 0 <= i < |path| && path[i].id == id
  {
    if i :| 0 <= i < |path| && path[i].id == id {
      assert StepIds(path)[i] == id;
    }
  }

  lemma StepIdsConcat(a: seq<Step>, b: seq<Step>)
    ensures StepIds(a + b) == StepIds(a) + StepIds(b)
  {
  }

  /** Steps of a tree, in its written order. */
  ghost predicate Along(path: seq<Step>, ids: seq<string>)
  {
    (forall x :: x in StepIds(path) ==> x in ids) && InWrittenOrder(StepIds(path), ids)
  }

  lemma AlongConcat(a: seq<Step>, xs: seq<string>, b: seq<Step>, ys: seq<string>)
    requires Along(a, xs) && Along(b, ys)
    ensures Along(a + b, xs + ys)
  {
    StepIdsConcat(a, b);
    OrderConcat(StepIds(a), xs, StepIds(b), ys);
  }

  lemma AlongOneBranch(path: seq<Step>, yes: seq<string>, no: seq<string>)
    requires Along(path, yes) || Along(path, no)
    ensures Along(path, yes + no)
  {
    Widen(StepIds(path), [], yes, no);
    Widen(StepIds(path), yes, no, []);
    assert [] + yes + no == yes + no && yes + no + [] == yes + no;
  }

  /** The path holds steps of the tree, in written order. */
  lemma {:induction false} PathIsAlong(world: World, steps: seq<Step>)
    ensures Along(Path(world, steps), Ids(steps))
    decreases steps, 1
  {
    if steps != [] {
      var s, rest := steps[0], steps[1..];
      TurnIsAlong(world, s);
      PathIsAlong(world, rest);
      AlongConcat(Turn(world, s), [s.id] + (Ids(s.yes) + Ids(s.no)), Path(world, rest), Ids(rest));
      IdsInParts(steps);
    }
  }

  lemma IdsInParts(steps: seq<Step>)
    requires steps != []
    ensures [steps[0].id] + (Ids(steps[0].yes) + Ids(steps[0].no)) + Ids(steps[1..]) == Ids(steps)
  {
  }

  lemma {:induction false} TurnIsAlong(world: World, s: Step)
    ensures Along(Turn(world, s), [s.id] + (Ids(s.yes) + Ids(s.no)))
    decreases s, 1
  {
    TakenIsAlong(world, s);
    assert StepIds([s]) == [s.id];
    AlongConcat([s], [s.id], Taken(world, s), Ids(s.yes) + Ids(s.no));
  }

  lemma {:induction false} TakenIsAlong(world: World, s: Step)
    ensures Along(Taken(world, s), Ids(s.yes) + Ids(s.no))
    decreases s, 0
  {
    PathIsAlong(world, s.yes);
    PathIsAlong(world, s.no);
    AlongOneBranch(Taken(world, s), Ids(s.yes), Ids(s.no));
  }

  lemma {:induction false} PathIsWithin(world: World, steps: seq<Step>, i: nat)
    requires i < |Path(world, steps)|
    ensures Within(steps, Path(world, steps)[i])
    decreases steps
  {
    var s := steps[0];
    var own := Turn(world, s);
    if i >= |own| {
      PathIsWithin(world, steps[1..], i - |own|);
    } else if i > 0 {
      assert Path(world, steps)[i] == own[i] == Taken(world, s)[i - 1];
      if Towards(world, s, true) {
        PathIsWithin(world, s.yes, i - 1);
      } else {
        PathIsWithin(world, s.no, i - 1);
      }
    }
  }

  lemma Widen(xs: seq<string>, before: seq<string>, ids: seq<string>, after: seq<string>)
    ensures InWrittenOrder(xs, ids) ==> InWrittenOrder(xs, before + ids + after)
  {
    if InWrittenOrder(xs, ids) {
      forall i, j | 0 <= i < j < |xs|
        ensures Before(before + ids + after, xs[i], xs[j])
      {
        var a, b :| 0 <= a < b < |ids| && ids[a] == xs[i] && ids[b] == xs[j];
        assert (before + ids + after)[|before| + a] == xs[i] && (before + ids + after)[|before| + b] == xs[j];
      }
    }
  }

  lemma OrderConcat(x: seq<string>, xs: seq<string>, y: seq<string>, ys: seq<string>)
    requires InWrittenOrder(x, xs) && InWrittenOrder(y, ys)
    requires (forall a :: a in x ==> a in xs) && (forall a :: a in y ==> a in ys)
    ensures InWrittenOrder(x + y, xs + ys)
  {
    Widen(x, [], xs, ys);
    Widen(y, xs, ys, []);
    assert [] + xs + ys == xs + ys && xs + ys + [] == xs + ys;
    forall i, j | 0 <= i < j < |x + y|
      ensures Before(xs + ys, (x + y)[i], (x + y)[j])
    {
      if i < |x| <= j {
        assert x[i] in x;
        var a :| 0 <= a < |xs| && xs[a] == x[i];
        assert y[j - |x|] in y;
        var b :| 0 <= b < |ys| && ys[b] == y[j - |x|];
        assert (xs + ys)[a] == x[i] && (xs + ys)[|xs| + b] == y[j - |x|];
      } else if j < |x| {
        assert Before(xs + ys, x[i], x[j]);
      } else {
        assert Before(xs + ys, y[i - |x|], y[j - |x|]);
      }
    }
  }

  /** A step is on the path exactly when every question around it was answered towards it. */
  lemma {:induction false} LedIffOnPath(world: World, steps: seq<Step>, id: string)
    requires Distinct(Ids(steps)) && id in Ids(steps)
    ensures id in StepIds(Path(world, steps)) <==> Led(world, steps, id)
    decreases steps
  {
    var s, rest := steps[0], steps[1..];
    DistinctStep(steps);
    StepIdsConcat([s], Taken(world, s));
    StepIdsConcat(Turn(world, s), Path(world, rest));
    assert StepIds([s]) == [s.id];
    PathIsAlong(world, rest);
    PathIsAlong(world, s.yes);
    PathIsAlong(world, s.no);
    if id == s.id {
      HeadIsLed(world, steps);
    } else if id in Ids(s.yes) {
      LedInBranch(world, steps, true, id);
      LedIffOnPath(world, s.yes, id);
    } else if id in Ids(s.no) {
      LedInBranch(world, steps, false, id);
      LedIffOnPath(world, s.no, id);
    } else {
      LedInRest(world, steps, id);
      LedIffOnPath(world, rest, id);
    }
  }

  // ----- what is performed

  lemma {:induction false} UntilStopIsPrefix(world: World, path: seq<Step>)
    ensures UntilStop(world, path) <= path
    ensures forall i :: 0 <= i < |UntilStop(world, path)| - 1 ==> !Stops(world, path[i])
    ensures var n := |UntilStop(world, path)|; n < |path| ==> n > 0 && Stops(world, path[n - 1])
  {
    if path != [] && !Stops(world, path[0]) {
      UntilStopIsPrefix(world, path[1..]);
      var rest := UntilStop(world, path[1..]);
      assert path == [path[0]] + path[1..];
      assert forall i :: 0 < i < |rest| ==> path[i] == path[1..][i - 1];
    }
  }

  lemma {:induction false} SameStep(steps: seq<Step>, a: Step, b: Step)
    requires Distinct(Ids(steps)) && Within(steps, a) && Within(steps, b) && a.id == b.id
    ensures a == b
    decreases steps
  {
    DistinctStep(steps);
    var s, rest := steps[0], steps[1..];
    WithinIds(steps, a);
    WithinPart(steps, a);
    WithinPart(steps, b);
    if a.id in Ids(s.yes) {
      SameStep(s.yes, a, b);
    } else if a.id in Ids(s.no) {
      SameStep(s.no, a, b);
    } else if a.id in Ids(rest) {
      SameStep(rest, a, b);
    }
  }

  /** Where a step's id is, there is the step. */
  lemma {:induction false} WithinPart(steps: seq<Step>, a: Step)
    requires Distinct(Ids(steps)) && Within(steps, a)
    ensures a.id in Ids(steps[0].yes) ==> Within(steps[0].yes, a)
    ensures a.id in Ids(steps[0].no) ==> Within(steps[0].no, a)
    ensures a.id in Ids(steps[1..]) ==> Within(steps[1..], a)
    ensures a.id == steps[0].id ==> a == steps[0]
  {
    DistinctStep(steps);
    if Within(steps[0].yes, a) {
      WithinIds(steps[0].yes, a);
    }
    if Within(steps[0].no, a) {
      WithinIds(steps[0].no, a);
    }
    if Within(steps[1..], a) {
      WithinIds(steps[1..], a);
    }
  }

  lemma NotBothWays(ids: seq<string>, a: string, b: string)
    requires Distinct(ids) && Before(ids, a, b)
    ensures !Before(ids, b, a) && a != b
  {
    var i, j :| 0 <= i < j < |ids| && ids[i] == a && ids[j] == b;
    forall k, l | 0 <= k < l < |ids|
      ensures ids[k] != b || ids[l] != a
    {
      if k < j {
        assert ids[k] != ids[j];
      } else {
        assert ids[i] != ids[l];
      }
    }
  }

  /** No step performed earlier stops the run. */
  ghost predicate Unstopped(world: World, tree: seq<Step>, done: seq<string>, id: string)
  {
    forall t :: Within(tree, t) && t.id in done && Before(Ids(tree), t.id, id) ==> !Stops(world, t)
  }

  lemma {:induction false} PerformedIffUnstopped(world: World, tree: seq<Step>, id: string)
    requires Distinct(Ids(tree)) && id in StepIds(Path(world, tree))
    ensures var done := StepIds(UntilStop(world, Path(world, tree)));
      id in done <==> Unstopped(world, tree, done, id)
  {
    var path := Path(world, tree);
    var done := UntilStop(world, path);
    PathIsAlong(world, tree);
    UntilStopIsPrefix(world, path);
    InStepIds(path, id);
    var k :| 0 <= k < |path| && path[k].id == id;
    assert StepIds(path)[k] == id;
    if k < |done| {
      assert StepIds(done)[k] == id;
      forall t | Within(tree, t) && t.id in StepIds(done) && Before(Ids(tree), t.id, id)
        ensures !Stops(world, t)
      {
        EarlierOnPath(world, tree, k, t);
      }
    } else {
      var last := path[|done| - 1];
      PathIsWithin(world, tree, |done| - 1);
      assert StepIds(done)[|done| - 1] == last.id && StepIds(path)[|done| - 1] == last.id;
      assert Before(Ids(tree), last.id, id);
      forall j | 0 <= j < |done|
        ensures StepIds(done)[j] != id
      {
        assert Before(Ids(tree), StepIds(path)[j], StepIds(path)[k]);
        NotBothWays(Ids(tree), StepIds(path)[j], StepIds(path)[k]);
      }
    }
  }

  lemma OrderOnPath(ids: seq<string>, xs: seq<string>, j: nat, k: nat)
    requires Distinct(ids) && InWrittenOrder(xs, ids) && j < |xs| && k < |xs| && Before(ids, xs[j], xs[k])
    ensures j < k
  {
    assert j > k ==> Before(ids, xs[k], xs[j]);
    NotBothWays(ids, xs[j], xs[k]);
  }

  lemma {:induction false} EarlierOnPath(world: World, tree: seq<Step>, k: nat, t: Step)
    requires Distinct(Ids(tree)) && Within(tree, t) && k < |UntilStop(world, Path(world, tree))| <= |Path(world, tree)|
    requires t.id in StepIds(UntilStop(world, Path(world, tree)))
    requires Before(Ids(tree), t.id, Path(world, tree)[k].id)
    ensures !Stops(world, t)
  {
    var path := Path(world, tree);
    var done := UntilStop(world, path);
    PathIsAlong(world, tree);
    UntilStopIsPrefix(world, path);
    InStepIds(done, t.id);
    var j :| 0 <= j < |done| && done[j].id == t.id;
    PathIsWithin(world, tree, j);
    SameStep(tree, t, path[j]);
    assert StepIds(path)[j] == t.id && StepIds(path)[k] == path[k].id;
    OrderOnPath(Ids(tree), StepIds(path), j, k);
  }

  /** What was performed, and how it ended: the whole meaning of a rule for a contact. */
  ghost predicate Meant(world: World, tree: seq<Step>, done: seq<ActionResult>)
  {
    // Exactly the steps the answers lead to that no step performed before them stops,
    && (forall id :: id in ResultIds(done) <==>
          id in Ids(tree) && Led(world, tree, id) && Unstopped(world, tree, ResultIds(done), id))
    // in written order, each once,
    && InWrittenOrder(ResultIds(done), Ids(tree))
    && Distinct(ResultIds(done))
    // each ended as its kind says.
    && (forall i, s :: 0 <= i < |done| && Within(tree, s) && s.id == done[i].id ==> EndsAs(world, s, done[i]))
  }

  lemma TakenExactly(world: World, tree: seq<Step>, id: string)
    requires Distinct(Ids(tree))
    ensures var taken := StepIds(UntilStop(world, Path(world, tree)));
      id in taken <==> id in Ids(tree) && Led(world, tree, id) && Unstopped(world, tree, taken, id)
  {
    var path := Path(world, tree);
    PathIsAlong(world, tree);
    UntilStopIsPrefix(world, path);
    InStepIds(path, id);
    InStepIds(UntilStop(world, path), id);
    if id in Ids(tree) {
      LedIffOnPath(world, tree, id);
    }
    if id in StepIds(path) {
      PerformedIffUnstopped(world, tree, id);
    }
  }

  lemma TakenInOrder(world: World, tree: seq<Step>)
    requires Distinct(Ids(tree))
    ensures var taken := StepIds(UntilStop(world, Path(world, tree)));
      InWrittenOrder(taken, Ids(tree)) && Distinct(taken)
  {
    var path := Path(world, tree);
    var taken := UntilStop(world, path);
    UntilStopIsPrefix(world, path);
    PathIsAlong(world, tree);
    assert forall i :: 0 <= i < |taken| ==> StepIds(taken)[i] == StepIds(path)[i];
    forall i, j | 0 <= i < j < |taken|
      ensures StepIds(taken)[i] != StepIds(taken)[j]
    {
      NotBothWays(Ids(tree), StepIds(taken)[i], StepIds(taken)[j]);
    }
  }

  lemma TakenEnds(world: World, tree: seq<Step>, done: seq<ActionResult>, i: nat, s: Step)
    requires Distinct(Ids(tree)) && done == Outcomes(world, UntilStop(world, Path(world, tree)))
    requires i < |done| && Within(tree, s) && s.id == done[i].id
    ensures EndsAs(world, s, done[i])
  {
    var path := Path(world, tree);
    UntilStopIsPrefix(world, path);
    PathIsWithin(world, tree, i);
    SameStep(tree, s, path[i]);
  }

  lemma {:induction false} UninterruptedMeans(world: World, tree: seq<Step>)
    requires Distinct(Ids(tree))
    ensures Meant(world, tree, Executed(Walk(Uninterrupted(world), tree, FRESH).results))
  {
    var taken := UntilStop(world, Path(world, tree));
    var done := Outcomes(world, taken);
    WalkFollows(world, tree, FRESH);
    assert Executed(FRESH.results) + done == done;
    assert ResultIds(done) == StepIds(taken);
    TakenInOrder(world, tree);
    forall id
      ensures id in StepIds(taken) <==>
        id in Ids(tree) && Led(world, tree, id) && Unstopped(world, tree, StepIds(taken), id)
    {
      TakenExactly(world, tree, id);
    }
    forall i, s | 0 <= i < |done| && Within(tree, s) && s.id == done[i].id
      ensures EndsAs(world, s, done[i])
    {
      TakenEnds(world, tree, done, i, s);
    }
  }

  /**
    Main result. Whenever and however often it parked and was resumed, a run that
    no longer waits has performed exactly the steps every question around which
    was answered towards them and before which no performed step stops the run; in
    written order, once each; and each ended as its kind and settings say.
   */
  lemma FinishedRunMeans(world: World, tree: seq<Step>, now: int, resumes: seq<int>)
    requires Distinct(Ids(tree))
    ensures var run := RunToEnd(world, tree, now, resumes);
      run.paused.None? ==> Meant(world, tree, Executed(run.results))
  {
    UninterruptedMeans(world, tree);
    WaitingIsInvisible(world, tree, now, resumes);
  }

  // ----- what is only recorded

  ghost predicate Around(q: Step, id: string)
  {
    id in Ids(q.yes) || id in Ids(q.no)
  }

  /** The question was performed and answered towards the branch the step is in. */
  ghost predicate OpenedBy(world: World, q: Step, done: seq<string>, id: string)
  {
    LedBy(world, q, id) && (Around(q, id) ==> q.id in done)
  }

  /** All questions around the step were performed and answered towards it. */
  ghost predicate Opened(world: World, steps: seq<Step>, done: seq<string>, id: string)
  {
    forall q :: Within(steps, q) ==> OpenedBy(world, q, done, id)
  }

  /** The questions around a step are in the same part of the tree, or are the first step. */
  lemma {:induction false} AroundPlace(steps: seq<Step>, q: Step, id: string)
    requires Distinct(Ids(steps)) && Within(steps, q) && Around(q, id)
    ensures id != steps[0].id
    ensures id in Ids(steps[0].yes) ==> q == steps[0] || Within(steps[0].yes, q)
    ensures id in Ids(steps[0].no) ==> q == steps[0] || Within(steps[0].no, q)
    ensures id in Ids(steps[1..]) ==> Within(steps[1..], q)
  {
    DistinctStep(steps);
    if Within(steps[0].yes, q) {
      WithinIds(steps[0].yes, q);
    }
    if Within(steps[0].no, q) {
      WithinIds(steps[0].no, q);
    }
    if Within(steps[1..], q) {
      WithinIds(steps[1..], q);
    }
  }

  /** What one walk over a list records: `more` from nothing performed before it in the list. */
  ghost predicate Records(world: World, steps: seq<Step>, more: seq<ActionResult>)
  {
    && (forall id :: id in ResultIds(more) <==> id in Ids(steps) && Opened(world, steps, ResultIds(Executed(more)), id))
    && (forall i, s :: 0 <= i < |more| && Within(steps, s) && s.id == more[i].id && more[i].status == Skipped ==>
          more[i] == ActionResult(s.id, s.kind, Skipped, Plain))
  }

  lemma {:induction false} ExecutedIds(more: seq<ActionResult>)
    ensures forall id :: id in ResultIds(Executed(more)) ==> id in ResultIds(more)
  {
    if more != [] {
      ExecutedIds(more[1..]);
      assert more == [more[0]] + more[1..];
      ResultIdsConcat([more[0]], more[1..]);
      ExecutedConcat([more[0]], more[1..]);
      assert [more[0]][1..] == [];
      ResultIdsConcat(Executed([more[0]]), Executed(more[1..]));
      assert ResultIds([more[0]]) == [more[0].id];
    }
  }

  lemma {:induction false} SkipsRecord(world: World, steps: seq<Step>)
    requires Distinct(Ids(steps))
    ensures Records(world, steps, SkippedAll(steps))
  {
    ExecutedSkips(steps);
    forall id
      ensures id in ResultIds(SkippedAll(steps)) <==> id in Ids(steps) && Opened(world, steps, [], id)
    {
      TopLevel(world, steps, id);
    }
    forall i, s | 0 <= i < |steps| && Within(steps, s) && s.id == steps[i].id
      ensures s == steps[i]
    {
      TopIsWithin(steps, i);
      SameStep(steps, s, steps[i]);
    }
  }

  lemma {:induction false} TopIsWithin(steps: seq<Step>, i: nat)
    requires i < |steps|
    ensures Within(steps, steps[i])
  {
    if i > 0 {
      TopIsWithin(steps[1..], i - 1);
    }
  }

  lemma {:induction false} TopLevel(world: World, steps: seq<Step>, id: string)
    requires Distinct(Ids(steps))
    ensures id in ResultIds(SkippedAll(steps)) <==> id in Ids(steps) && Opened(world, steps, [], id)
  {
    if steps != [] {
      DistinctStep(steps);
      TopLevel(world, steps[1..], id);
      assert SkippedAll(steps) == [SkippedResult(steps[0])] + SkippedAll(steps[1..]);
      ResultIdsConcat([SkippedResult(steps[0])], SkippedAll(steps[1..]));
      assert ResultIds([SkippedResult(steps[0])]) == [steps[0].id];
      assert Within(steps, steps[0]) && (OpenedBy(world, steps[0], [], id) ==> !Around(steps[0], id));
      OpenedInParts(world, steps, [], [], id);
    }
  }

  /** Being opened concerns one part of the tree only. */
  lemma {:induction false} OpenedInParts(world: World, steps: seq<Step>, done: seq<string>, rest: seq<string>, id: string)
    requires steps != [] && Distinct(Ids(steps))
    requires forall x :: x in Ids(steps[1..]) ==> (x in done <==> x in rest)
    ensures id in Ids(steps[1..]) ==> (Opened(world, steps, done, id) <==> Opened(world, steps[1..], rest, id))
    ensures id == steps[0].id ==> Opened(world, steps, done, id)
  {
    forall q | Within(steps, q)
      ensures id in Ids(steps[1..]) && !Within(steps[1..], q) ==> OpenedBy(world, q, done, id)
      ensures id in Ids(steps[1..]) && Within(steps[1..], q) ==>
        (OpenedBy(world, q, done, id) <==> OpenedBy(world, q, rest, id))
      ensures id == steps[0].id ==> OpenedBy(world, q, done, id)
    {
      if Around(q, id) {
        AroundPlace(steps, q, id);
      }
      if Within(steps[1..], q) {
        WithinIds(steps[1..], q);
      }
    }
  }

  lemma {:induction false} OpenedInBranch(world: World, steps: seq<Step>, yes: bool, done: seq<string>, inner: seq<string>,
    id: string)
    requires steps != [] && Distinct(Ids(steps))
    requires var branch := if yes then steps[0].yes else steps[0].no;
      id in Ids(branch) && forall x :: x in Ids(branch) ==> (x in done <==> x in inner)
    ensures Opened(world, steps, done, id) <==>
      Towards(world, steps[0], yes) && steps[0].id in done
      && Opened(world, if yes then steps[0].yes else steps[0].no, inner, id)
  {
    DistinctStep(steps);
    var branch := if yes then steps[0].yes else steps[0].no;
    assert Within(steps, steps[0]) &&
      (OpenedBy(world, steps[0], done, id) <==> Towards(world, steps[0], yes) && steps[0].id in done);
    forall q | Within(steps, q) && q != steps[0]
      ensures !Within(branch, q) ==> OpenedBy(world, q, done, id)
      ensures Within(branch, q) ==> (OpenedBy(world, q, done, id) <==> OpenedBy(world, q, inner, id))
    {
      if Around(q, id) {
        AroundPlace(steps, q, id);
      }
      if Within(branch, q) {
        WithinIds(branch, q);
      }
    }
    if Within(branch, steps[0]) {
      WithinIds(branch, steps[0]);
    }
  }

  /** What a step and the branch it leads to record. */
  ghost predicate TurnRecords(world: World, s: Step, more: seq<ActionResult>)
  {
    && more != [] && more[0].id == s.id && more[0].status != Skipped
    && (if Towards(world, s, true) then Records(world, s.yes, more[1..])
        else if Towards(world, s, false) then Records(world, s.no, more[1..])
        else more[1..] == [])
  }

  /** Whose ids the results of a turn and of the rest of its list are. */
  lemma {:induction false} PartsRecord(world: World, steps: seq<Step>, a: seq<ActionResult>, b: seq<ActionResult>)
    requires steps != [] && TurnRecords(world, steps[0], a) && Records(world, steps[1..], b)
    ensures ResultIds(a + b) == [steps[0].id] + ResultIds(a[1..]) + ResultIds(b)
    ensures ResultIds(Executed(a + b)) == [steps[0].id] + ResultIds(Executed(a[1..])) + ResultIds(Executed(b))
    ensures forall x :: x in ResultIds(a[1..]) ==>
      (Towards(world, steps[0], true) && x in Ids(steps[0].yes)) || (Towards(world, steps[0], false) && x in Ids(steps[0].no))
    ensures forall x :: x in ResultIds(b) ==> x in Ids(steps[1..])
  {
    assert a == [a[0]] + a[1..];
    ExecutedConcat([a[0]], a[1..]);
    ExecutedConcat(a, b);
    assert [a[0]][1..] == [] && Executed([a[0]]) == [a[0]];
    ResultIdsConcat([a[0]], a[1..]);
    ResultIdsConcat(a, b);
    ResultIdsConcat([a[0]], Executed(a[1..]));
    ResultIdsConcat(Executed(a), Executed(b));
    assert ResultIds([a[0]]) == [steps[0].id];
    assert ResultIds([]) == [];
  }

  lemma {:induction false} ListRecords(world: World, steps: seq<Step>, a: seq<ActionResult>, b: seq<ActionResult>, id: string)
    requires steps != [] && Distinct(Ids(steps)) && TurnRecords(world, steps[0], a) && Records(world, steps[1..], b)
    ensures id in ResultIds(a + b) <==> id in Ids(steps) && Opened(world, steps, ResultIds(Executed(a + b)), id)
  {
    var s, done := steps[0], ResultIds(Executed(a + b));
    DistinctStep(steps);
    PartsRecord(world, steps, a, b);
    ExecutedIds(a[1..]);
    ExecutedIds(b);
    OpenedInParts(world, steps, done, ResultIds(Executed(b)), id);
    if id in Ids(s.yes) {
      OpenedInBranch(world, steps, true, done, if Towards(world, s, true) then ResultIds(Executed(a[1..])) else done, id);
    } else if id in Ids(s.no) {
      OpenedInBranch(world, steps, false, done, if Towards(world, s, false) then ResultIds(Executed(a[1..])) else done, id);
    }
  }

  /** Skips of the parts are skips of the list. */
  lemma {:induction false} ListSkips(world: World, steps: seq<Step>, a: seq<ActionResult>, b: seq<ActionResult>, i: nat, t: Step)
    requires steps != [] && Distinct(Ids(steps)) && TurnRecords(world, steps[0], a) && Records(world, steps[1..], b)
    requires i < |a + b| && Within(steps, t) && t.id == (a + b)[i].id && (a + b)[i].status == Skipped
    ensures (a + b)[i] == ActionResult(t.id, t.kind, Skipped, Plain)
  {
    if i < |a| {
      FirstSkips(world, steps, a, b, i, t);
    } else {
      PartsRecord(world, steps, a, b);
      WithinPart(steps, t);
      assert (a + b)[i] == b[i - |a|] && ResultIds(b)[i - |a|] == t.id;
    }
  }

  lemma {:induction false} FirstSkips(world: World, steps: seq<Step>, a: seq<ActionResult>, b: seq<ActionResult>, i: nat, t: Step)
    requires steps != [] && Distinct(Ids(steps)) && TurnRecords(world, steps[0], a) && Records(world, steps[1..], b)
    requires i < |a| && Within(steps, t) && t.id == a[i].id && a[i].status == Skipped
    ensures a[i] == ActionResult(t.id, t.kind, Skipped, Plain)
  {
    DistinctStep(steps);
    PartsRecord(world, steps, a, b);
    WithinPart(steps, t);
    assert i > 0 && a[i] == a[1..][i - 1] && ResultIds(a[1..])[i - 1] == t.id;
  }

  lemma {:induction false} ListRecordsAll(world: World, steps: seq<Step>, a: seq<ActionResult>, b: seq<ActionResult>)
    requires steps != [] && Distinct(Ids(steps)) && TurnRecords(world, steps[0], a) && Records(world, steps[1..], b)
    ensures Records(world, steps, a + b)
  {
    forall id
      ensures id in ResultIds(a + b) <==> id in Ids(steps) && Opened(world, steps, ResultIds(Executed(a + b)), id)
    {
      ListRecords(world, steps, a, b, id);
    }
    forall i: nat, t | i < |a + b| && Within(steps, t) && t.id == (a + b)[i].id && (a + b)[i].status == Skipped
      ensures (a + b)[i] == ActionResult(t.id, t.kind, Skipped, Plain)
    {
      ListSkips(world, steps, a, b, i, t);
    }
  }

  lemma {:induction false} StepRecords(world: World, s: Step, p: Progress)
    requires Distinct(Ids(s.yes)) && Distinct(Ids(s.no)) && p.paused.None? && !p.stopped
    ensures var q := Perform(Uninterrupted(world), s, p);
      p.results <= q.results && TurnRecords(world, s, q.results[|p.results|..])
    decreases s
  {
    var q := Perform(Uninterrupted(world), s, p);
    if Towards(world, s, true) || Towards(world, s, false) {
      var yes := Towards(world, s, true);
      var asked := p.Add(ActionResult(s.id, s.kind, Succeeded, Branch(yes)));
      WalkRecords(world, if yes then s.yes else s.no, asked);
      assert q.results[|p.results|..][1..] == q.results[|asked.results|..];
    } else {
      assert q.results[|p.results|..][1..] == [];
    }
  }

  lemma {:induction false} WalkRecords(world: World, steps: seq<Step>, p: Progress)
    requires Distinct(Ids(steps)) && p.paused.None?
    ensures var q := Walk(Uninterrupted(world), steps, p);
      p.results <= q.results && Records(world, steps, q.results[|p.results|..])
    decreases steps
  {
    var q := Walk(Uninterrupted(world), steps, p);
    if steps == [] {
      assert q.results[|p.results|..] == [];
    } else if p.stopped {
      SkipsRecord(world, steps);
      assert q.results[|p.results|..] == SkippedAll(steps);
    } else {
      DistinctStep(steps);
      StepRecords(world, steps[0], p);
      var next := Perform(Uninterrupted(world), steps[0], p);
      PerformNeverPauses(Uninterrupted(world), steps[0], p);
      WalkRecords(world, steps[1..], next);
      var a, b := next.results[|p.results|..], q.results[|next.results|..];
      assert q.results[|p.results|..] == a + b;
      ListRecordsAll(world, steps, a, b);
    }
  }

  /**
    The uninterrupted walk's history: besides the steps performed, it names
    exactly those every question around which was performed and answered towards
    them, and they are skips.
   */
  lemma UninterruptedRecords(world: World, tree: seq<Step>)
    requires Distinct(Ids(tree))
    ensures Records(world, tree, Walk(Uninterrupted(world), tree, FRESH).results)
  {
    WalkRecords(world, tree, FRESH);
    var results := Walk(Uninterrupted(world), tree, FRESH).results;
    assert results[0..] == results;
  }
}
