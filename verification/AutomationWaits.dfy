/** A leg that comes to a wait with a length parks there, for that length. */
module AutomationWaits {
  import opened Wrappers
  import opened Sequences
  import opened AutomationSteps
  import opened AutomationFlow
  import opened AutomationResume
  import opened AutomationPath

  // ----- one leg

  /** The result of a wait with a length, reached and not skipped. */
  ghost predicate OfWait(world: World, tree: seq<Step>, r: ActionResult, v: Step)
  {
    && Within(tree, v) && v.kind.Wait? && world.waitLength(v).Some?
    && r.id == v.id && r.status != Skipped
  }

  /** The pause is at this wait, and as long as it. */
  predicate IsLengthOf(world: World, v: Step, pause: Pause, began: int)
  {
    && v.kind.Wait? && v.id == pause.stepId
    && world.waitLength(v).Some? && pause.resumeAt == began + world.waitLength(v).value
  }

  /** From result `from` on, a wait is the last result of its leg, and the leg that began at `began` is parked for its length. */
  ghost predicate ParksForLength(world: World, tree: seq<Step>, q: Progress, from: nat, began: int)
  {
    && (q.paused.Some? ==> exists v :: Within(tree, v) && IsLengthOf(world, v, q.paused.value, began))
    && forall i :: from <= i < |q.results| ==> ParksAt(world, tree, q, i, began)
  }

  ghost predicate ParksAt(world: World, tree: seq<Step>, q: Progress, i: nat, began: int)
    requires i < |q.results|
  {
    forall v :: OfWait(world, tree, q.results[i], v) ==>
      && i == |q.results| - 1
      && q.paused.Some? && q.paused.value.resumeAt == began + world.waitLength(v).value
  }

  ghost predicate PartOf(steps: seq<Step>, tree: seq<Step>)
  {
    forall v :: Within(steps, v) ==> Within(tree, v)
  }

  lemma PartOfStep(steps: seq<Step>, tree: seq<Step>)
    requires steps != [] && PartOf(steps, tree)
    ensures PartOf(steps[0].yes, tree) && PartOf(steps[0].no, tree) && PartOf(steps[1..], tree)
  {
  }

  /** A leg that goes on from `p` parks for the length of the wait it comes to. */
  lemma {:induction false} WalkParks(leg: Leg, tree: seq<Step>, steps: seq<Step>, p: Progress)
    requires Distinct(Ids(tree)) && PartOf(steps, tree) && !leg.dryRun && p.paused.None?
    ensures var q := Walk(leg, steps, p);
      p.results <= q.results && ParksForLength(leg.world, tree, q, |p.results|, leg.now)
    decreases steps, 1
  {
    var q := Walk(leg, steps, p);
    if steps != [] && !p.stopped {
      var m := Perform(leg, steps[0], p);
      assert Within(steps, steps[0]);
      PartOfStep(steps, tree);
      PerformParks(leg, tree, steps[0], p);
      if m.paused.None? {
        WalkParks(leg, tree, steps[1..], m);
        LaterParks(leg.world, tree, m, q, |p.results|, leg.now);
      }
    }
  }

  /** A first part without a wait leaves it to the rest. */
  lemma LaterParks(world: World, tree: seq<Step>, m: Progress, q: Progress, from: nat, began: int)
    requires from <= |m.results| && m.results <= q.results && m.paused.None?
    requires ParksForLength(world, tree, m, from, began) && ParksForLength(world, tree, q, |m.results|, began)
    ensures ParksForLength(world, tree, q, from, began)
  {
    forall i | from <= i < |q.results|
      ensures ParksAt(world, tree, q, i, began)
    {
      if i < |m.results| {
        assert q.results[i] == m.results[i];
        assert ParksAt(world, tree, m, i, began);
      }
    }
  }

  /** One more result, of this step. */
  lemma OneParks(world: World, tree: seq<Step>, step: Step, p: Progress, r: ActionResult, q: Progress, began: int)
    requires Distinct(Ids(tree)) && Within(tree, step)
    requires q.results == p.results + [r] && r.id == step.id
    requires q.paused.Some? <==> step.kind.Wait? && world.waitLength(step).Some?
    requires q.paused.Some? ==> IsLengthOf(world, step, q.paused.value, began)
    ensures ParksForLength(world, tree, q, |p.results|, began)
  {
    forall v | OfWait(world, tree, r, v)
      ensures v == step
    {
      SameStep(tree, v, step);
    }
  }

  lemma {:induction false} PerformParks(leg: Leg, tree: seq<Step>, step: Step, p: Progress)
    requires Distinct(Ids(tree)) && Within(tree, step) && PartOf(step.yes, tree) && PartOf(step.no, tree)
    requires !leg.dryRun && !p.Halted()
    ensures var q := Perform(leg, step, p);
      p.results <= q.results && ParksForLength(leg.world, tree, q, |p.results|, leg.now)
    decreases step, 0
  {
    var q := Perform(leg, step, p);
    if step.kind.Condition? && !AskQuestion(leg.world, step).Broken? {
      var matched := AskQuestion(leg.world, step).Matched?;
      var r := ActionResult(step.id, step.kind, Succeeded, Branch(matched));
      OneParks(leg.world, tree, step, p, r, p.Add(r), leg.now);
      WalkParks(leg, tree, if matched then step.yes else step.no, p.Add(r));
      LaterParks(leg.world, tree, p.Add(r), q, |p.results|, leg.now);
    } else {
      var r := q.results[|p.results|];
      OneParks(leg.world, tree, step, p, r, q, leg.now);
    }
  }

  lemma {:induction false} ContinuationIsPart(tree: seq<Step>, steps: seq<Step>, id: string, k: nat)
    requires PartOf(steps, tree)
    requires ContinuationAfter(steps, id).Some? && k < |ContinuationAfter(steps, id).value|
    ensures PartOf(ContinuationAfter(steps, id).value[k], tree)
    decreases steps
  {
    PartOfStep(steps, tree);
    var s := steps[0];
    if s.id != id {
      var inYes, inNo := ContinuationAfter(s.yes, id), ContinuationAfter(s.no, id);
      if inYes.Some? {
        if k < |inYes.value| {
          ContinuationIsPart(tree, s.yes, id, k);
        }
      } else if inNo.Some? {
        if k < |inNo.value| {
          ContinuationIsPart(tree, s.no, id, k);
        }
      } else {
        ContinuationIsPart(tree, steps[1..], id, k);
      }
    }
  }

  lemma {:induction false} ListsPark(leg: Leg, tree: seq<Step>, lists: seq<seq<Step>>, p: Progress)
    requires Distinct(Ids(tree)) && (forall k :: 0 <= k < |lists| ==> PartOf(lists[k], tree))
    requires !leg.dryRun && p.paused.None?
    ensures var q := WalkUntilHalt(leg, lists, p);
      p.results <= q.results && ParksForLength(leg.world, tree, q, |p.results|, leg.now)
  {
    if lists != [] {
      WalkParks(leg, tree, lists[0], p);
      var m := Walk(leg, lists[0], p);
      if !m.Halted() {
        ListsPark(leg, tree, lists[1..], m);
        LaterParks(leg.world, tree, m, WalkUntilHalt(leg, lists, p), |p.results|, leg.now);
      }
    }
  }

  /** The first leg. */
  lemma StartParks(world: World, tree: seq<Step>, now: int)
    requires Distinct(Ids(tree))
    ensures ParksForLength(world, tree, Walk(Live(world, now), tree, FRESH), 0, now)
  {
    WalkParks(Live(world, now), tree, tree, FRESH);
  }

  /** And each leg after it. */
  lemma ResumeParks(world: World, tree: seq<Step>, p: Progress, now: int)
    requires Distinct(Ids(tree)) && p.paused.Some? && ResumeAt(world, tree, p, now).Some?
    ensures ParksForLength(world, tree, ResumeAt(world, tree, p, now).value, |p.results|, now)
  {
    var at := p.paused.value.stepId;
    var lists := ContinuationAfter(tree, at).value;
    forall k | 0 <= k < |lists|
      ensures PartOf(lists[k], tree)
    {
      ContinuationIsPart(tree, tree, at, k);
    }
    ListsPark(Live(world, now), tree, lists, Progress(FinishWait(p.results, at), false, None));
  }
}
