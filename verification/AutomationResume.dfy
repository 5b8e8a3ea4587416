/**
  Waiting is invisible: a run parked and resumed any number of times does what
  one uninterrupted walk does.
 */
module AutomationResume {
  import opened Wrappers
  import opened Sequences
  import opened AutomationSteps
  import opened AutomationFlow

  /** The leg that starts a run, and the leg after a wait, at a given time. */
  function Live(world: World, now: int): Leg { Leg(world, now, false) }

  /** The reference: a walk in which a wait is simply done. */
  function Uninterrupted(world: World): Leg { Leg(world, 0, true) }

  const FRESH := Progress([], false, None)

  /** All lists of a continuation with nothing given up: the rest of the uninterrupted walk. */
  function WalkAll(leg: Leg, lists: seq<seq<Step>>, p: Progress): Progress
  {
    if lists == [] then p else WalkAll(leg, lists[1..], Walk(leg, lists[0], p))
  }

  /** A parked run picked up again; `None` when its step is no longer in the rule. */
  function ResumeAt(world: World, tree: seq<Step>, p: Progress, now: int): Option<Progress>
    requires p.paused.Some?
  {
    var lists := ContinuationAfter(tree, p.paused.value.stepId);
    if lists.None? then None
    else Some(WalkUntilHalt(Live(world, now), lists.value,
                            Progress(FinishWait(p.results, p.paused.value.stepId), false, None)))
  }

  /** A run from its start at `now` through up to |resumes| resumes at the given times. */
  function Drive(world: World, tree: seq<Step>, p: Progress, resumes: seq<int>): Progress
    decreases |resumes|
  {
    if p.paused.None? || resumes == [] then p
    else
      var q := ResumeAt(world, tree, p, resumes[0]);
      if q.None? then p else Drive(world, tree, q.value, resumes[1..])
  }

  function RunToEnd(world: World, tree: seq<Step>, now: int, resumes: seq<int>): Progress
  {
    Drive(world, tree, Walk(Live(world, now), tree, FRESH), resumes)
  }

  /** What was actually performed: every result that is not a skip. */
  function Executed(results: seq<ActionResult>): seq<ActionResult>
  {
    if results == [] then []
    else (if results[0].status == Skipped then [] else [results[0]]) + Executed(results[1..])
  }

  function ResultIds(results: seq<ActionResult>): seq<string>
  {
    seq(|results|, i requires 0 <= i < |results| => results[i].id)
  }

  // ----- shape of a walk

  lemma {:induction false} UninterruptedNeverPauses(leg: Leg, steps: seq<Step>, p: Progress)
    requires leg.dryRun && p.paused.None?
    ensures Walk(leg, steps, p).paused.None?
    decreases steps
  {
    if steps != [] && !p.stopped {
      PerformNeverPauses(leg, steps[0], p);
      UninterruptedNeverPauses(leg, steps[1..], Perform(leg, steps[0], p));
    }
  }

  lemma {:induction false} PerformNeverPauses(leg: Leg, step: Step, p: Progress)
    requires leg.dryRun && p.paused.None?
    ensures Perform(leg, step, p).paused.None?
    decreases step
  {
    if step.kind.Condition? {
      var answer := AskQuestion(leg.world, step);
      if !answer.Broken? {
        UninterruptedNeverPauses(leg, if answer.Matched? then step.yes else step.no,
          p.Add(ActionResult(step.id, step.kind, Succeeded, Branch(answer.Matched?))));
      }
    }
  }

  /**
    A list, walked from `p`: what it came to (`live`) against the uninterrupted
    walk of the same list (`whole`). Either the two agree, or the list parked at
    one of its waits and the continuation from there, resumed with that wait
    marked as done, accounts for exactly what the uninterrupted walk goes on to do.
   */
  ghost predicate Accounts(world: World, steps: seq<Step>, live: Progress, whole: Progress)
  {
    if live.paused.None? then live == whole
    else
      var at := live.paused.value.stepId;
      && !live.stopped
      && at in Ids(steps)
      && live.results != []
      && live.results[|live.results| - 1].id == at
      && live.results[|live.results| - 1].status == Waiting
      && ContinuationAfter(steps, at).Some?
      && whole == WalkAll(Uninterrupted(world), ContinuationAfter(steps, at).value,
                          Progress(FinishWait(live.results, at), false, None))
  }

  lemma {:induction false} WalkAllSnoc(leg: Leg, lists: seq<seq<Step>>, last: seq<Step>, p: Progress)
    ensures WalkAll(leg, lists + [last], p) == Walk(leg, last, WalkAll(leg, lists, p))
  {
    if lists == [] {
      assert lists + [last] == [last];
    } else {
      assert (lists + [last])[1..] == lists[1..] + [last];
      WalkAllSnoc(leg, lists[1..], last, Walk(leg, lists[0], p));
    }
  }

  /** A list whose first step waits: the walk parks there, and what is left is the rest of the list. */
  lemma {:induction false} WaitAccounts(world: World, now: int, steps: seq<Step>, p: Progress)
    requires steps != [] && steps[0].kind.Wait? && p.paused.None? && !p.stopped
    requires Perform(Live(world, now), steps[0], p).paused.Some?
    ensures Accounts(world, steps, Walk(Live(world, now), steps, p), Walk(Uninterrupted(world), steps, p))
  {
    var s, rest := steps[0], steps[1..];
    var live, whole := Perform(Live(world, now), s, p), Perform(Uninterrupted(world), s, p);
    var done := Progress(FinishWait(live.results, s.id), false, None);
    assert live.results[..|live.results| - 1] == p.results;
    assert done == whole;
    assert WalkAll(Uninterrupted(world), [rest], done) == Walk(Uninterrupted(world), rest, done);
  }

  lemma {:induction false} WalkAccounts(world: World, now: int, steps: seq<Step>, p: Progress)
    requires Distinct(Ids(steps)) && p.paused.None?
    ensures Accounts(world, steps, Walk(Live(world, now), steps, p), Walk(Uninterrupted(world), steps, p))
    decreases steps
  {
    if steps != [] && !p.stopped {
      DistinctStep(steps);
      var s, rest := steps[0], steps[1..];
      var live := Perform(Live(world, now), s, p);
      if s.kind.Condition? {
        var answer := AskQuestion(world, s);
        if !answer.Broken? {
          var branch := if answer.Matched? then s.yes else s.no;
          var asked := p.Add(ActionResult(s.id, s.kind, Succeeded, Branch(answer.Matched?)));
          WalkAccounts(world, now, branch, asked);
          if live.paused.Some? {
            var at := live.paused.value.stepId;
            ContinuationFoundIffStepFound(s.yes, at);
            ContinuationFoundIffStepFound(s.no, at);
            var inner := ContinuationAfter(branch, at).value;
            assert ContinuationAfter(steps, at) == Some(inner + [rest]);
            WalkAllSnoc(Uninterrupted(world), inner, rest, Progress(FinishWait(live.results, at), false, None));
          }
        }
      } else if s.kind.Wait? && live.paused.Some? {
        WaitAccounts(world, now, steps, p);
      }
      if live.paused.None? {
        WalkAccounts(world, now, rest, live);
        var end := Walk(Live(world, now), rest, live);
        if end.paused.Some? {
          var at := end.paused.value.stepId;
          ContinuationFoundIffStepFound(s.yes, at);
          ContinuationFoundIffStepFound(s.no, at);
        }
      }
    }
  }

  // ----- one resume

  function SkippedLists(lists: seq<seq<Step>>): seq<ActionResult>
  {
    if lists == [] then [] else SkippedAll(lists[0]) + SkippedLists(lists[1..])
  }

  lemma {:induction false} WalkAllStopped(leg: Leg, lists: seq<seq<Step>>, p: Progress)
    requires p.stopped && p.paused.None?
    ensures WalkAll(leg, lists, p) == p.(results := p.results + SkippedLists(lists))
  {
    if lists != [] {
      var q := Walk(leg, lists[0], p);
      assert q.results == p.results + SkippedAll(lists[0]);
      WalkAllStopped(leg, lists[1..], q);
      assert q.results + SkippedLists(lists[1..]) == p.results + SkippedLists(lists);
    } else {
      assert p.results + SkippedLists(lists) == p.results;
    }
  }

  /**
    What walking a continuation until a halt came to, against the uninterrupted
    walk of all of it: equal; or stopped, the lists from `k` on not recorded as
    skipped; or parked inside list `k`, with the rest still to come.
   */
  ghost predicate HaltAccounted(world: World, lists: seq<seq<Step>>, live: Progress, whole: Progress, k: nat)
  {
    if live.paused.Some? then k < |lists| && ParkedInside(world, lists, live, whole, k)
    else if live.stopped then k <= |lists| && whole == live.(results := live.results + SkippedLists(lists[k..]))
    else whole == live
  }

  ghost predicate ParkedInside(world: World, lists: seq<seq<Step>>, live: Progress, whole: Progress, k: nat)
    requires live.paused.Some? && k < |lists|
  {
    var at := live.paused.value.stepId;
    && !live.stopped
    && at in Ids(lists[k])
    && ContinuationAfter(lists[k], at).Some?
    && live.results != []
    && live.results[|live.results| - 1].id == at
    && live.results[|live.results| - 1].status == Waiting
    && whole == WalkAll(Uninterrupted(world), ContinuationAfter(lists[k], at).value + lists[k + 1..],
                        Progress(FinishWait(live.results, at), false, None))
  }

  /** The list at which a resume halted. */
  lemma {:induction false} ResumeAccounts(world: World, now: int, lists: seq<seq<Step>>, p: Progress) returns (k: nat)
    requires Distinct(AllIds(lists)) && !p.Halted()
    ensures HaltAccounted(world, lists, WalkUntilHalt(Live(world, now), lists, p),
                          WalkAll(Uninterrupted(world), lists, p), k)
  {
    if lists == [] {
      return 0;
    }
    DistinctConcat(Ids(lists[0]), AllIds(lists[1..]));
    WalkAccounts(world, now, lists[0], p);
    var q := Walk(Live(world, now), lists[0], p);
    if q.paused.Some? {
      var at := q.paused.value.stepId;
      WalkAllAppend(Uninterrupted(world), ContinuationAfter(lists[0], at).value, lists[1..],
                    Progress(FinishWait(q.results, at), false, None));
      return 0;
    }
    if q.stopped {
      WalkAllStopped(Uninterrupted(world), lists[1..], q);
      return 1;
    }
    var k' := ResumeAccounts(world, now, lists[1..], q);
    k := k' + 1;
    if k' <= |lists[1..]| {
      assert lists[1..][k'..] == lists[k..];
    }
    if k' < |lists[1..]| {
      assert lists[1..][k' + 1..] == lists[k + 1..];
    }
  }

  lemma {:induction false} WalkAllAppend(leg: Leg, a: seq<seq<Step>>, b: seq<seq<Step>>, p: Progress)
    ensures WalkAll(leg, a + b, p) == WalkAll(leg, b, WalkAll(leg, a, p))
  {
    if a == [] {
      assert a + b == b;
    } else {
      assert (a + b)[1..] == a[1..] + b;
      WalkAllAppend(leg, a[1..], b, Walk(leg, a[0], p));
    }
  }

  /**
    What a finished run may differ in from the uninterrupted walk: nothing unless
    a step stopped it, and then only in skips the resumed run does not record.
   */
  ghost predicate Refines(p: Progress, whole: Progress)
  {
    && p.paused.None? && whole.paused.None?
    && p.stopped == whole.stopped
    && p.results <= whole.results
    && (forall i :: |p.results| <= i < |whole.results| ==> whole.results[i].status == Skipped)
    && (!p.stopped ==> p == whole)
  }

  lemma {:induction false} SkippedListsAreSkips(lists: seq<seq<Step>>)
    ensures forall i :: 0 <= i < |SkippedLists(lists)| ==> SkippedLists(lists)[i].status == Skipped
  {
    if lists != [] {
      SkippedListsAreSkips(lists[1..]);
    }
  }

  lemma {:induction false} PlaceShrinks(lists: seq<seq<Step>>, k: nat, at: string)
    requires k < |lists| && Distinct(AllIds(lists)) && at in Ids(lists[k])
    ensures ContinuationAfter(lists[k], at).Some?
    ensures |AllIds(ContinuationAfter(lists[k], at).value + lists[k + 1..])| < |AllIds(lists)|
  {
    DistinctConcat(Ids(lists[0]), AllIds(lists[1..]));
    if k == 0 {
      ContinuationIds(lists[0], at);
      AllIdsConcat(ContinuationAfter(lists[0], at).value, lists[1..]);
    } else {
      PlaceShrinks(lists[1..], k - 1, at);
      assert lists[1..][k..] == lists[k + 1..];
    }
  }

  /** One resume of a parked run keeps the account, or finishes the run; what is left strictly shrinks. */
  lemma ResumeKeepsAccount(world: World, tree: seq<Step>, p: Progress, now: int, whole: Progress)
    requires Distinct(Ids(tree)) && whole.paused.None?
    requires p.paused.Some? && Accounts(world, tree, p, whole)
    ensures var q := ResumeAt(world, tree, p, now);
            && q.Some?
            && (q.value.paused.None? ==> Refines(q.value, whole))
            && (q.value.paused.Some? ==>
                && Accounts(world, tree, q.value, whole)
                && |AllIds(ContinuationAfter(tree, q.value.paused.value.stepId).value)|
                   < |AllIds(ContinuationAfter(tree, p.paused.value.stepId).value)|)
  {
    var from := p.paused.value.stepId;
    var lists := ContinuationAfter(tree, from).value;
    ContinuationIds(tree, from);
    var start := Progress(FinishWait(p.results, from), false, None);
    var k := ResumeAccounts(world, now, lists, start);
    var q := WalkUntilHalt(Live(world, now), lists, start);
    if q.paused.Some? {
      var at := q.paused.value.stepId;
      ContinuationComposes(tree, from, k, at);
      ContinuationFoundIffStepFound(tree, at);
      PlaceShrinks(lists, k, at);
    } else if q.stopped {
      SkippedListsAreSkips(lists[k..]);
    }
  }

  // ----- whole runs

  lemma {:induction false} DriveRefines(world: World, tree: seq<Step>, p: Progress, resumes: seq<int>, whole: Progress)
    requires Distinct(Ids(tree)) && whole.paused.None?
    requires if p.paused.None? then Refines(p, whole) else Accounts(world, tree, p, whole)
    ensures var q := Drive(world, tree, p, resumes);
            if q.paused.None? then Refines(q, whole) else Accounts(world, tree, q, whole)
    ensures p.paused.Some? && |resumes| > |AllIds(ContinuationAfter(tree, p.paused.value.stepId).value)|
            ==> Drive(world, tree, p, resumes).paused.None?
    decreases |resumes|
  {
    if p.paused.Some? && resumes != [] {
      ResumeKeepsAccount(world, tree, p, resumes[0], whole);
      var q := ResumeAt(world, tree, p, resumes[0]).value;
      DriveRefines(world, tree, q, resumes[1..], whole);
    }
  }

  lemma {:induction false} ExecutedIgnoresSkips(a: seq<ActionResult>, b: seq<ActionResult>)
    requires forall i :: 0 <= i < |b| ==> b[i].status == Skipped
    ensures Executed(a + b) == Executed(a)
    decreases |a| + |b|
  {
    if a != [] {
      assert (a + b)[1..] == a[1..] + b;
      ExecutedIgnoresSkips(a[1..], b);
    } else if b != [] {
      assert a + b == b && [] + b[1..] == b[1..];
      ExecutedIgnoresSkips([], b[1..]);
    } else {
      assert a + b == a;
    }
  }

  lemma StatusIgnoresSkips(a: seq<ActionResult>, b: seq<ActionResult>)
    requires forall i :: 0 <= i < |b| ==> b[i].status == Skipped
    ensures StatusFor(a + b) == StatusFor(a)
  {
    var u := a + b;
    assert forall i :: 0 <= i < |a| ==> u[i] == a[i];
    assert forall i :: |a| <= i < |u| ==> u[i] == b[i - |a|];
  }

  /**
    Main result. However often a run parks, whenever it is resumed: once it no
    longer waits it has performed the same steps with the same outcomes in the
    same order as one uninterrupted walk, and ends with the same status. If no
    step stopped it the two histories are equal to the last entry.
   */
  lemma WaitingIsInvisible(world: World, tree: seq<Step>, now: int, resumes: seq<int>)
    requires Distinct(Ids(tree))
    ensures var run := RunToEnd(world, tree, now, resumes);
            var whole := Walk(Uninterrupted(world), tree, FRESH);
            run.paused.None? ==>
              && Executed(run.results) == Executed(whole.results)
              && StatusFor(run.results) == StatusFor(whole.results)
              && Refines(run, whole)
  {
    var whole := Walk(Uninterrupted(world), tree, FRESH);
    var start := Walk(Live(world, now), tree, FRESH);
    UninterruptedNeverPauses(Uninterrupted(world), tree, FRESH);
    WalkAccounts(world, now, tree, FRESH);
    DriveRefines(world, tree, start, resumes, whole);
    var run := Drive(world, tree, start, resumes);
    if run.paused.None? {
      assert whole.results == run.results + whole.results[|run.results|..];
      ExecutedIgnoresSkips(run.results, whole.results[|run.results|..]);
      StatusIgnoresSkips(run.results, whole.results[|run.results|..]);
    }
  }

  /** No run waits for ever: it is over after at most as many resumes as the rule has steps. */
  lemma EveryRunFinishes(world: World, tree: seq<Step>, now: int, resumes: seq<int>)
    requires Distinct(Ids(tree)) && |resumes| >= CountSteps(tree)
    ensures RunToEnd(world, tree, now, resumes).paused.None?
  {
    var start := Walk(Live(world, now), tree, FRESH);
    UninterruptedNeverPauses(Uninterrupted(world), tree, FRESH);
    WalkAccounts(world, now, tree, FRESH);
    CountIsIds(tree);
    if start.paused.Some? {
      ContinuationIds(tree, start.paused.value.stepId);
    }
    DriveRefines(world, tree, start, resumes, Walk(Uninterrupted(world), tree, FRESH));
  }

  // ----- each step at most once

  lemma ResultIdsConcat(a: seq<ActionResult>, b: seq<ActionResult>)
    ensures ResultIds(a + b) == ResultIds(a) + ResultIds(b)
  {
  }

  /** What a walk appends: results for pairwise different steps of the list. */
  ghost predicate AppendsOnce(p: Progress, q: Progress, ids: seq<string>)
  {
    && p.results <= q.results
    && Distinct(ResultIds(q.results[|p.results|..]))
    && forall x :: x in ResultIds(q.results[|p.results|..]) ==> x in ids
  }

  lemma AppendsOnceChain(p: Progress, q: Progress, r: Progress, a: seq<string>, b: seq<string>, all: seq<string>)
    requires AppendsOnce(p, q, a) && AppendsOnce(q, r, b) && Disjoint(a, b)
    requires forall x :: x in a || x in b ==> x in all
    ensures AppendsOnce(p, r, all)
  {
    var first, second := q.results[|p.results|..], r.results[|q.results|..];
    assert r.results[|p.results|..] == first + second;
    ResultIdsConcat(first, second);
    DistinctConcat(ResultIds(first), ResultIds(second));
  }

  lemma {:induction false} SkippedIds(steps: seq<Step>)
    requires Distinct(Ids(steps))
    ensures Distinct(ResultIds(SkippedAll(steps)))
    ensures forall x :: x in ResultIds(SkippedAll(steps)) ==> x in Ids(steps)
  {
    if steps != [] {
      DistinctStep(steps);
      SkippedIds(steps[1..]);
      var head := [SkippedResult(steps[0])];
      assert SkippedAll(steps) == head + SkippedAll(steps[1..]);
      ResultIdsConcat(head, SkippedAll(steps[1..]));
      assert ResultIds(head) == [steps[0].id];
      DistinctConcat(ResultIds(head), ResultIds(SkippedAll(steps[1..])));
    }
  }

  lemma {:induction false} WalkAppendsOnce(leg: Leg, steps: seq<Step>, p: Progress)
    requires Distinct(Ids(steps))
    ensures AppendsOnce(p, Walk(leg, steps, p), Ids(steps))
    decreases steps
  {
    if steps == [] || p.paused.Some? {
    } else if p.stopped {
      SkippedIds(steps);
      assert Walk(leg, steps, p).results[|p.results|..] == SkippedAll(steps);
    } else {
      DistinctStep(steps);
      var own := [steps[0].id] + Ids(steps[0].yes) + Ids(steps[0].no);
      DistinctConcat(own, Ids(steps[1..]));
      PerformAppendsOnce(leg, steps[0], p, own);
      var q := Perform(leg, steps[0], p);
      WalkAppendsOnce(leg, steps[1..], q);
      AppendsOnceChain(p, q, Walk(leg, steps[1..], q), own, Ids(steps[1..]), Ids(steps));
    }
  }

  lemma {:induction false} PerformAppendsOnce(leg: Leg, step: Step, p: Progress, own: seq<string>)
    requires own == [step.id] + Ids(step.yes) + Ids(step.no) && Distinct(own)
    ensures AppendsOnce(p, Perform(leg, step, p), own)
    decreases step
  {
    DistinctConcat([step.id] + Ids(step.yes), Ids(step.no));
    DistinctConcat([step.id], Ids(step.yes));
    assert forall x :: x in [step.id] + Ids(step.yes) <==> x == step.id || x in Ids(step.yes);
    var answer := AskQuestion(leg.world, step);
    if step.kind.Condition? && !answer.Broken? {
      var asked := p.Add(ActionResult(step.id, step.kind, Succeeded, Branch(answer.Matched?)));
      var branch := if answer.Matched? then step.yes else step.no;
      WalkAppendsOnce(leg, branch, asked);
      assert AppendsOnce(p, asked, [step.id]);
      AppendsOnceChain(p, asked, Walk(leg, branch, asked), [step.id], Ids(branch), own);
    } else {
      LeafAppendsOnce(leg, step, p);
    }
  }

  lemma {:induction false} LeafAppendsOnce(leg: Leg, step: Step, p: Progress)
    requires step.kind.Condition? ==> AskQuestion(leg.world, step).Broken?
    ensures AppendsOnce(p, Perform(leg, step, p), [step.id])
  {
    var added := Perform(leg, step, p).results[|p.results|..];
    assert |added| == 1 && added[0].id == step.id && ResultIds(added) == [step.id];
  }

  lemma {:induction false} WalkAllExtends(leg: Leg, lists: seq<seq<Step>>, p: Progress)
    requires Distinct(AllIds(lists))
    ensures p.results <= WalkAll(leg, lists, p).results
  {
    if lists != [] {
      DistinctConcat(Ids(lists[0]), AllIds(lists[1..]));
      WalkAppendsOnce(leg, lists[0], p);
      WalkAllExtends(leg, lists[1..], Walk(leg, lists[0], p));
    }
  }

  lemma {:induction false} FinishWaitKeepsIds(results: seq<ActionResult>, id: string)
    ensures ResultIds(FinishWait(results, id)) == ResultIds(results)
  {
    if results != [] {
      var init, last := results[..|results| - 1], results[|results| - 1];
      FinishWaitKeepsIds(init, id);
      assert results == init + [last];
      ResultIdsConcat(init, [last]);
      ResultIdsConcat(FinishWait(init, id), [last]);
      ResultIdsConcat(init, [last.(status := Succeeded)]);
    }
  }

  /**
    At every moment of a run, parked or not, each step of the rule has been
    recorded at most once: no number of resumes sends the same message twice.
   */
  lemma EachStepAtMostOnce(world: World, tree: seq<Step>, now: int, resumes: seq<int>)
    requires Distinct(Ids(tree))
    ensures var run := RunToEnd(world, tree, now, resumes);
            Distinct(ResultIds(run.results)) && forall x :: x in ResultIds(run.results) ==> x in Ids(tree)
  {
    var whole := Walk(Uninterrupted(world), tree, FRESH);
    RecordedInOrder(world, tree, now, resumes);
    WalkAppendsOnce(Uninterrupted(world), tree, FRESH);
    assert whole.results[0..] == whole.results;
  }

  lemma PrefixOfIds(recorded: seq<ActionResult>, whole: seq<ActionResult>)
    requires recorded <= whole
    ensures ResultIds(recorded) <= ResultIds(whole)
  {
    assert whole == recorded + whole[|recorded|..];
    ResultIdsConcat(recorded, whole[|recorded|..]);
  }

  /** What a run has recorded so far is, step for step, the beginning of the uninterrupted walk. */
  lemma RecordedInOrder(world: World, tree: seq<Step>, now: int, resumes: seq<int>)
    requires Distinct(Ids(tree))
    ensures ResultIds(RunToEnd(world, tree, now, resumes).results)
            <= ResultIds(Walk(Uninterrupted(world), tree, FRESH).results)
  {
    var whole := Walk(Uninterrupted(world), tree, FRESH);
    UninterruptedNeverPauses(Uninterrupted(world), tree, FRESH);
    WalkAccounts(world, now, tree, FRESH);
    DriveRefines(world, tree, Walk(Live(world, now), tree, FRESH), resumes, whole);
    var run := RunToEnd(world, tree, now, resumes);
    if run.paused.Some? {
      var at := run.paused.value.stepId;
      ContinuationIds(tree, at);
      var recorded := FinishWait(run.results, at);
      FinishWaitKeepsIds(run.results, at);
      WalkAllExtends(Uninterrupted(world), ContinuationAfter(tree, at).value, Progress(recorded, false, None));
      PrefixOfIds(recorded, whole.results);
    } else {
      PrefixOfIds(run.results, whole.results);
    }
  }
}
