/**
  One run of a rule from its start through its waits, as the engine keeps it, and
  what a resumed run's history leaves out.
 */
module AutomationEngine {
  import opened Wrappers
  import opened Sequences
  import opened AutomationSteps
  import opened AutomationFlow
  import opened AutomationResume

  datatype CancelReason = RuleDeleted | RuleOff | ContactGone | StepRemoved

  datatype RunState =
    | NotStarted
    | Parked(pause: Pause)
    | Finished(status: RunStatus)
    | Cancelled(reason: CancelReason)

  /** The rule as a resume finds it; it may have been edited, switched off or deleted meanwhile. */
  datatype RuleNow = Gone | Off | On(tree: seq<Step>, world: World)

  /** A run's row for a leg that has ended. */
  function After(p: Progress): RunState
  {
    if p.paused.Some? then Parked(p.paused.value) else Finished(StatusOf(p.results))
  }

  function StatusOf(results: seq<ActionResult>): (status: RunStatus)
    ensures status == StatusFor(results)
  {
    var failed := Ended(results, Failed);
    var succeeded := Ended(results, Succeeded);
    if !failed then RunSucceeded else if !succeeded then RunFailed else RunPartiallyFailed
  }

  predicate Ended(results: seq<ActionResult>, status: Status)
    ensures Ended(results, status) <==> SomeEnded(results, status)
  {
    exists i :: 0 <= i < |results| && results[i].status == status
  }

  /** The row of a run's current wait. */
  datatype WaitRow = NoWait | WaitPending | WaitResumed | WaitCancelled

  class Run {
    var state: RunState
    var results: seq<ActionResult>
    var wait: WaitRow

    constructor ()
      ensures state == NotStarted && results == [] && wait == NoWait
    {
      state := NotStarted;
      results := [];
      wait := NoWait;
    }

    method Execute(tree: seq<Step>, world: World, now: int)
      requires state.NotStarted? && wait.NoWait?
      modifies this
      ensures var p := Walk(Live(world, now), tree, FRESH);
        results == p.results && state == After(p) && wait == if p.paused.Some? then WaitPending else NoWait
    {
      var runner := new StepRunner(Live(world, now), []);
      runner.Run(tree);
      Record(runner.results, runner.paused);
    }

    method Cancel(reason: CancelReason)
      modifies this
      ensures state == Cancelled(reason) && wait == WaitCancelled && results == old(results)
    {
      state := Cancelled(reason);
      wait := WaitCancelled;
    }

    /**
      Claims the wait and picks the run up again, or cancels it and says why. When
      the run's own row is gone, only the wait is left to be cancelled.
     */
    method Resume(runGone: bool, rule: RuleNow, contactGone: bool, now: int)
      requires state.Parked? && wait.WaitPending?
      modifies this
      ensures
        if runGone then state == old(state) && wait == WaitCancelled && results == old(results)
        else if rule.Gone? then state == Cancelled(RuleDeleted) && wait == WaitCancelled && results == old(results)
        else if rule.Off? then state == Cancelled(RuleOff) && wait == WaitCancelled && results == old(results)
        else if contactGone then state == Cancelled(ContactGone) && wait == WaitCancelled && results == old(results)
        else
          var q := ResumeAt(rule.world, rule.tree, Progress(old(results), false, Some(old(state).pause)), now);
          if q.None? then state == Cancelled(StepRemoved) && wait == WaitCancelled && results == old(results)
          else
            && results == q.value.results && state == After(q.value)
            && wait == if q.value.paused.Some? then WaitPending else WaitResumed
    {
      wait := WaitResumed;
      if runGone {
        wait := WaitCancelled;
        return;
      }
      if rule.Gone? {
        Cancel(RuleDeleted);
        return;
      }
      if rule.Off? {
        Cancel(RuleOff);
        return;
      }
      if contactGone {
        Cancel(ContactGone);
        return;
      }
      var stepId := state.pause.stepId;
      var remaining := ContinuationAfter(rule.tree, stepId);
      if remaining.None? {
        Cancel(StepRemoved);
        return;
      }
      var stored := results;
      var recorded := new ActionResult[|stored|](i requires 0 <= i < |stored| => stored[i]);
      assert recorded[..] == stored;
      FinishWaitResult(recorded, stepId);
      var runner := new StepRunner(Live(rule.world, now), recorded[..]);
      runner.RunLists(remaining.value);
      Record(runner.results, runner.paused);
    }

    method Record(list: seq<ActionResult>, paused: Option<Pause>)
      modifies this
      ensures results == list
      ensures state == if paused.Some? then Parked(paused.value) else Finished(StatusOf(list))
      ensures wait == if paused.Some? then WaitPending else old(wait)
    {
      results := list;
      if paused.Some? {
        state := Parked(paused.value);
        wait := WaitPending;
      } else {
        var status := SummariseRun(list);
        state := Finished(status);
      }
    }
  }

  /** A run of an unedited rule that finished, after any waits, has the status of the uninterrupted walk. */
  lemma FinishedStatus(world: World, tree: seq<Step>, now: int, resumes: seq<int>)
    requires Distinct(Ids(tree)) && RunToEnd(world, tree, now, resumes).paused.None?
    ensures After(RunToEnd(world, tree, now, resumes)) ==
            Finished(StatusOf(Walk(Uninterrupted(world), tree, FRESH).results))
  {
    WaitingIsInvisible(world, tree, now, resumes);
  }

  // What the history of a resumed run leaves out --------------------------------------------

  /** The resume stopped in list `k - 1`: not before it, and not only after it. */
  ghost predicate StopsIn(leg: Leg, lists: seq<seq<Step>>, p: Progress, k: nat)
  {
    && 0 < k <= |lists|
    && !WalkUntilHalt(leg, lists[..k - 1], p).Halted()
    && WalkUntilHalt(leg, lists[..k], p).stopped
  }

  lemma {:induction false} StopsInTail(leg: Leg, lists: seq<seq<Step>>, p: Progress, k: nat)
    requires lists != [] && !p.Halted() && !Walk(leg, lists[0], p).Halted()
    requires StopsIn(leg, lists[1..], Walk(leg, lists[0], p), k)
    ensures StopsIn(leg, lists, p, k + 1)
  {
    assert lists[..k][1..] == lists[1..][..k - 1];
    assert lists[..k + 1][1..] == lists[1..][..k];
  }

  /**
    A resumed leg that a step stops does not record the lists behind the one it
    stopped in: its history equals the uninterrupted one exactly when those lists
    are empty, and lacks exactly their skips otherwise.
   */
  lemma {:induction false} StoppedHistory(world: World, now: int, lists: seq<seq<Step>>, p: Progress) returns (k: nat)
    requires Distinct(AllIds(lists)) && !p.Halted()
    requires WalkUntilHalt(Live(world, now), lists, p).stopped
    requires WalkUntilHalt(Live(world, now), lists, p).paused.None?
    ensures StopsIn(Live(world, now), lists, p, k)
    ensures var live := WalkUntilHalt(Live(world, now), lists, p);
      var whole := WalkAll(Uninterrupted(world), lists, p);
      && whole.results == live.results + SkippedLists(lists[k..])
      && (live == whole <==> forall i :: k <= i < |lists| ==> lists[i] == [])
  {
    var leg := Live(world, now);
    DistinctConcat(Ids(lists[0]), AllIds(lists[1..]));
    WalkAccounts(world, now, lists[0], p);
    var q := Walk(leg, lists[0], p);
    if q.stopped {
      k := 1;
      WalkAllStopped(Uninterrupted(world), lists[1..], q);
      assert lists[..1] == [lists[0]] && lists[..0] == [];
      assert WalkUntilHalt(leg, [lists[0]], p) == q;
    } else {
      var j := StoppedHistory(world, now, lists[1..], q);
      k := j + 1;
      StopsInTail(leg, lists, p, j);
      assert lists[1..][j..] == lists[k..];
    }
    SkippedListsEmpty(lists[k..]);
  }

  lemma {:induction false} SkippedListsEmpty(lists: seq<seq<Step>>)
    ensures SkippedLists(lists) == [] <==> forall i :: 0 <= i < |lists| ==> lists[i] == []
  {
    if lists != [] {
      SkippedListsEmpty(lists[1..]);
      assert forall i :: 1 <= i < |lists| ==> lists[i] == lists[1..][i - 1];
    }
  }

  // One such history ----------------------------------------------------------------------------

  function TheWait(): Step { Step("wait", Kind.Wait, "", false, [], []) }

  function TheFailure(): Step { Step("fail", Action("fails"), "", false, [], []) }

  function TheRest(): Step { Step("rest", Action("works"), "", false, [], []) }

  /** A question, under "yes" a wait and an action that will fail, and after the question another action. */
  function AskAndWait(): seq<Step>
  {
    [Step("ask", Condition, "", false, [TheWait(), TheFailure()], []), TheRest()]
  }

  function OneFails(): World
  {
    World(step => true, (step: Step) => step.kind == Action("works"), step => true, step => Matched, step => Some(60), true)
  }

  function Asked(): ActionResult { ActionResult("ask", Condition, Succeeded, Branch(true)) }

  function Waited(status: Status): ActionResult { ActionResult("wait", Kind.Wait, status, Plain) }

  function Failing(): ActionResult { ActionResult("fail", Action("fails"), Failed, Plain) }

  /** The leg after the question: the wait parks it, or counts as done in the uninterrupted walk. */
  lemma FirstLeg()
    ensures Walk(Live(OneFails(), 0), AskAndWait(), FRESH) ==
            Progress([Asked(), Waited(Status.Waiting)], false, Some(Pause("wait", 60)))
  {
    var leg := Live(OneFails(), 0);
    var branch := [TheWait(), TheFailure()];
    var asked := Progress([Asked()], false, None);
    var parked := Progress([Asked(), Waited(Status.Waiting)], false, Some(Pause("wait", 60)));
    assert FRESH.Add(Asked()) == asked && [Asked()] + [Waited(Status.Waiting)] == parked.results;
    assert Perform(leg, TheWait(), asked) == parked;
    assert Walk(leg, branch, asked) == Walk(leg, branch[1..], parked) == parked;
    assert Perform(leg, AskAndWait()[0], FRESH) == parked;
    assert Walk(leg, AskAndWait(), FRESH) == Walk(leg, AskAndWait()[1..], parked);
  }

  lemma SecondLeg(leg: Leg, p: Progress)
    requires leg.world == OneFails() && !p.Halted()
    ensures Walk(leg, [TheFailure()], p) == p.Add(Failing()).(stopped := true)
  {
    var q := p.Add(Failing()).(stopped := true);
    assert Perform(leg, TheFailure(), p) == q;
    assert [TheFailure()][1..] == [];
    assert Walk(leg, [TheFailure()], p) == Walk(leg, [], q) == q;
  }

  lemma Whole()
    ensures Walk(Uninterrupted(OneFails()), AskAndWait(), FRESH).results ==
            [Asked(), Waited(Succeeded), Failing(), SkippedResult(TheRest())]
  {
    var leg := Uninterrupted(OneFails());
    var branch := [TheWait(), TheFailure()];
    var asked := Progress([Asked()], false, None);
    var waited := Progress([Asked(), Waited(Succeeded)], false, None);
    assert FRESH.Add(Asked()) == asked && asked.Add(Waited(Succeeded)) == waited;
    assert Perform(leg, TheWait(), asked) == waited;
    assert branch[1..] == [TheFailure()] && Walk(leg, branch, asked) == Walk(leg, [TheFailure()], waited);
    SecondLeg(leg, waited);
    var stopped := waited.Add(Failing()).(stopped := true);
    assert Perform(leg, AskAndWait()[0], FRESH) == stopped;
    assert AskAndWait()[1..] == [TheRest()] && SkippedAll([TheRest()]) == [SkippedResult(TheRest())];
    assert Walk(leg, AskAndWait(), FRESH) == Walk(leg, [TheRest()], stopped);
  }

  /** Parked at the wait and resumed, the run stops at the failure and its history ends there; uninterrupted, the rest is recorded as skipped. */
  lemma ResumedHistoryIsShorter()
    ensures RunToEnd(OneFails(), AskAndWait(), 0, [60]).results == [Asked(), Waited(Succeeded), Failing()]
    ensures Walk(Uninterrupted(OneFails()), AskAndWait(), FRESH).results ==
            [Asked(), Waited(Succeeded), Failing(), SkippedResult(TheRest())]
  {
    FirstLeg();
    Whole();
    var parked := Walk(Live(OneFails(), 0), AskAndWait(), FRESH);
    var branch := [TheWait(), TheFailure()];
    assert ContinuationAfter(branch, "wait") == Some([[TheFailure()]]) by {
      assert branch[1..] == [TheFailure()];
    }
    assert AskAndWait()[1..] == [TheRest()];
    assert AskAndWait()[0].yes == branch && [[TheFailure()]] + [[TheRest()]] == [[TheFailure()], [TheRest()]];
    assert ContinuationAfter(AskAndWait(), "wait") == Some([[TheFailure()], [TheRest()]]);
    var start := Progress([Asked(), Waited(Succeeded)], false, None);
    assert FinishWait(parked.results, "wait") == start.results by {
      assert parked.results[..1] == [Asked()];
    }
    var leg := Live(OneFails(), 60);
    SecondLeg(leg, start);
    var end := start.Add(Failing()).(stopped := true);
    assert WalkUntilHalt(leg, [[TheFailure()], [TheRest()]], start) == end;
    assert ResumeAt(OneFails(), AskAndWait(), parked, 60) == Some(end);
    assert [60][1..] == [];
    assert Drive(OneFails(), AskAndWait(), parked, [60]) == Drive(OneFails(), AskAndWait(), end, []) == end;
  }
}
