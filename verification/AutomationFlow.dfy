/**
  The step runner: one leg of a rule's run for one contact.

  `Walk` says what a leg does to the recorded results; the class `StepRunner`
  is the runner itself, with its fields updated step by step.
 */
module AutomationFlow {
  import opened Wrappers
  import opened AutomationSteps

  datatype Status = Succeeded | Failed | Skipped | Waiting

  /** What a result records beside its status: for a question, the path it picked. */
  datatype Note = Plain | Branch(matched: bool)

  datatype ActionResult = ActionResult(id: string, kind: Kind, status: Status, note: Note)

  datatype Answer = Matched | Unmatched | Broken

  /**
    Everything outside the runner that decides how a step ends:
    whether its settings are complete, whether the action works, whether a
    question is filled in and how the database answers it, how long a wait is.
   */
  datatype World = World(complete: Step -> bool, works: Step -> bool,
                         asks: Step -> bool, answer: Step -> Answer,
                         waitLength: Step -> Option<nat>, contactKnown: bool)

  datatype Leg = Leg(world: World, now: int, dryRun: bool)

  datatype Pause = Pause(stepId: string, resumeAt: int)

  datatype Progress = Progress(results: seq<ActionResult>, stopped: bool, paused: Option<Pause>)
  {
    predicate Halted() { stopped || paused.Some? }

    function Add(r: ActionResult): Progress { this.(results := results + [r]) }
  }

  function SkippedResult(step: Step): ActionResult
  {
    ActionResult(step.id, step.kind, Skipped, Plain)
  }

  function SkippedAll(steps: seq<Step>): (r: seq<ActionResult>)
    ensures |r| == |steps|
  {
    seq(|steps|, i requires 0 <= i < |steps| => SkippedResult(steps[i]))
  }

  predicate ActionSucceeds(world: World, step: Step)
  {
    world.complete(step) && world.works(step)
  }

  function AskQuestion(world: World, step: Step): Answer
  {
    if world.asks(step) && world.contactKnown then world.answer(step) else Unmatched
  }

  /** One step, started when the runner is not halted. */
  function Perform(leg: Leg, step: Step, p: Progress): Progress
    decreases step
  {
    if step.kind.Condition? then
      var answer := AskQuestion(leg.world, step);
      if answer.Broken? then
        p.Add(ActionResult(step.id, step.kind, Failed, Plain)).(stopped := true)
      else
        Walk(leg, if answer.Matched? then step.yes else step.no,
             p.Add(ActionResult(step.id, step.kind, Succeeded, Branch(answer.Matched?))))
    else if step.kind.Wait? then
      var length := leg.world.waitLength(step);
      if length.None? then
        p.Add(ActionResult(step.id, step.kind, Failed, Plain)).(stopped := true)
      else if leg.dryRun then
        p.Add(ActionResult(step.id, step.kind, Succeeded, Plain))
      else
        p.Add(ActionResult(step.id, step.kind, Waiting, Plain))
         .(paused := Some(Pause(step.id, leg.now + length.value)))
    else if ActionSucceeds(leg.world, step) then
      p.Add(ActionResult(step.id, step.kind, Succeeded, Plain))
    else
      p.Add(ActionResult(step.id, step.kind, Failed, Plain))
       .(stopped := p.stopped || !step.continueOnError)
  }

  /** A list of steps in order: a pause leaves the rest out, a stop records it as skipped. */
  function Walk(leg: Leg, steps: seq<Step>, p: Progress): Progress
    decreases steps
  {
    if steps == [] || p.paused.Some? then p
    else if p.stopped then p.(results := p.results + SkippedAll(steps))
    else Walk(leg, steps[1..], Perform(leg, steps[0], p))
  }

  /** The lists of a continuation, one after another, given up at the first halt. */
  function WalkUntilHalt(leg: Leg, lists: seq<seq<Step>>, p: Progress): Progress
  {
    if lists == [] then p
    else
      var q := Walk(leg, lists[0], p);
      if q.Halted() then q else WalkUntilHalt(leg, lists[1..], q)
  }

  class StepRunner {
    const leg: Leg
    var results: seq<ActionResult>
    var stopped: bool
    var paused: Option<Pause>

    ghost function State(): Progress
      reads this
    {
      Progress(results, stopped, paused)
    }

    constructor (leg: Leg, results: seq<ActionResult>)
      ensures this.leg == leg && State() == Progress(results, false, None)
    {
      this.leg := leg;
      this.results := results;
      stopped := false;
      paused := None;
    }

    method Run(steps: seq<Step>)
      modifies this
      ensures State() == Walk(leg, steps, old(State()))
      decreases steps
    {
      var i := 0;
      while i < |steps|
        invariant 0 <= i <= |steps|
        invariant Walk(leg, steps, old(State())) == Walk(leg, steps[i..], State())
      {
        if paused.Some? {
          return;
        }
        if stopped {
          ghost var before := results;
          var j := i;
          while j < |steps|
            invariant i <= j <= |steps|
            invariant results == before + SkippedAll(steps[i..])[..j - i]
            invariant stopped && paused.None?
          {
            results := results + [SkippedResult(steps[j])];
            j := j + 1;
          }
          return;
        }
        assert steps[i..][0] == steps[i] && steps[i..][1..] == steps[i + 1..];
        if steps[i].kind.Condition? {
          RunCondition(steps[i]);
        } else if steps[i].kind.Wait? {
          RunWait(steps[i]);
        } else {
          RunAction(steps[i]);
        }
        i := i + 1;
      }
    }

    method RunAction(step: Step)
      requires step.kind.Action?
      modifies this
      ensures State() == Perform(leg, step, old(State()))
    {
      if !leg.world.complete(step) {
        results := results + [ActionResult(step.id, step.kind, Failed, Plain)];
        if !step.continueOnError {
          stopped := true;
        }
        return;
      }
      if leg.world.works(step) {
        results := results + [ActionResult(step.id, step.kind, Succeeded, Plain)];
        return;
      }
      results := results + [ActionResult(step.id, step.kind, Failed, Plain)];
      if !step.continueOnError {
        stopped := true;
      }
    }

    method RunCondition(step: Step)
      requires step.kind.Condition?
      modifies this
      ensures State() == Perform(leg, step, old(State()))
      decreases step
    {
      var matched := false;
      if leg.world.asks(step) && leg.world.contactKnown {
        var answer := leg.world.answer(step);
        if answer.Broken? {
          results := results + [ActionResult(step.id, step.kind, Failed, Plain)];
          stopped := true;
          return;
        }
        matched := answer.Matched?;
      }
      var next := step.no;
      if matched {
        next := step.yes;
      }
      results := results + [ActionResult(step.id, step.kind, Succeeded, Branch(matched))];
      Run(next);
    }

    method RunWait(step: Step)
      requires step.kind.Wait?
      modifies this
      ensures State() == Perform(leg, step, old(State()))
    {
      var length := leg.world.waitLength(step);
      if length.None? {
        results := results + [ActionResult(step.id, step.kind, Failed, Plain)];
        stopped := true;
        return;
      }
      if leg.dryRun {
        results := results + [ActionResult(step.id, step.kind, Succeeded, Plain)];
        return;
      }
      results := results + [ActionResult(step.id, step.kind, Waiting, Plain)];
      paused := Some(Pause(step.id, leg.now + length.value));
    }

    /** The loop of a resume: each remaining list in turn until one halts the runner. */
    method RunLists(lists: seq<seq<Step>>)
      modifies this
      ensures State() == WalkUntilHalt(leg, lists, old(State()))
    {
      var i := 0;
      while i < |lists|
        invariant 0 <= i <= |lists|
        invariant WalkUntilHalt(leg, lists, old(State())) == WalkUntilHalt(leg, lists[i..], State())
      {
        assert lists[i..][0] == lists[i] && lists[i..][1..] == lists[i + 1..];
        Run(lists[i]);
        if stopped || paused.Some? {
          return;
        }
        i := i + 1;
      }
    }
  }

  /** The last result that is waiting at this step is marked as done; nothing else changes. */
  function FinishWait(results: seq<ActionResult>, stepId: string): (r: seq<ActionResult>)
    ensures |r| == |results|
  {
    if results == [] then []
    else
      var last := results[|results| - 1];
      if last.id == stepId && last.status == Waiting
      then results[..|results| - 1] + [last.(status := Succeeded)]
      else FinishWait(results[..|results| - 1], stepId) + [last]
  }

  method FinishWaitResult(results: array<ActionResult>, stepId: string)
    modifies results
    ensures results[..] == FinishWait(old(results[..]), stepId)
  {
    ghost var was := results[..];
    var i := results.Length - 1;
    assert was[..|was|] == was;
    while i >= 0
      invariant -1 <= i < results.Length
      invariant results[..] == was
      invariant FinishWait(was, stepId) == FinishWait(was[..i + 1], stepId) + was[i + 1..]
    {
      assert was[..i + 1][..i] == was[..i];
      if results[i].id == stepId && results[i].status == Waiting {
        results[i] := results[i].(status := Succeeded);
        assert results[..] == was[..i] + [was[i].(status := Succeeded)] + was[i + 1..];
        return;
      }
      assert [was[i]] + was[i + 1..] == was[i..];
      i := i - 1;
    }
  }

  datatype RunStatus = RunSucceeded | RunPartiallyFailed | RunFailed

  ghost predicate SomeEnded(results: seq<ActionResult>, status: Status)
  {
    exists i :: 0 <= i < |results| && results[i].status == status
  }

  ghost function StatusFor(results: seq<ActionResult>): RunStatus
  {
    if !SomeEnded(results, Failed) then RunSucceeded
    else if !SomeEnded(results, Succeeded) then RunFailed
    else RunPartiallyFailed
  }

  /** A run's status from its results, by counting. */
  method SummariseRun(results: seq<ActionResult>) returns (status: RunStatus)
    ensures status == StatusFor(results)
    ensures status == RunSucceeded <==> forall r :: r in results ==> r.status != Failed
    ensures status == RunFailed <==>
      (exists r :: r in results && r.status == Failed) && forall r :: r in results ==> r.status != Succeeded
  {
    if |results| == 0 {
      return RunSucceeded;
    }
    var succeeded, failed := 0, 0;
    for i := 0 to |results|
      invariant 0 <= succeeded && 0 <= failed
      invariant succeeded > 0 <==> SomeEnded(results[..i], Succeeded)
      invariant failed > 0 <==> SomeEnded(results[..i], Failed)
    {
      assert results[..i + 1] == results[..i] + [results[i]];
      assert results[..i + 1][i] == results[i];
      assert forall k :: 0 <= k < i ==> results[..i + 1][k] == results[..i][k];
      match results[i].status
      case Succeeded => succeeded := succeeded + 1;
      case Failed => failed := failed + 1;
      case _ =>
    }
    assert results[..|results|] == results;
    assert forall i :: 0 <= i < |results| ==> results[i] in results;
    if failed == 0 {
      return RunSucceeded;
    } else if succeeded == 0 {
      return RunFailed;
    } else {
      return RunPartiallyFailed;
    }
  }
}
