/**
  The structural check a rule must pass before it is saved, and what passing
  it means for the engine that later walks the same tree.
 */
module AutomationCheck {
  import opened Wrappers
  import opened Sequences
  import opened AutomationSteps

  const MAX_STEPS_PER_RULE := 40
  const MAX_NESTING := 3
  const MIN_WAIT := 60
  const MAX_WAIT := 30 * 24 * 3600

  datatype StructuralError =
    | TooManySteps
    | MissingId
    | DuplicateId(id: string)
    | NestedTooDeep(id: string)
    | OnlyQuestionsSplit(id: string)
    | UnknownKind(id: string)
    | RegistryUnavailable

  datatype Fault = ChooseQuestion | InvalidQuestion | ChooseLength | TooShort | TooLong | Incomplete

  /** A step that is merely unfinished: an error only when the rule is to run. */
  datatype StepProblem = StepProblem(id: string, fault: Fault)

  /** What the checker asks of the rest of the product, per step or step kind. */
  datatype Library = Library(known: string -> bool, complete: Step -> bool,
                             asks: Step -> bool, questionValid: Step -> bool,
                             waitLength: Step -> Option<int>, registryAvailable: bool)

  // ----- what a well-formed tree is

  /** One step on its own, at its depth. */
  ghost predicate StepFits(lib: Library, step: Step, depth: nat)
  {
    && step.id != ""
    && (if step.kind.Condition? then depth < 3 && (lib.asks(step) ==> lib.registryAvailable)
        else (step.kind.Action? ==> lib.known(step.kind.name)) && step.yes == [] && step.no == [])
  }

  ghost predicate AllFit(lib: Library, steps: seq<Step>, depth: nat)
  {
    steps != [] ==>
      && StepFits(lib, steps[0], depth)
      && AllFit(lib, steps[0].yes, depth + 1)
      && AllFit(lib, steps[0].no, depth + 1)
      && AllFit(lib, steps[1..], depth)
  }

  /** The unfinished steps, in written order. */
  function Problems(lib: Library, steps: seq<Step>): seq<StepProblem>
  {
    if steps == [] then []
    else Unfinished(lib, steps[0]) + Problems(lib, steps[0].yes) + Problems(lib, steps[0].no)
         + Problems(lib, steps[1..])
  }

  function Unfinished(lib: Library, step: Step): seq<StepProblem>
  {
    if step.kind.Condition? then
      if !lib.asks(step) then [StepProblem(step.id, ChooseQuestion)]
      else if !lib.questionValid(step) then [StepProblem(step.id, InvalidQuestion)]
      else []
    else if step.kind.Wait? then
      match lib.waitLength(step)
      case None => [StepProblem(step.id, ChooseLength)]
      case Some(d) =>
        if d < MIN_WAIT then [StepProblem(step.id, TooShort)]
        else if d > MAX_WAIT then [StepProblem(step.id, TooLong)]
        else []
    else if lib.complete(step) then [] else [StepProblem(step.id, Incomplete)]
  }

  /** What is unfinished about a step: a question not filled in, a wait under a minute or over thirty days, settings missing. */
  predicate Lacks(lib: Library, s: Step, fault: Fault)
  {
    match fault
    case ChooseQuestion => s.kind.Condition? && !lib.asks(s)
    case InvalidQuestion => s.kind.Condition? && lib.asks(s) && !lib.questionValid(s)
    case ChooseLength => s.kind.Wait? && lib.waitLength(s).None?
    case TooShort => s.kind.Wait? && lib.waitLength(s).Some? && lib.waitLength(s).value < 60
    case TooLong => s.kind.Wait? && lib.waitLength(s).Some? && lib.waitLength(s).value > 2592000
    case Incomplete => s.kind.Action? && !lib.complete(s)
  }

  ghost predicate SomeLacks(lib: Library, steps: seq<Step>, problem: StepProblem)
  {
    exists s :: Within(steps, s) && s.id == problem.id && Lacks(lib, s, problem.fault)
  }

  lemma SomeLacksParts(lib: Library, steps: seq<Step>, problem: StepProblem)
    requires steps != []
    ensures SomeLacks(lib, steps, problem) <==>
            || (steps[0].id == problem.id && Lacks(lib, steps[0], problem.fault))
            || SomeLacks(lib, steps[0].yes, problem)
            || SomeLacks(lib, steps[0].no, problem)
            || SomeLacks(lib, steps[1..], problem)
  {
    assert Within(steps, steps[0]);
  }

  /** Exactly the unfinished steps are reported, each with what it lacks. */
  lemma {:induction false} ProblemsExactly(lib: Library, steps: seq<Step>, problem: StepProblem)
    ensures problem in Problems(lib, steps) <==> SomeLacks(lib, steps, problem)
    decreases steps
  {
    if steps != [] {
      ProblemsExactly(lib, steps[0].yes, problem);
      ProblemsExactly(lib, steps[0].no, problem);
      ProblemsExactly(lib, steps[1..], problem);
      UnfinishedExactly(lib, steps[0], problem);
      SomeLacksParts(lib, steps, problem);
    }
  }

  lemma UnfinishedExactly(lib: Library, step: Step, problem: StepProblem)
    ensures problem in Unfinished(lib, step) <==> step.id == problem.id && Lacks(lib, step, problem.fault)
  {
  }

  // ----- the check, step by step

  function IdSet(steps: seq<Step>): set<string>
  {
    if steps == [] then {} else {steps[0].id} + IdSet(steps[0].yes) + IdSet(steps[0].no) + IdSet(steps[1..])
  }

  /** What the checker has gathered so far. */
  datatype Tally = Tally(seen: set<string>, count: nat, problems: seq<StepProblem>)
  {
    function Add(lib: Library, step: Step): Tally
    {
      Tally(seen + {step.id}, count + 1, problems + Unfinished(lib, step))
    }

    function AddAll(lib: Library, steps: seq<Step>): Tally
    {
      Tally(seen + IdSet(steps), count + CountSteps(steps), problems + Problems(lib, steps))
    }
  }

  /** A list passes, given what was gathered before it. */
  ghost predicate Passes(lib: Library, steps: seq<Step>, depth: nat, t: Tally)
    decreases steps
  {
    steps != [] ==>
      StepPasses(lib, steps[0], depth, t) && Passes(lib, steps[1..], depth, After(lib, steps[0], t))
  }

  /** A step and both its paths pass. */
  ghost predicate StepPasses(lib: Library, step: Step, depth: nat, t: Tally)
    decreases step
  {
    && t.count < MAX_STEPS_PER_RULE
    && step.id !in t.seen
    && StepFits(lib, step, depth)
    && Passes(lib, step.yes, depth + 1, t.Add(lib, step))
    && Passes(lib, step.no, depth + 1, t.Add(lib, step).AddAll(lib, step.yes))
  }

  function After(lib: Library, step: Step, t: Tally): Tally
  {
    t.Add(lib, step).AddAll(lib, step.yes).AddAll(lib, step.no)
  }

  lemma RegroupIds(seen: set<string>, own: set<string>, yes: set<string>, no: set<string>, rest: set<string>)
    ensures seen + (own + yes + no + rest) == seen + own + yes + no + rest
  {
  }

  lemma RegroupProblems(before: seq<StepProblem>, own: seq<StepProblem>, yes: seq<StepProblem>,
    no: seq<StepProblem>, rest: seq<StepProblem>)
    ensures before + (own + yes + no + rest) == before + own + yes + no + rest
  {
  }

  lemma {:induction false} AfterAll(lib: Library, steps: seq<Step>, t: Tally)
    requires steps != []
    ensures t.AddAll(lib, steps) == After(lib, steps[0], t).AddAll(lib, steps[1..])
  {
    var step, rest := steps[0], steps[1..];
    RegroupIds(t.seen, {step.id}, IdSet(step.yes), IdSet(step.no), IdSet(rest));
    RegroupProblems(t.problems, Unfinished(lib, step), Problems(lib, step.yes), Problems(lib, step.no),
                    Problems(lib, rest));
    assert CountSteps(steps) == 1 + CountSteps(step.yes) + CountSteps(step.no) + CountSteps(rest);
  }

  lemma {:induction false} LeafPasses(lib: Library, step: Step, depth: nat, t: Tally)
    requires step.yes == [] && step.no == []
    ensures After(lib, step, t) == t.Add(lib, step)
    ensures StepPasses(lib, step, depth, t) <==>
              t.count < MAX_STEPS_PER_RULE && step.id !in t.seen && StepFits(lib, step, depth)
  {
  }

  // ----- what an error says

  /** What is wrong with one step, given what was gathered before it. */
  ghost predicate StepFault(lib: Library, e: StructuralError, step: Step, depth: nat, t: Tally)
  {
    match e
    case TooManySteps => t.count >= MAX_STEPS_PER_RULE
    case MissingId => step.id == ""
    case DuplicateId(id) => step.id == id && id in t.seen
    case NestedTooDeep(id) => step.id == id && step.kind.Condition? && depth >= MAX_NESTING
    case OnlyQuestionsSplit(id) => step.id == id && !step.kind.Condition? && (step.yes != [] || step.no != [])
    case UnknownKind(id) => step.id == id && step.kind.Action? && !lib.known(step.kind.name)
    case RegistryUnavailable => step.kind.Condition? && lib.asks(step) && !lib.registryAvailable
  }

  /** The error names something that is really wrong somewhere in the list. */
  ghost predicate Justified(lib: Library, e: StructuralError, steps: seq<Step>, depth: nat, t: Tally)
    decreases steps
  {
    steps != [] && (StepJustified(lib, e, steps[0], depth, t) || Justified(lib, e, steps[1..], depth, After(lib, steps[0], t)))
  }

  ghost predicate StepJustified(lib: Library, e: StructuralError, step: Step, depth: nat, t: Tally)
    decreases step
  {
    || StepFault(lib, e, step, depth, t)
    || Justified(lib, e, step.yes, depth + 1, t.Add(lib, step))
    || Justified(lib, e, step.no, depth + 1, t.Add(lib, step).AddAll(lib, step.yes))
  }

  /** Having gathered `t`, what remains of a list decides about the list as a whole. */
  ghost predicate OnTrack(lib: Library, steps: seq<Step>, depth: nat, from: Tally, rest: seq<Step>, t: Tally)
  {
    && (Passes(lib, steps, depth, from) <==> Passes(lib, rest, depth, t))
    && from.AddAll(lib, steps) == t.AddAll(lib, rest)
    && forall e :: Justified(lib, e, rest, depth, t) ==> Justified(lib, e, steps, depth, from)
  }

  lemma {:induction false} OnTrackStep(lib: Library, steps: seq<Step>, depth: nat, from: Tally, rest: seq<Step>, t: Tally)
    requires rest != [] && OnTrack(lib, steps, depth, from, rest, t)
    ensures StepPasses(lib, rest[0], depth, t) ==>
              OnTrack(lib, steps, depth, from, rest[1..], After(lib, rest[0], t))
    ensures !StepPasses(lib, rest[0], depth, t) ==> !Passes(lib, steps, depth, from)
    ensures forall e :: StepJustified(lib, e, rest[0], depth, t) ==> Justified(lib, e, steps, depth, from)
  {
    AfterAll(lib, rest, t);
  }

  // ----- what passing means for the tree as a whole

  function ToSet(ids: seq<string>): set<string>
  {
    set id | id in ids
  }

  /** Ids that are all different and not seen before. */
  ghost predicate New(ids: seq<string>, seen: set<string>)
  {
    Distinct(ids) && forall id :: id in ids ==> id !in seen
  }

  lemma {:induction false} NewConcat(a: seq<string>, b: seq<string>, seen: set<string>)
    ensures New(a + b, seen) <==> New(a, seen) && New(b, seen + ToSet(a))
    ensures ToSet(a + b) == ToSet(a) + ToSet(b)
  {
    DistinctConcat(a, b);
    assert forall x :: x in a + b <==> x in a || x in b;
  }

  lemma {:induction false} NewParts(id: string, y: seq<string>, n: seq<string>, r: seq<string>, seen: set<string>)
    ensures New([id] + y + n + r, seen) <==>
              && id !in seen
              && New(y, seen + {id})
              && New(n, seen + {id} + ToSet(y))
              && New(r, seen + {id} + ToSet(y) + ToSet(n))
    ensures ToSet([id] + y + n + r) == {id} + ToSet(y) + ToSet(n) + ToSet(r)
  {
    NewConcat([id] + y + n, r, seen);
    NewConcat([id] + y, n, seen);
    NewConcat([id], y, seen);
    assert ToSet([id]) == {id};
    assert seen + ({id} + ToSet(y)) == seen + {id} + ToSet(y);
    assert seen + ({id} + ToSet(y) + ToSet(n)) == seen + {id} + ToSet(y) + ToSet(n);
  }

  lemma {:induction false} IdSetIsIds(steps: seq<Step>)
    ensures IdSet(steps) == ToSet(Ids(steps))
  {
    if steps != [] {
      IdSetIsIds(steps[0].yes);
      IdSetIsIds(steps[0].no);
      IdSetIsIds(steps[1..]);
      NewParts(steps[0].id, Ids(steps[0].yes), Ids(steps[0].no), Ids(steps[1..]), {});
    }
  }

  /** A list passes exactly when every step fits, there is room for all of them, and all ids are new. */
  lemma {:induction false} PassesExactly(lib: Library, steps: seq<Step>, depth: nat, t: Tally)
    requires t.count <= MAX_STEPS_PER_RULE
    ensures Passes(lib, steps, depth, t) <==>
              && AllFit(lib, steps, depth)
              && t.count + CountSteps(steps) <= MAX_STEPS_PER_RULE
              && New(Ids(steps), t.seen)
    decreases steps
  {
    if steps != [] {
      var s := steps[0];
      IdSetIsIds(s.yes);
      IdSetIsIds(s.no);
      NewParts(s.id, Ids(s.yes), Ids(s.no), Ids(steps[1..]), t.seen);
      if t.count < MAX_STEPS_PER_RULE {
        PassesExactly(lib, s.yes, depth + 1, t.Add(lib, s));
        if t.count + 1 + CountSteps(s.yes) <= MAX_STEPS_PER_RULE {
          PassesExactly(lib, s.no, depth + 1, t.Add(lib, s).AddAll(lib, s.yes));
          if After(lib, s, t).count <= MAX_STEPS_PER_RULE {
            PassesExactly(lib, steps[1..], depth, After(lib, s, t));
          }
        }
      }
    }
  }

  ghost predicate Repeated(id: string, ids: seq<string>, seen: set<string>)
  {
    id in ids && (id in seen || multiset(ids)[id] > 1)
  }

  lemma {:induction false} RepeatedConcat(id: string, a: seq<string>, b: seq<string>, seen: set<string>)
    ensures Repeated(id, a, seen) || Repeated(id, b, seen + ToSet(a)) ==> Repeated(id, a + b, seen)
  {
    assert multiset(a + b) == multiset(a) + multiset(b);
    if id in a {
      assert id in multiset(a);
    }
    if id in b {
      assert id in multiset(b);
    }
  }

  lemma {:induction false} RepeatedParts(own: string, y: seq<string>, n: seq<string>, r: seq<string>,
                                         seen: set<string>, id: string)
    requires || (id == own && own in seen)
             || Repeated(id, y, seen + {own})
             || Repeated(id, n, seen + {own} + ToSet(y))
             || Repeated(id, r, seen + {own} + ToSet(y) + ToSet(n))
    ensures Repeated(id, [own] + y + n + r, seen)
  {
    NewConcat([own], y, seen);
    NewConcat([own] + y, n, seen);
    assert ToSet([own]) == {own};
    assert seen + ({own} + ToSet(y)) == seen + {own} + ToSet(y);
    assert seen + ({own} + ToSet(y) + ToSet(n)) == seen + {own} + ToSet(y) + ToSet(n);
    RepeatedConcat(id, [own], y, seen);
    RepeatedConcat(id, [own] + y, n, seen);
    RepeatedConcat(id, [own] + y + n, r, seen);
  }

  /** "Two steps share this id" is only said of an id that occurs twice. */
  lemma {:induction false} DuplicateIdIsRepeated(lib: Library, id: string, steps: seq<Step>, depth: nat, t: Tally)
    requires Justified(lib, DuplicateId(id), steps, depth, t)
    ensures Repeated(id, Ids(steps), t.seen)
    decreases steps
  {
    var s, e := steps[0], DuplicateId(id);
    IdSetIsIds(s.yes);
    IdSetIsIds(s.no);
    if StepFault(lib, e, s, depth, t) {
    } else if Justified(lib, e, s.yes, depth + 1, t.Add(lib, s)) {
      DuplicateIdIsRepeated(lib, id, s.yes, depth + 1, t.Add(lib, s));
    } else if Justified(lib, e, s.no, depth + 1, t.Add(lib, s).AddAll(lib, s.yes)) {
      DuplicateIdIsRepeated(lib, id, s.no, depth + 1, t.Add(lib, s).AddAll(lib, s.yes));
    } else {
      DuplicateIdIsRepeated(lib, id, steps[1..], depth, After(lib, s, t));
    }
    RepeatedParts(s.id, Ids(s.yes), Ids(s.no), Ids(steps[1..]), t.seen, id);
  }

  lemma {:induction false} TooManyIsTooMany(lib: Library, steps: seq<Step>, depth: nat, t: Tally)
    requires Justified(lib, TooManySteps, steps, depth, t)
    ensures t.count + CountSteps(steps) > MAX_STEPS_PER_RULE
    decreases steps
  {
    var s, e := steps[0], TooManySteps;
    if StepFault(lib, e, s, depth, t) {
    } else if Justified(lib, e, s.yes, depth + 1, t.Add(lib, s)) {
      TooManyIsTooMany(lib, s.yes, depth + 1, t.Add(lib, s));
    } else if Justified(lib, e, s.no, depth + 1, t.Add(lib, s).AddAll(lib, s.yes)) {
      TooManyIsTooMany(lib, s.no, depth + 1, t.Add(lib, s).AddAll(lib, s.yes));
    } else {
      TooManyIsTooMany(lib, steps[1..], depth, After(lib, s, t));
    }
  }

  class StepChecker {
    const lib: Library
    var seen: set<string>
    var count: nat
    var structural: Option<StructuralError>
    var problems: seq<StepProblem>

    ghost function Gathered(): Tally
      reads this
    {
      Tally(seen, count, problems)
    }

    constructor (lib: Library)
      ensures this.lib == lib && structural == None && Gathered() == Tally({}, 0, [])
    {
      this.lib := lib;
      seen, count, structural, problems := {}, 0, None, [];
    }

    method Walk(steps: seq<Step>, depth: nat)
      modifies this
      ensures old(structural).Some? ==> structural == old(structural) && Gathered() == old(Gathered())
      ensures old(structural).None? ==> (structural.None? <==> Passes(lib, steps, depth, old(Gathered())))
      ensures structural.None? ==> Gathered() == old(Gathered()).AddAll(lib, steps)
      ensures old(structural).None? && structural.Some? ==>
        Justified(lib, structural.value, steps, depth, old(Gathered()))
      decreases steps
    {
      if structural.Some? {
        return;
      }
      var i := 0;
      assert steps[0..] == steps;
      ghost var from := Gathered();
      while i < |steps|
        invariant 0 <= i <= |steps|
        invariant structural.None? ==> OnTrack(lib, steps, depth, from, steps[i..], Gathered())
        invariant structural.Some? ==>
          !Passes(lib, steps, depth, from) && Justified(lib, structural.value, steps, depth, from)
      {
        if structural.Some? {
          return;
        }
        assert steps[i..][0] == steps[i] && steps[i..][1..] == steps[i + 1..];
        OnTrackStep(lib, steps, depth, from, steps[i..], Gathered());
        CheckOne(steps[i], depth);
        i := i + 1;
      }
    }

    /** One turn of the loop: a step and, for a question, both of its paths. */
    method CheckOne(step: Step, depth: nat)
      requires structural.None?
      modifies this
      ensures structural.None? <==> StepPasses(lib, step, depth, old(Gathered()))
      ensures structural.None? ==> Gathered() == After(lib, step, old(Gathered()))
      ensures structural.Some? ==> StepJustified(lib, structural.value, step, depth, old(Gathered()))
      decreases step, 1
    {
      ghost var before := Gathered();
      count := count + 1;
      if count > MAX_STEPS_PER_RULE {
        structural := Some(TooManySteps);
        return;
      }
      if step.id == "" {
        structural := Some(MissingId);
        return;
      }
      if step.id in seen {
        structural := Some(DuplicateId(step.id));
        return;
      }
      seen := seen + {step.id};

      if step.kind.Condition? {
        CheckQuestion(step, depth, before);
      } else {
        CheckLeaf(step);
        if structural.None? {
          LeafPasses(lib, step, depth, before);
        } else {
          assert StepFault(lib, structural.value, step, depth, before);
        }
      }
    }

    method CheckQuestion(step: Step, depth: nat, ghost before: Tally)
      requires structural.None? && step.kind.Condition?
      requires step.id != "" && step.id !in before.seen && before.count < MAX_STEPS_PER_RULE
      requires Gathered() == Tally(before.seen + {step.id}, before.count + 1, before.problems)
      modifies this
      ensures structural.None? <==> StepPasses(lib, step, depth, before)
      ensures structural.None? ==> Gathered() == After(lib, step, before)
      ensures structural.Some? ==> StepJustified(lib, structural.value, step, depth, before)
      decreases step, 0
    {
      if depth >= MAX_NESTING {
        structural := Some(NestedTooDeep(step.id));
        assert StepFault(lib, structural.value, step, depth, before);
        return;
      }
      CheckCondition(step);
      if structural.Some? {
        assert StepFault(lib, structural.value, step, depth, before);
      } else {
        assert Gathered() == before.Add(lib, step);
      }
      Walk(step.yes, depth + 1);
      if structural.None? {
        assert Gathered() == before.Add(lib, step).AddAll(lib, step.yes);
      }
      Walk(step.no, depth + 1);
    }

    method CheckLeaf(step: Step)
      requires structural.None? && !step.kind.Condition?
      modifies this`structural, this`problems
      ensures structural.None? <==>
        step.yes == [] && step.no == [] && (step.kind.Action? ==> lib.known(step.kind.name))
      ensures structural.None? ==> problems == old(problems) + Unfinished(lib, step)
      ensures structural.Some? ==> forall depth: nat, t: Tally {:trigger StepFault(lib, structural.value, step, depth, t)} ::
        StepFault(lib, structural.value, step, depth, t)
    {
      if step.kind.Wait? {
        if |step.yes| > 0 || |step.no| > 0 {
          structural := Some(OnlyQuestionsSplit(step.id));
          return;
        }
        CheckWait(step);
      } else {
        if !lib.known(step.kind.name) {
          structural := Some(UnknownKind(step.id));
          return;
        }
        if |step.yes| > 0 || |step.no| > 0 {
          structural := Some(OnlyQuestionsSplit(step.id));
          return;
        }
        if !lib.complete(step) {
          problems := problems + [StepProblem(step.id, Incomplete)];
        }
      }
    }

    method CheckCondition(step: Step)
      requires step.kind.Condition? && structural.None?
      modifies this`structural, this`problems
      ensures structural == if lib.asks(step) && !lib.registryAvailable then Some(RegistryUnavailable) else None
      ensures structural.None? ==> problems == old(problems) + Unfinished(lib, step)
    {
      if !lib.asks(step) {
        problems := problems + [StepProblem(step.id, ChooseQuestion)];
        return;
      }
      if !lib.registryAvailable {
        structural := Some(RegistryUnavailable);
        return;
      }
      if !lib.questionValid(step) {
        problems := problems + [StepProblem(step.id, InvalidQuestion)];
      }
    }

    method CheckWait(step: Step)
      requires step.kind.Wait?
      modifies this`problems
      ensures problems == old(problems) + Unfinished(lib, step)
    {
      var length := lib.waitLength(step);
      if length.None? {
        problems := problems + [StepProblem(step.id, ChooseLength)];
      } else if length.value < MIN_WAIT {
        problems := problems + [StepProblem(step.id, TooShort)];
      } else if length.value > MAX_WAIT {
        problems := problems + [StepProblem(step.id, TooLong)];
      }
    }
  }


  /**
    The whole check of a rule's steps. It accepts exactly the well-formed trees,
    and its problems are then precisely the unfinished steps in written order.
   */
  method CheckSteps(lib: Library, steps: seq<Step>) returns (r: Result<seq<StepProblem>, StructuralError>)
    ensures r.Ok? <==> AllFit(lib, steps, 0) && CountSteps(steps) <= 40 && Distinct(Ids(steps))
    ensures r.Ok? ==> r.value == Problems(lib, steps)
    ensures r.Err? ==> Justified(lib, r.error, steps, 0, Tally({}, 0, []))
    ensures r == Err(TooManySteps) ==> CountSteps(steps) > MAX_STEPS_PER_RULE
    ensures r.Err? && r.error.DuplicateId? ==> multiset(Ids(steps))[r.error.id] > 1
  {
    var checker := new StepChecker(lib);
    checker.Walk(steps, 0);
    PassesExactly(lib, steps, 0, Tally({}, 0, []));
    if checker.structural.Some? {
      match checker.structural.value {
        case TooManySteps => TooManyIsTooMany(lib, steps, 0, Tally({}, 0, []));
        case DuplicateId(id) => DuplicateIdIsRepeated(lib, id, steps, 0, Tally({}, 0, []));
        case _ =>
      }
      return Err(checker.structural.value);
    }
    return Ok(checker.problems);
  }
}
