/**
  Loop protection: rules react to events, their contact actions publish events of
  their own, and rules react to those. Every event a rule causes names the rule
  and is one deeper than the event the rule reacted to, so a chain stops.
 */
module Cascade {
  import opened Wrappers
  import opened CrmEvents

  const MAX_DEPTH := 3

  // The reaction of one rule ----------------------------------------------------------

  datatype Skip = TriggerNotMet | SelfTrigger | LoopDepth | Acts

  /** `matches`: whether the trigger's settings fit. Later checks only ever refuse more, and count as doing nothing. */
  function SkipReason(rule: Uuid, matches: bool, e: Event): Skip
  {
    if !matches then TriggerNotMet
    else if e.origin.rule == Some(rule) then SelfTrigger
    else if e.origin.depth >= MAX_DEPTH then LoopDepth
    else Acts
  }

  /** One event a contact action publishes. */
  datatype Change =
    | TagAdded(tag: string)
    | TagRemoved(tag: string)
    | FieldChanged(field: string)
    | StageChanged(stage: string)
    | OwnerAssigned(owner: Option<Uuid>)

  function KindOf(c: Change): string
  {
    match c
    case TagAdded(_) => "contact.tag_added"
    case TagRemoved(_) => "contact.tag_removed"
    case FieldChanged(_) => "contact.field_changed"
    case StageChanged(_) => "contact.lifecycle_stage_changed"
    case OwnerAssigned(_) => "contact.assigned"
  }

  /** The context a rule's actions run in. */
  datatype RunContext = RunContext(org: Uuid, contact: Option<Uuid>, actor: Actor, origin: Origin)

  function ContextFor(rule: Uuid, e: Event): RunContext
  {
    RunContext(e.org, e.contact, Actor("automation", Some(rule), ""), Origin(Some(rule), e.origin.depth + 1))
  }

  function Publish(rc: RunContext, c: Change): Event
  {
    Event(0, KindOf(c), rc.org, rc.contact, Subject("contact", rc.contact), rc.actor, map[], 0, rc.origin)
  }

  /** What reaches the engine of the changes one run makes. */
  function Caused(rule: Uuid, e: Event, changes: seq<Change>, now: nat): seq<Event>
  {
    seq(|changes|, i requires 0 <= i < |changes| => Delivered(Publish(ContextFor(rule, e), changes[i]), now, now))
  }

  lemma CausedAreDeeper(rule: Uuid, e: Event, changes: seq<Change>, now: nat)
    ensures forall i :: 0 <= i < |changes| ==>
      Caused(rule, e, changes, now)[i].origin == Origin(Some(rule), e.origin.depth + 1)
  {
    forall i | 0 <= i < |changes|
      ensures Caused(rule, e, changes, now)[i].origin == Origin(Some(rule), e.origin.depth + 1)
    {
      EventSurvives(Publish(ContextFor(rule, e), changes[i]), now, now);
    }
  }

  /** Each change becomes its own event, about the same contact and in the rule's name. */
  lemma {:induction false} ChangesAreTold(rule: Uuid, e: Event, changes: seq<Change>, now: nat)
    ensures var caused := Caused(rule, e, changes, now);
      |caused| == |changes| && forall i :: 0 <= i < |changes| ==>
        && caused[i].kind == (match changes[i]
             case TagAdded(_) => "contact.tag_added"
             case TagRemoved(_) => "contact.tag_removed"
             case FieldChanged(_) => "contact.field_changed"
             case StageChanged(_) => "contact.lifecycle_stage_changed"
             case OwnerAssigned(_) => "contact.assigned")
        && caused[i].org == e.org && caused[i].contact == e.contact
        && caused[i].actor == Actor("automation", Some(rule), "")
  {
    forall i | 0 <= i < |changes|
      ensures Caused(rule, e, changes, now)[i] == Delivered(Publish(ContextFor(rule, e), changes[i]), now, now)
    {
      EventSurvives(Publish(ContextFor(rule, e), changes[i]), now, now);
    }
  }

  // Until nothing is left ----------------------------------------------------------------

  /** What each rule would do about each event, in whatever state it finds the contact: all the oracles there are. */
  type World = (nat, Uuid, Event) -> (bool, seq<Change>)

  /** The `at`-th event handled by all the rules, in order. */
  function Reactions(rules: seq<Uuid>, world: World, at: nat, e: Event): seq<Event>
    decreases |rules|
  {
    if rules == [] then [] else Reaction(rules[0], world, at, e) + Reactions(rules[1..], world, at, e)
  }

  function Reaction(rule: Uuid, world: World, at: nat, e: Event): seq<Event>
  {
    var (matches, changes) := world(at, rule, e);
    if SkipReason(rule, matches, e).Acts? then Caused(rule, e, changes, at) else []
  }

  function AtDepth(queue: seq<Event>, depth: int): nat
  {
    if queue == [] then 0 else (if queue[0].origin.depth == depth then 1 else 0) + AtDepth(queue[1..], depth)
  }

  predicate Shallow(queue: seq<Event>)
  {
    forall i :: 0 <= i < |queue| ==> 0 <= queue[i].origin.depth <= MAX_DEPTH
  }

  lemma {:induction false} AtDepthAppend(a: seq<Event>, b: seq<Event>, depth: int)
    ensures AtDepth(a + b, depth) == AtDepth(a, depth) + AtDepth(b, depth)
    decreases |a|
  {
    if a == [] {
      assert a + b == b;
    } else {
      assert (a + b)[1..] == a[1..] + b;
      AtDepthAppend(a[1..], b, depth);
    }
  }

  /** Everything caused by an event is exactly one deeper, and nothing is caused at the depth limit. */
  lemma {:induction false} ReactionsAreDeeper(rules: seq<Uuid>, world: World, at: nat, e: Event)
    ensures forall i :: 0 <= i < |Reactions(rules, world, at, e)| ==>
      Reactions(rules, world, at, e)[i].origin.depth == e.origin.depth + 1
    ensures e.origin.depth >= MAX_DEPTH ==> Reactions(rules, world, at, e) == []
    decreases |rules|
  {
    if rules != [] {
      CausedAreDeeper(rules[0], e, world(at, rules[0], e).1, at);
      ReactionsAreDeeper(rules[1..], world, at, e);
    }
  }

  lemma {:induction false} NoneAt(queue: seq<Event>, depth: int)
    requires forall i :: 0 <= i < |queue| ==> queue[i].origin.depth != depth
    ensures AtDepth(queue, depth) == 0
    decreases |queue|
  {
    if queue != [] {
      NoneAt(queue[1..], depth);
    }
  }

  /** Handling an event of depth `d` takes it away and only adds events of depth `d + 1`. */
  lemma {:induction false} StepShrinks(rules: seq<Uuid>, world: World, at: nat, queue: seq<Event>, depth: int)
    requires queue != [] && depth <= queue[0].origin.depth
    ensures AtDepth(queue[1..] + Reactions(rules, world, at, queue[0]), depth) ==
            AtDepth(queue, depth) - if depth == queue[0].origin.depth then 1 else 0
  {
    var caused := Reactions(rules, world, at, queue[0]);
    AtDepthAppend(queue[1..], caused, depth);
    ReactionsAreDeeper(rules, world, at, queue[0]);
    NoneAt(caused, depth);
  }

  /** Loop protection: the event is not the rule's own and not at the end of a chain. */
  predicate MayAct(rule: Uuid, e: Event)
  {
    e.origin.depth < 3 && e.origin.rule != Some(rule)
  }

  /** A run that acted: the rule, and the event it reacted to. */
  datatype Acted = Acted(rule: Uuid, event: Event)

  /** The rules that act on the `at`-th event, in order. */
  function Runs(rules: seq<Uuid>, world: World, at: nat, e: Event): seq<Acted>
    decreases |rules|
  {
    if rules == [] then [] else Running(rules[0], world, at, e) + Runs(rules[1..], world, at, e)
  }

  function Running(rule: Uuid, world: World, at: nat, e: Event): seq<Acted>
  {
    if SkipReason(rule, world(at, rule, e).0, e).Acts? then [Acted(rule, e)] else []
  }

  /** Everything the handled events caused, in the order it was published. */
  function AllReactions(rules: seq<Uuid>, world: World, handled: seq<Event>): seq<Event>
  {
    if handled == [] then []
    else
      var last := |handled| - 1;
      AllReactions(rules, world, handled[..last]) + Reactions(rules, world, last, handled[last])
  }

  function AllRuns(rules: seq<Uuid>, world: World, handled: seq<Event>): seq<Acted>
  {
    if handled == [] then []
    else
      var last := |handled| - 1;
      AllRuns(rules, world, handled[..last]) + Runs(rules, world, last, handled[last])
  }

  lemma AllAppend(rules: seq<Uuid>, world: World, handled: seq<Event>, e: Event)
    ensures AllReactions(rules, world, handled + [e]) ==
            AllReactions(rules, world, handled) + Reactions(rules, world, |handled|, e)
    ensures AllRuns(rules, world, handled + [e]) == AllRuns(rules, world, handled) + Runs(rules, world, |handled|, e)
  {
    assert (handled + [e])[..|handled|] == handled;
  }

  /** One item moves from the queue to what is done, and more is queued. */
  lemma Shift<T>(done: seq<T>, queue: seq<T>, first: seq<T>, caused: seq<T>, more: seq<T>)
    requires queue != [] && done + queue == first + caused
    ensures (done + [queue[0]]) + (queue[1..] + more) == first + (caused + more)
  {
    assert done + queue == (done + [queue[0]]) + queue[1..];
    assert (done + queue) + more == first + (caused + more);
  }

  lemma Assoc<T>(a: seq<T>, b: seq<T>, c: seq<T>)
    ensures a + (b + c) == (a + b) + c
  {
  }

  /** A rule acts exactly on an event that fits its trigger, is not its own, and is not at the end of a chain. */
  predicate ActsOn(world: World, at: nat, rule: Uuid, e: Event)
  {
    world(at, rule, e).0 && MayAct(rule, e)
  }

  lemma {:induction false} RunsExactly(rules: seq<Uuid>, world: World, at: nat, e: Event, run: Acted)
    ensures run in Runs(rules, world, at, e) <==> run.event == e && run.rule in rules && ActsOn(world, at, run.rule, e)
    decreases |rules|
  {
    if rules != [] {
      RunsExactly(rules[1..], world, at, e, run);
      assert rules == [rules[0]] + rules[1..];
    }
  }

  predicate ActedOn(world: World, handled: seq<Event>, k: nat, run: Acted)
    requires k < |handled|
  {
    handled[k] == run.event && ActsOn(world, k, run.rule, handled[k])
  }

  ghost predicate ActedOnSome(rules: seq<Uuid>, world: World, handled: seq<Event>, run: Acted)
  {
    run.rule in rules && exists k :: 0 <= k < |handled| && ActedOn(world, handled, k, run)
  }

  lemma OneMoreHandled(rules: seq<Uuid>, world: World, before: seq<Event>, e: Event, run: Acted)
    ensures ActedOnSome(rules, world, before + [e], run) <==>
            ActedOnSome(rules, world, before, run) || (run.rule in rules && run.event == e && ActsOn(world, |before|, run.rule, e))
  {
    var all := before + [e];
    assert forall k :: 0 <= k < |before| ==> (ActedOn(world, all, k, run) <==> ActedOn(world, before, k, run));
    assert ActedOn(world, all, |before|, run) <==> run.event == e && ActsOn(world, |before|, run.rule, e);
  }

  lemma {:induction false} AllRunsExactly(rules: seq<Uuid>, world: World, handled: seq<Event>, run: Acted)
    ensures run in AllRuns(rules, world, handled) <==> ActedOnSome(rules, world, handled, run)
  {
    if handled != [] {
      var last := |handled| - 1;
      var before, e := handled[..last], handled[last];
      AllRunsExactly(rules, world, before, run);
      RunsExactly(rules, world, last, e, run);
      OneMoreHandled(rules, world, before, e, run);
      assert handled == before + [e];
    }
  }

  /** What a rule causes: the events of its changes when it acts, otherwise none. */
  lemma ReactionExactly(rule: Uuid, world: World, at: nat, e: Event)
    ensures Reaction(rule, world, at, e) ==
            if ActsOn(world, at, rule, e) then Caused(rule, e, world(at, rule, e).1, at) else []
  {
  }

  /**
    Handles events until none is left. However many rules there are, whatever they
    do and whatever state they find, it comes to rest: what was handled is the
    first event and everything the handled events caused, nothing more and nothing
    less, and the runs are exactly those of the rules that act on them. Every event
    handled has depth at most 3; no rule acts on an event it caused itself or
    beyond the limit.
   */
  method Quiesce(rules: seq<Uuid>, world: World, first: Event) returns (handled: seq<Event>, acted: seq<Acted>)
    requires first.origin.depth == 0
    ensures handled == [first] + AllReactions(rules, world, handled)
    ensures acted == AllRuns(rules, world, handled)
    ensures Shallow(handled)
    ensures forall run :: run in acted <==> ActedOnSome(rules, world, handled, run)
  {
    var queue := [first];
    handled, acted := [], [];
    while queue != []
      invariant Shallow(queue) && Shallow(handled)
      invariant handled + queue == [first] + AllReactions(rules, world, handled)
      invariant acted == AllRuns(rules, world, handled)
      decreases AtDepth(queue, 0), AtDepth(queue, 1), AtDepth(queue, 2), AtDepth(queue, 3)
    {
      ghost var before := queue;
      var at := |handled|;
      var e := queue[0];
      var caused, runs := Handle(rules, world, at, e);
      AllAppend(rules, world, handled, e);
      Shift(handled, queue, [first], AllReactions(rules, world, handled), caused);
      queue := queue[1..] + caused;
      handled := handled + [e];
      acted := acted + runs;
      ReactionsAreDeeper(rules, world, at, e);
      forall d: int | d <= e.origin.depth
        ensures AtDepth(queue, d) == AtDepth(before, d) - if d == e.origin.depth then 1 else 0
      {
        StepShrinks(rules, world, at, before, d);
      }
    }
    forall run
      ensures run in acted <==> ActedOnSome(rules, world, handled, run)
    {
      AllRunsExactly(rules, world, handled, run);
    }
  }

  lemma {:induction false} NextRule(rules: seq<Uuid>, world: World, at: nat, e: Event, i: nat)
    requires i < |rules|
    ensures Reactions(rules[i..], world, at, e) == Reaction(rules[i], world, at, e) + Reactions(rules[i + 1..], world, at, e)
    ensures Runs(rules[i..], world, at, e) == Running(rules[i], world, at, e) + Runs(rules[i + 1..], world, at, e)
  {
    assert rules[i..][0] == rules[i] && rules[i..][1..] == rules[i + 1..];
  }

  /** One event through every rule. */
  method Handle(rules: seq<Uuid>, world: World, at: nat, e: Event) returns (caused: seq<Event>, runs: seq<Acted>)
    ensures caused == Reactions(rules, world, at, e)
    ensures runs == Runs(rules, world, at, e)
  {
    caused, runs := [], [];
    ghost var all, allRuns := Reactions(rules, world, at, e), Runs(rules, world, at, e);
    assert rules[0..] == rules;
    for i := 0 to |rules|
      invariant caused + Reactions(rules[i..], world, at, e) == all
      invariant runs + Runs(rules[i..], world, at, e) == allRuns
    {
      NextRule(rules, world, at, e, i);
      Assoc(caused, Reaction(rules[i], world, at, e), Reactions(rules[i + 1..], world, at, e));
      Assoc(runs, Running(rules[i], world, at, e), Runs(rules[i + 1..], world, at, e));
      ghost var before := runs;
      var acts, published := React(rules[i], world, at, e);
      caused := caused + published;
      if acts {
        runs := runs + [Acted(rules[i], e)];
      }
      assert runs == before + Running(rules[i], world, at, e);
    }
    assert caused + [] == caused && runs + [] == runs;
  }

  method React(rule: Uuid, world: World, at: nat, e: Event) returns (acts: bool, published: seq<Event>)
    ensures acts <==> ActsOn(world, at, rule, e)
    ensures published == Reaction(rule, world, at, e)
    ensures Running(rule, world, at, e) == if acts then [Acted(rule, e)] else []
  {
    var (matches, changes) := world(at, rule, e);
    acts := SkipReason(rule, matches, e) == Acts;
    published := [];
    if acts {
      published := Act(rule, e, changes, at);
    }
  }

  /** Each change publishes one event carrying the run's origin. */
  method Act(rule: Uuid, e: Event, changes: seq<Change>, now: nat) returns (published: seq<Event>)
    ensures published == Caused(rule, e, changes, now)
  {
    var rc := ContextFor(rule, e);
    published := [];
    for i := 0 to |changes|
      invariant published == Caused(rule, e, changes[..i], now)
    {
      published := published + [Delivered(Publish(rc, changes[i]), now, now)];
    }
    assert changes[..|changes|] == changes;
  }

  // The tag actions --------------------------------------------------------------------------

  /** Tags compare without regard to case. `lower` is Unicode lower-casing. */
  predicate HasKey(tags: seq<string>, key: string, lower: string -> string)
  {
    exists i :: 0 <= i < |tags| && lower(tags[i]) == key
  }

  predicate Carried(tags: seq<string>, tag: string, lower: string -> string)
  {
    HasKey(tags, lower(tag), lower)
  }

  lemma HasKeyConcat(a: seq<string>, b: seq<string>, key: string, lower: string -> string)
    ensures HasKey(a + b, key, lower) <==> HasKey(a, key, lower) || HasKey(b, key, lower)
  {
    if i: nat :| i < |a| && lower(a[i]) == key {
      assert (a + b)[i] == a[i];
    }
    if i: nat :| i < |b| && lower(b[i]) == key {
      assert (a + b)[|a| + i] == b[i];
    }
  }

  /** The keys of both lists. */
  ghost predicate KeysOf(have: set<string>, current: seq<string>, added: seq<string>, lower: string -> string)
  {
    forall key :: key in have <==> HasKey(current, key, lower) || HasKey(added, key, lower)
  }

  /** What has been chosen of the first `n` wanted tags: those not carried, each once. */
  ghost predicate Chosen(added: seq<string>, current: seq<string>, wanted: seq<string>, n: nat, lower: string -> string)
    requires n <= |wanted|
  {
    && (forall t :: t in added ==> t in wanted && !Carried(current, t, lower))
    && (forall k :: 0 <= k < n ==> Carried(current, wanted[k], lower) || Carried(added, wanted[k], lower))
    && (forall i, j :: 0 <= i < j < |added| ==> lower(added[i]) != lower(added[j]))
  }

  lemma ChooseStep(have: set<string>, added: seq<string>, current: seq<string>, wanted: seq<string>, n: nat,
    lower: string -> string)
    requires n < |wanted| && KeysOf(have, current, added, lower) && Chosen(added, current, wanted, n, lower)
    ensures lower(wanted[n]) in have ==> Chosen(added, current, wanted, n + 1, lower)
    ensures lower(wanted[n]) !in have ==>
      && KeysOf(have + {lower(wanted[n])}, current, added + [wanted[n]], lower)
      && Chosen(added + [wanted[n]], current, wanted, n + 1, lower)
  {
    var one := [wanted[n]];
    assert forall key :: HasKey(one, key, lower) <==> key == lower(one[0]);
    forall key
      ensures HasKey(added + one, key, lower) <==> HasKey(added, key, lower) || key == lower(wanted[n])
    {
      HasKeyConcat(added, one, key, lower);
    }
    if lower(wanted[n]) !in have {
      assert forall i :: 0 <= i < |added| ==> lower(added[i]) != lower(wanted[n]);
    }
  }

  /** The wanted tags the contact lacks, each once. */
  method MissingTags(current: seq<string>, wanted: seq<string>, lower: string -> string) returns (added: seq<string>)
    ensures forall t :: t in added ==> t in wanted && !Carried(current, t, lower)
    ensures forall t :: t in wanted ==> Carried(current + added, t, lower)
    ensures forall i, j :: 0 <= i < j < |added| ==> lower(added[i]) != lower(added[j])
  {
    var have := set i | 0 <= i < |current| :: lower(current[i]);
    added := [];
    for n := 0 to |wanted|
      invariant KeysOf(have, current, added, lower)
      invariant Chosen(added, current, wanted, n, lower)
    {
      ChooseStep(have, added, current, wanted, n, lower);
      var key := lower(wanted[n]);
      if key !in have {
        have := have + {key};
        added := added + [wanted[n]];
      }
    }
    forall t | t in wanted
      ensures Carried(current + added, t, lower)
    {
      HasKeyConcat(current, added, lower(t), lower);
    }
  }

  function TagsAdded(tags: seq<string>): seq<Change>
  {
    seq(|tags|, i requires 0 <= i < |tags| => TagAdded(tags[i]))
  }

  function TagsRemoved(tags: seq<string>): seq<Change>
  {
    seq(|tags|, i requires 0 <= i < |tags| => TagRemoved(tags[i]))
  }

  /** The add-tags action: the contact's tags afterwards, and one event for each tag it lacked. */
  method AddTags(rule: Uuid, e: Event, tags: seq<string>, wanted: seq<string>, lower: string -> string, now: nat)
    returns (added: seq<string>, after: seq<string>, published: seq<Event>)
    ensures after == tags + added && published == Caused(rule, e, TagsAdded(added), now)
    ensures forall t :: t in added ==> t in wanted && !Carried(tags, t, lower)
    ensures forall t :: t in wanted ==> Carried(after, t, lower)
    ensures forall i, j :: 0 <= i < j < |added| ==> lower(added[i]) != lower(added[j])
  {
    added := MissingTags(tags, wanted, lower);
    after := tags;
    published := [];
    if |added| == 0 {
      return;
    }
    after := tags + added;
    published := Act(rule, e, TagsAdded(added), now);
  }

  function Matching(tags: seq<string>, keys: set<string>, lower: string -> string, wanted: bool): seq<string>
  {
    if tags == [] then []
    else
      var last := tags[|tags| - 1];
      Matching(tags[..|tags| - 1], keys, lower, wanted) + if (lower(last) in keys) == wanted then [last] else []
  }

  lemma OneMoreTag(kept: seq<string>, removed: seq<string>, tags: seq<string>, tag: string)
    requires multiset(kept) + multiset(removed) == multiset(tags)
    ensures multiset(kept + [tag]) + multiset(removed) == multiset(tags + [tag])
    ensures multiset(kept) + multiset(removed + [tag]) == multiset(tags + [tag])
  {
  }

  lemma MatchingOneMore(before: seq<string>, last: string, keys: set<string>, lower: string -> string, wanted: bool)
    ensures Matching(before + [last], keys, lower, wanted) ==
            if (lower(last) in keys) == wanted then Matching(before, keys, lower, wanted) + [last]
            else Matching(before, keys, lower, wanted)
  {
    assert (before + [last])[..|before|] == before;
    assert Matching(before, keys, lower, wanted) + [] == Matching(before, keys, lower, wanted);
  }

  lemma {:induction false} MatchingConserves(tags: seq<string>, keys: set<string>, lower: string -> string)
    ensures multiset(Matching(tags, keys, lower, false)) + multiset(Matching(tags, keys, lower, true)) == multiset(tags)
  {
    if tags != [] {
      var before, last := tags[..|tags| - 1], tags[|tags| - 1];
      MatchingConserves(before, keys, lower);
      assert tags == before + [last];
      MatchingOneMore(before, last, keys, lower, false);
      MatchingOneMore(before, last, keys, lower, true);
      OneMoreTag(Matching(before, keys, lower, false), Matching(before, keys, lower, true), before, last);
    }
  }

  lemma {:induction false} MatchingMeans(tags: seq<string>, drop: seq<string>, lower: string -> string, wanted: bool)
    ensures var keys := set i | 0 <= i < |drop| :: lower(drop[i]);
      forall t :: t in Matching(tags, keys, lower, wanted) ==> t in tags && Carried(drop, t, lower) == wanted
  {
    if tags != [] {
      MatchingMeans(tags[..|tags| - 1], drop, lower, wanted);
    }
  }

  /** The remove-tags action: what is kept and what is removed, in order, and one event for each tag removed. */
  method RemoveTags(rule: Uuid, e: Event, tags: seq<string>, drop: seq<string>, lower: string -> string, now: nat)
    returns (kept: seq<string>, removed: seq<string>, published: seq<Event>)
    ensures var keys := set i | 0 <= i < |drop| :: lower(drop[i]);
      kept == Matching(tags, keys, lower, false) && removed == Matching(tags, keys, lower, true)
    ensures multiset(kept) + multiset(removed) == multiset(tags)
    ensures forall t :: t in kept ==> !Carried(drop, t, lower)
    ensures forall t :: t in removed ==> Carried(drop, t, lower)
    ensures published == Caused(rule, e, TagsRemoved(removed), now)
  {
    var keys := set i | 0 <= i < |drop| :: lower(drop[i]);
    kept, removed := SplitTags(tags, keys, lower);
    MatchingConserves(tags, keys, lower);
    MatchingMeans(tags, drop, lower, false);
    MatchingMeans(tags, drop, lower, true);
    published := [];
    if |removed| > 0 {
      published := Act(rule, e, TagsRemoved(removed), now);
    }
  }

  method SplitTags(tags: seq<string>, keys: set<string>, lower: string -> string)
    returns (kept: seq<string>, removed: seq<string>)
    ensures kept == Matching(tags, keys, lower, false) && removed == Matching(tags, keys, lower, true)
  {
    kept, removed := [], [];
    for i := 0 to |tags|
      invariant kept == Matching(tags[..i], keys, lower, false) && removed == Matching(tags[..i], keys, lower, true)
    {
      assert tags[..i + 1][..i] == tags[..i];
      if lower(tags[i]) in keys {
        removed := removed + [tags[i]];
      } else {
        kept := kept + [tags[i]];
      }
    }
    assert tags[..|tags|] == tags;
  }
}
