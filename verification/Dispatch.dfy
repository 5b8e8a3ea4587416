/**
  Rules run at most once per event, whatever is delivered twice and whoever
  crashes.

  Any number of workers take stream entries (at least once each, possibly the
  same event many times), claim a run per rule and event, walk the rule, park at
  waits and pick parked runs up again. The database steps of one worker
  interleave freely with everybody else's, and a worker may crash between any
  two of them. Rows of runs that do not wait may be pruned at any time. Rules are
  not edited while their runs are under way.
 */
module Dispatch {
  import opened Wrappers
  import opened Sequences
  import opened AutomationSteps
  import opened AutomationFlow
  import opened AutomationResume

  type EventId = nat
  type RuleId = nat
  type Worker = nat
  type Entry = nat

  /** The unique key of a run. */
  datatype Key = Key(rule: RuleId, event: EventId)

  datatype Rules = Rules(tree: RuleId -> seq<Step>, world: Key -> World)
  {
    ghost predicate WellFormed()
    {
      forall rule :: Distinct(Ids(tree(rule)))
    }
  }

  datatype Row =
    | NotStarted                                    // a recorded skip
    | Running
    | Parked(results: seq<ActionResult>)
    | Finished(results: seq<ActionResult>, status: RunStatus)
    | Cancelled

  datatype WaitStatus = Pending | Resumed | WaitCancelled

  datatype WaitRow = WaitRow(key: Key, pause: Pause, status: WaitStatus)

  /** Where a worker goes on once it is done with a run. */
  datatype Back = ToEntry(entry: Entry, event: EventId, todo: seq<RuleId>) | ToIdle

  datatype Job =
    | Handling(entry: Entry, event: EventId, todo: seq<RuleId>)
    | Performing(key: Key, leg: Progress, done: nat, back: Back)
    | Parking(key: Key, leg: Progress, back: Back)
    | Resuming(key: Key, wait: nat, at: int)         // claimed `at`

  /** A run's own history: when its legs started, and how many results have been performed. Read by no step. */
  datatype History = History(start: int, resumes: seq<int>, done: nat)

  /** One step's result as it came about, and when the leg it belongs to began. */
  datatype Deed = Deed(key: Key, result: ActionResult, began: int)

  /**
    `runs` and `waits` are the tables, `jobs` what each busy worker is doing.
    `acked` are the stream entries no longer delivered. `started` and
    `performed` log what happened to the outside world.
   */
  datatype State = State(runs: map<Key, Row>, waits: seq<WaitRow>, jobs: map<Worker, Job>, acked: set<Entry>,
                         started: seq<Key>, performed: seq<Deed>, history: map<Key, History>)

  const INITIAL := State(map[], [], map[], {}, [], [], map[])

  datatype Move =
    | Deliver(w: Worker, entry: Entry, event: EventId, rules: seq<RuleId>)
    | PassOver(w: Worker)                            // the trigger does not match: nothing is recorded
    | RecordSkip(w: Worker)                          // skipped for a reason worth recording
    | Claim(w: Worker, now: int)
    | Perform(w: Worker)
    | Complete(w: Worker)
    | Park(w: Worker)
    | Ack(w: Worker)
    | GiveUp(w: Worker, entry: Entry)
    | Crash(w: Worker)
    | ClaimWait(w: Worker, wait: nat, now: int)
    | StartLeg(w: Worker, now: int)
    | CancelWait(w: Worker)
    | Prune(key: Key)                                // rows that do not wait are deleted in time

  predicate AtRule(s: State, w: Worker)
  {
    w in s.jobs && s.jobs[w].Handling? && s.jobs[w].todo != []
  }

  predicate Enabled(s: State, m: Move)
  {
    match m
    case Deliver(w, entry, _, _) => w !in s.jobs && entry !in s.acked
    case PassOver(w) => AtRule(s, w)
    case RecordSkip(w) => AtRule(s, w)
    case Claim(w, _) => AtRule(s, w)
    case Perform(w) => w in s.jobs && s.jobs[w].Performing? && s.jobs[w].done < |s.jobs[w].leg.results|
    case Complete(w) => w in s.jobs && s.jobs[w].Performing? && s.jobs[w].done >= |s.jobs[w].leg.results|
    case Park(w) => w in s.jobs && s.jobs[w].Parking? && s.jobs[w].leg.paused.Some?
    case Ack(w) => w in s.jobs && s.jobs[w].Handling? && s.jobs[w].todo == []
    case GiveUp(w, entry) => w !in s.jobs && entry !in s.acked
    case Crash(w) => w in s.jobs
    case ClaimWait(w, i, now) =>
      w !in s.jobs && i < |s.waits| && s.waits[i].status.Pending? && s.waits[i].pause.resumeAt <= now
    case StartLeg(w, now) =>
      w in s.jobs && s.jobs[w].Resuming? && s.jobs[w].wait < |s.waits| && s.jobs[w].at <= now
    case CancelWait(w) => w in s.jobs && s.jobs[w].Resuming? && s.jobs[w].wait < |s.waits|
    case Prune(key) => key in s.runs && !s.runs[key].Parked?
  }

  /** An update of a run's row: one that is gone stays gone. */
  function Updated(runs: map<Key, Row>, key: Key, row: Row): map<Key, Row>
  {
    if key in runs then runs[key := row] else runs
  }

  function Return(s: State, w: Worker, back: Back): map<Worker, Job>
  {
    match back
    case ToEntry(entry, event, todo) => s.jobs[w := Handling(entry, event, todo)]
    case ToIdle => s.jobs - {w}
  }

  function NextRule(job: Job): Job
    requires job.Handling? && job.todo != []
  {
    job.(todo := job.todo[1..])
  }

  function Log(s: State, key: Key): History
  {
    if key in s.history then s.history[key] else History(0, [], 0)
  }

  /** When the leg under way began. */
  function Began(h: History): int
  {
    if h.resumes == [] then h.start else h.resumes[|h.resumes| - 1]
  }

  /** The stored results of a parked run; another row has none to go on from. */
  function Stored(s: State, key: Key): seq<ActionResult>
  {
    if key in s.runs && s.runs[key].Parked? then s.runs[key].results else []
  }

  ghost function Apply(rules: Rules, s: State, m: Move): State
    requires Enabled(s, m)
  {
    match m
    case Deliver(w, entry, event, list) => s.(jobs := s.jobs[w := Handling(entry, event, list)])
    case PassOver(w) => s.(jobs := s.jobs[w := NextRule(s.jobs[w])])
    case RecordSkip(w) =>
      var key := Key(s.jobs[w].todo[0], s.jobs[w].event);
      s.(jobs := s.jobs[w := NextRule(s.jobs[w])],
         runs := if key in s.runs then s.runs else s.runs[key := NotStarted])
    case Claim(w, now) =>
      var job := s.jobs[w];
      var key := Key(job.todo[0], job.event);
      // Insert if absent: the unique index turns a second claim into a no-op.
      if key in s.runs then s.(jobs := s.jobs[w := NextRule(job)])
      else
        var leg := Walk(Live(rules.world(key), now), rules.tree(key.rule), FRESH);
        s.(runs := s.runs[key := Running],
           jobs := s.jobs[w := Performing(key, leg, 0, ToEntry(job.entry, job.event, job.todo[1..]))],
           started := s.started + [key],
           history := s.history[key := History(now, [], 0)])
    case Perform(w) =>
      var job := s.jobs[w];
      s.(jobs := s.jobs[w := job.(done := job.done + 1)],
         performed := s.performed + [Deed(job.key, job.leg.results[job.done], Began(Log(s, job.key)))],
         history := s.history[job.key := Log(s, job.key).(done := job.done + 1)])
    case Complete(w) =>
      var job := s.jobs[w];
      if job.leg.paused.Some? then
        s.(runs := Updated(s.runs, job.key, Parked(job.leg.results)),
           jobs := s.jobs[w := Parking(job.key, job.leg, job.back)])
      else
        s.(runs := Updated(s.runs, job.key, Finished(job.leg.results, StatusFor(job.leg.results))),
           jobs := Return(s, w, job.back))
    case Park(w) =>
      var job := s.jobs[w];
      s.(waits := s.waits + [WaitRow(job.key, job.leg.paused.value, Pending)], jobs := Return(s, w, job.back))
    case Ack(w) => s.(acked := s.acked + {s.jobs[w].entry}, jobs := s.jobs - {w})
    case GiveUp(w, entry) => s.(acked := s.acked + {entry})
    case Crash(w) => s.(jobs := s.jobs - {w})
    case ClaimWait(w, i, now) =>
      // A guarded update: only one worker sees the row change from pending.
      s.(waits := s.waits[i := s.waits[i].(status := Resumed)], jobs := s.jobs[w := Resuming(s.waits[i].key, i, now)])
    case StartLeg(w, now) =>
      var job := s.jobs[w];
      var parked := Progress(Stored(s, job.key), false, Some(s.waits[job.wait].pause));
      var leg := ResumeAt(rules.world(job.key), rules.tree(job.key.rule), parked, now);
      if job.key !in s.runs || leg.None? then Cancel(s, w)
      else
        s.(jobs := s.jobs[w := Performing(job.key, leg.value, |Stored(s, job.key)|, ToIdle)],
           history := s.history[job.key := Log(s, job.key).(resumes := Log(s, job.key).resumes + [now])])
    case CancelWait(w) => Cancel(s, w)
    case Prune(key) => s.(runs := s.runs - {key})
  }

  function Cancel(s: State, w: Worker): State
    requires w in s.jobs && s.jobs[w].Resuming? && s.jobs[w].wait < |s.waits|
  {
    var job := s.jobs[w];
    s.(runs := Updated(s.runs, job.key, Cancelled),
       waits := s.waits[job.wait := s.waits[job.wait].(status := WaitCancelled)],
       jobs := s.jobs - {w})
  }

  ghost predicate Possible(rules: Rules, s: State, moves: seq<Move>)
    decreases |moves|
  {
    moves != [] ==> Enabled(s, moves[0]) && Possible(rules, Apply(rules, s, moves[0]), moves[1..])
  }

  ghost function Run(rules: Rules, s: State, moves: seq<Move>): State
    requires Possible(rules, s, moves)
    decreases |moves|
  {
    if moves == [] then s else Run(rules, Apply(rules, s, moves[0]), moves[1..])
  }

  /** Rows that keep a run from starting again are still there: nothing is claimed or skipped whose row was pruned. */
  predicate Guarded(s: State, m: Move)
    requires Enabled(s, m)
  {
    m.Claim? || m.RecordSkip? ==>
      var key := Key(s.jobs[m.w].todo[0], s.jobs[m.w].event);
      key in s.started ==> key in s.runs
  }

  ghost predicate GuardedRun(rules: Rules, s: State, moves: seq<Move>)
    requires Possible(rules, s, moves)
    decreases |moves|
  {
    moves == [] || (Guarded(s, moves[0]) && GuardedRun(rules, Apply(rules, s, moves[0]), moves[1..]))
  }

  // ----- the invariant

  predicate WorksOn(job: Job, key: Key)
  {
    !job.Handling? && job.key == key
  }

  predicate PendingFor(w: WaitRow, key: Key)
  {
    w.status.Pending? && w.key == key
  }

  /** At most one worker or pending wait holds a run, never both, and only of a run that was claimed. */
  ghost predicate OneHolder(s: State)
  {
    && (forall v, w :: v in s.jobs && w in s.jobs && v != w && !s.jobs[v].Handling? ==> !WorksOn(s.jobs[w], s.jobs[v].key))
    && (forall w, i :: w in s.jobs && !s.jobs[w].Handling? && 0 <= i < |s.waits| ==> !PendingFor(s.waits[i], s.jobs[w].key))
    && (forall i, j :: 0 <= i < j < |s.waits| && s.waits[i].status.Pending? ==> !PendingFor(s.waits[j], s.waits[i].key))
  }

  ghost predicate Claimed(s: State)
  {
    && Distinct(s.started)
    && (forall key :: key in s.history <==> key in s.started)
    && (forall w :: w in s.jobs && !s.jobs[w].Handling? ==> s.jobs[w].key in s.started)
    && (forall i :: 0 <= i < |s.waits| ==> s.waits[i].key in s.started)
    && (forall x :: x in s.performed ==> x.key in s.started)
  }

  /** What a run has come to after the legs its history lists. */
  function Reached(rules: Rules, s: State, key: Key): Progress
  {
    var h := Log(s, key);
    RunToEnd(rules.world(key), rules.tree(key.rule), h.start, h.resumes)
  }

  function Effects(performed: seq<Deed>, key: Key): seq<string>
  {
    if performed == [] then []
    else
      var last := performed[|performed| - 1];
      Effects(performed[..|performed| - 1], key) + if last.key == key then [last.result.id] else []
  }

  /** The steps performed for a run so far are exactly the first so many of those its legs call for. */
  ghost predicate Faithful(rules: Rules, s: State, key: Key)
  {
    var reached, done := Reached(rules, s, key), Log(s, key).done;
    && done <= |reached.results|
    && Effects(s.performed, key) == ResultIds(reached.results)[..done]
  }

  ghost predicate JobFaithful(rules: Rules, s: State, job: Job)
  {
    match job
    case Handling(_, _, _) => true
    case Performing(key, leg, done, _) => leg == Reached(rules, s, key) && done == Log(s, key).done
    case Parking(key, leg, _) => ParkedFaithful(rules, s, key) && leg == Reached(rules, s, key)
    case Resuming(key, i, _) =>
      && ParkedFaithful(rules, s, key)
      && i < |s.waits| && s.waits[i].key == key && Some(s.waits[i].pause) == Reached(rules, s, key).paused
  }

  /** A parked run's row, unless it is gone, holds what it has come to, all of it performed. */
  ghost predicate ParkedFaithful(rules: Rules, s: State, key: Key)
  {
    var reached := Reached(rules, s, key);
    && reached.paused.Some? && !reached.stopped
    && (key in s.runs ==> s.runs[key] == Parked(reached.results))
    && Log(s, key).done == |reached.results|
  }

  ghost predicate Invariant(rules: Rules, s: State)
  {
    && OneHolder(s)
    && Claimed(s)
    && (forall key :: key in s.started ==> Faithful(rules, s, key))
    && (forall w :: w in s.jobs ==> JobFaithful(rules, s, s.jobs[w]))
    && (forall i :: 0 <= i < |s.waits| && s.waits[i].status.Pending? ==>
          && ParkedFaithful(rules, s, s.waits[i].key)
          && Some(s.waits[i].pause) == Reached(rules, s, s.waits[i].key).paused)
  }

  // ----- one holder

  /** Nobody gains a run: every holder in `t` held the same run in `s`. */
  ghost predicate NoNewHolder(s: State, t: State)
  {
    && (forall w :: w in t.jobs && !t.jobs[w].Handling? ==>
          w in s.jobs && !s.jobs[w].Handling? && t.jobs[w].key == s.jobs[w].key)
    && |t.waits| == |s.waits|
    && (forall i :: 0 <= i < |s.waits| && t.waits[i].status.Pending? ==> s.waits[i].status.Pending?)
    && (forall i :: 0 <= i < |s.waits| ==> t.waits[i].key == s.waits[i].key)
  }

  lemma {:induction false} NoNewHolderKeepsOne(s: State, t: State)
    requires OneHolder(s) && NoNewHolder(s, t)
    ensures OneHolder(t)
  {
    forall w, i | w in t.jobs && !t.jobs[w].Handling? && 0 <= i < |t.waits| ensures !PendingFor(t.waits[i], t.jobs[w].key) {
      assert !PendingFor(s.waits[i], s.jobs[w].key);
    }
    forall i, j | 0 <= i < j < |t.waits| && t.waits[i].status.Pending? ensures !PendingFor(t.waits[j], t.waits[i].key) {
      assert !PendingFor(s.waits[j], s.waits[i].key);
    }
    forall v, w | v in t.jobs && w in t.jobs && v != w && !t.jobs[v].Handling? ensures !WorksOn(t.jobs[w], t.jobs[v].key) {
      if !t.jobs[w].Handling? {
        assert !WorksOn(s.jobs[w], s.jobs[v].key);
      }
    }
  }

  /** A parked run passes from its worker to the new pending wait. */
  lemma {:induction false} ParkKeepsOneHolder(rules: Rules, s: State, w: Worker)
    requires OneHolder(s) && Enabled(s, Park(w))
    ensures OneHolder(Apply(rules, s, Park(w)))
  {
    var t := Apply(rules, s, Park(w));
    var u := s.(jobs := t.jobs);
    NoNewHolderKeepsOne(s, u);
    var key := s.jobs[w].key;
    forall v | v in t.jobs && !t.jobs[v].Handling? ensures t.jobs[v].key != key {
      assert v != w && v in s.jobs && t.jobs[v] == s.jobs[v];
      assert !WorksOn(s.jobs[v], key);
    }
    forall i | 0 <= i < |s.waits| ensures !PendingFor(s.waits[i], key) {
    }
    assert forall i :: 0 <= i < |s.waits| ==> t.waits[i] == s.waits[i];
  }

  /** A due run passes from its pending wait to the worker that flipped the status. */
  lemma {:induction false} ClaimWaitKeepsOneHolder(rules: Rules, s: State, w: Worker, i: nat, now: int)
    requires OneHolder(s) && Enabled(s, ClaimWait(w, i, now))
    ensures OneHolder(Apply(rules, s, ClaimWait(w, i, now)))
  {
    var t := Apply(rules, s, ClaimWait(w, i, now));
    var u := s.(waits := t.waits);
    assert forall j :: 0 <= j < |s.waits| && j != i ==> t.waits[j] == s.waits[j];
    NoNewHolderKeepsOne(s, u);
    var key := s.waits[i].key;
    forall v | v in s.jobs && !s.jobs[v].Handling? ensures s.jobs[v].key != key {
      assert !PendingFor(s.waits[i], s.jobs[v].key);
    }
    forall j | 0 <= j < |t.waits| ensures !PendingFor(t.waits[j], key) {
      if j < i {
        assert s.waits[j].status.Pending? ==> !PendingFor(s.waits[i], s.waits[j].key);
      } else if j > i {
        assert !PendingFor(s.waits[j], s.waits[i].key);
      }
    }
    assert forall v :: v in t.jobs && v != w ==> v in s.jobs && t.jobs[v] == s.jobs[v];
    forall v | v in t.jobs && v != w ensures !WorksOn(t.jobs[v], key) {
    }
  }

  lemma {:induction false} ClaimKeepsOneHolder(rules: Rules, s: State, w: Worker, now: int)
    requires OneHolder(s) && Claimed(s) && Enabled(s, Claim(w, now)) && Guarded(s, Claim(w, now))
    ensures OneHolder(Apply(rules, s, Claim(w, now)))
  {
    var t := Apply(rules, s, Claim(w, now));
    var key := Key(s.jobs[w].todo[0], s.jobs[w].event);
    if key in s.runs {
      NoNewHolderKeepsOne(s, t);
    } else {
      ClaimIsNew(rules, s, w, now);
      assert t.jobs[w].key == key;
      assert forall v :: v in t.jobs && v != w ==> v in s.jobs && t.jobs[v] == s.jobs[v];
    }
  }

  lemma {:induction false} MoveKeepsOneHolder(rules: Rules, s: State, m: Move)
    requires OneHolder(s) && Claimed(s) && Enabled(s, m) && Guarded(s, m)
    ensures OneHolder(Apply(rules, s, m))
  {
    var t := Apply(rules, s, m);
    match m
    case Park(w) => ParkKeepsOneHolder(rules, s, w);
    case ClaimWait(w, i, now) => ClaimWaitKeepsOneHolder(rules, s, w, i, now);
    case Claim(w, now) => ClaimKeepsOneHolder(rules, s, w, now);
    case Complete(w) => CompleteHoldsNoMore(rules, s, w);
    case StartLeg(w, now) => StartLegHoldsNoMore(rules, s, w, now);
    case CancelWait(w) => CancelHoldsNoMore(s, w);
    case _ => NoNewHolderKeepsOne(s, t);
  }

  lemma CompleteHoldsNoMore(rules: Rules, s: State, w: Worker)
    requires OneHolder(s) && Enabled(s, Complete(w))
    ensures OneHolder(Apply(rules, s, Complete(w)))
  {
    NoNewHolderKeepsOne(s, Apply(rules, s, Complete(w)));
  }

  lemma CancelHoldsNoMore(s: State, w: Worker)
    requires OneHolder(s) && Enabled(s, CancelWait(w))
    ensures OneHolder(Cancel(s, w))
  {
    NoNewHolderKeepsOne(s, Cancel(s, w));
  }

  lemma StartLegHoldsNoMore(rules: Rules, s: State, w: Worker, now: int)
    requires OneHolder(s) && Enabled(s, StartLeg(w, now))
    ensures OneHolder(Apply(rules, s, StartLeg(w, now)))
  {
    var t := Apply(rules, s, StartLeg(w, now));
    if t == Cancel(s, w) {
      CancelHoldsNoMore(s, w);
    } else {
      assert t.waits == s.waits;
      NoNewHolderKeepsOne(s, t);
    }
  }

  /** A key that has no row yet is held by nobody. */
  lemma ClaimIsNew(rules: Rules, s: State, w: Worker, now: int)
    requires Claimed(s) && Enabled(s, Claim(w, now)) && Guarded(s, Claim(w, now))
    ensures var key := Key(s.jobs[w].todo[0], s.jobs[w].event);
            key !in s.runs ==>
              && key !in s.started
              && (forall v :: v in s.jobs ==> !WorksOn(s.jobs[v], key))
              && (forall i :: 0 <= i < |s.waits| ==> s.waits[i].key != key)
              && (forall x :: x in s.performed ==> x.key != key)
  {
  }

  lemma {:induction false} ClaimKeepsClaimed(rules: Rules, s: State, w: Worker, now: int)
    requires Claimed(s) && Enabled(s, Claim(w, now)) && Guarded(s, Claim(w, now))
    ensures Claimed(Apply(rules, s, Claim(w, now)))
  {
    var t := Apply(rules, s, Claim(w, now));
    var key := Key(s.jobs[w].todo[0], s.jobs[w].event);
    if key !in s.runs {
      ClaimIsNew(rules, s, w, now);
      DistinctConcat(s.started, [key]);
      assert forall k :: k in t.started <==> k in s.started || k == key;
    }
  }

  lemma {:induction false} MoveKeepsClaimed(rules: Rules, s: State, m: Move)
    requires Claimed(s) && Enabled(s, m) && Guarded(s, m)
    ensures Claimed(Apply(rules, s, m))
  {
    var t := Apply(rules, s, m);
    match m
    case Claim(w, now) =>
      ClaimKeepsClaimed(rules, s, w, now);
    case Perform(w) =>
      assert forall x :: x in t.performed <==> x in s.performed || x == t.performed[|s.performed|];
    case Park(w) =>
      assert t.waits[..|s.waits|] == s.waits;
    case _ =>
  }

  // ----- faithful to the uninterrupted walk

  lemma {:induction false} DriveSnoc(world: World, tree: seq<Step>, p: Progress, resumes: seq<int>, now: int)
    requires Drive(world, tree, p, resumes).paused.Some?
    requires ResumeAt(world, tree, Drive(world, tree, p, resumes), now).Some?
    ensures Drive(world, tree, p, resumes + [now])
            == ResumeAt(world, tree, Drive(world, tree, p, resumes), now).value
    decreases |resumes|
  {
    if resumes == [] {
      assert [now][1..] == [];
    } else if p.paused.Some? {
      var q := ResumeAt(world, tree, p, resumes[0]);
      assert (resumes + [now])[1..] == resumes[1..] + [now];
      if q.Some? {
        DriveSnoc(world, tree, q.value, resumes[1..], now);
      }
    }
  }

  lemma {:induction false} WalkUntilHaltExtends(leg: Leg, lists: seq<seq<Step>>, p: Progress)
    requires Distinct(AllIds(lists))
    ensures p.results <= WalkUntilHalt(leg, lists, p).results
  {
    if lists != [] {
      DistinctConcat(Ids(lists[0]), AllIds(lists[1..]));
      WalkAppendsOnce(leg, lists[0], p);
      WalkUntilHaltExtends(leg, lists[1..], Walk(leg, lists[0], p));
    }
  }

  /** A resume goes on from what was recorded: the next leg of the same run. */
  lemma NextLeg(world: World, tree: seq<Step>, start: int, resumes: seq<int>, now: int)
    requires Distinct(Ids(tree)) && RunToEnd(world, tree, start, resumes).paused.Some?
    ensures var r := RunToEnd(world, tree, start, resumes);
            var next := ResumeAt(world, tree, r, now);
            && next.Some?
            && RunToEnd(world, tree, start, resumes + [now]) == next.value
            && |r.results| <= |next.value.results|
            && ResultIds(next.value.results)[..|r.results|] == ResultIds(r.results)
  {
    var whole := Walk(Uninterrupted(world), tree, FRESH);
    var first := Walk(Live(world, start), tree, FRESH);
    var r := RunToEnd(world, tree, start, resumes);
    UninterruptedNeverPauses(Uninterrupted(world), tree, FRESH);
    WalkAccounts(world, start, tree, FRESH);
    DriveRefines(world, tree, first, resumes, whole);
    var at := r.paused.value.stepId;
    ContinuationIds(tree, at);
    DriveSnoc(world, tree, first, resumes, now);
    var done := FinishWait(r.results, at);
    FinishWaitKeepsIds(r.results, at);
    var lists := ContinuationAfter(tree, at).value;
    WalkUntilHaltExtends(Live(world, now), lists, Progress(done, false, None));
    var next := ResumeAt(world, tree, r, now).value;
    assert next.results == done + next.results[|done|..];
    ResultIdsConcat(done, next.results[|done|..]);
  }

  /** A run that waits has not been stopped. */
  lemma ParkedNotStopped(world: World, tree: seq<Step>, start: int, resumes: seq<int>)
    requires Distinct(Ids(tree)) && RunToEnd(world, tree, start, resumes).paused.Some?
    ensures !RunToEnd(world, tree, start, resumes).stopped
  {
    var whole := Walk(Uninterrupted(world), tree, FRESH);
    UninterruptedNeverPauses(Uninterrupted(world), tree, FRESH);
    WalkAccounts(world, start, tree, FRESH);
    DriveRefines(world, tree, Walk(Live(world, start), tree, FRESH), resumes, whole);
  }

  lemma {:induction false} NoEffects(performed: seq<Deed>, key: Key)
    requires forall x :: x in performed ==> x.key != key
    ensures Effects(performed, key) == []
  {
    if performed != [] {
      NoEffects(performed[..|performed| - 1], key);
    }
  }

  /** What one run rests on: its row, its history and its effects. */
  ghost predicate SameRun(s: State, t: State, key: Key)
  {
    && Log(t, key) == Log(s, key)
    && Effects(t.performed, key) == Effects(s.performed, key)
    && RowKept(s, t, key)
  }

  /** A parked row stays, and a row that is gone does not come back. */
  ghost predicate RowKept(s: State, t: State, key: Key)
  {
    && (key in s.runs && s.runs[key].Parked? ==> key in t.runs && t.runs[key] == s.runs[key])
    && (key !in s.runs ==> key !in t.runs)
  }

  /** Every run but one is as it was: its row, history and effects, its worker and its waits. */
  ghost predicate Leaves(s: State, t: State, key: Key)
  {
    && (forall k :: k != key && k in s.started ==> SameRun(s, t, k))
    && (forall k :: k in t.started ==> k in s.started || k == key)
    && (forall w :: w in t.jobs && !t.jobs[w].Handling? && t.jobs[w].key != key ==> w in s.jobs && t.jobs[w] == s.jobs[w])
    && |s.waits| <= |t.waits|
    && (forall i :: 0 <= i < |s.waits| ==> t.waits[i].key == s.waits[i].key && t.waits[i].pause == s.waits[i].pause)
    && (forall i :: 0 <= i < |t.waits| && t.waits[i].key != key ==> i < |s.waits| && t.waits[i] == s.waits[i])
  }

  /** The invariant as it concerns one run. */
  ghost predicate Answers(rules: Rules, t: State, key: Key)
  {
    && (key in t.started ==> Faithful(rules, t, key))
    && (forall w :: w in t.jobs && WorksOn(t.jobs[w], key) ==> JobFaithful(rules, t, t.jobs[w]))
    && (forall i :: 0 <= i < |t.waits| && PendingFor(t.waits[i], key) ==>
          ParkedFaithful(rules, t, key) && Some(t.waits[i].pause) == Reached(rules, t, key).paused)
  }

  /** A move that leaves all other runs alone only has to answer for the one it touches. */
  lemma {:induction false} OthersUntouched(rules: Rules, s: State, t: State, key: Key)
    requires Invariant(rules, s) && OneHolder(t) && Claimed(t)
    requires Leaves(s, t, key) && Answers(rules, t, key)
    ensures Invariant(rules, t)
  {
    forall k | k in t.started && k != key ensures Faithful(rules, t, k) {
      assert SameRun(s, t, k) && Faithful(rules, s, k);
    }
    forall w | w in t.jobs ensures JobFaithful(rules, t, t.jobs[w]) {
      if !t.jobs[w].Handling? && t.jobs[w].key != key {
        assert SameRun(s, t, t.jobs[w].key) && JobFaithful(rules, s, s.jobs[w]);
      }
    }
    forall i | 0 <= i < |t.waits| && t.waits[i].status.Pending?
      ensures ParkedFaithful(rules, t, t.waits[i].key)
      ensures Some(t.waits[i].pause) == Reached(rules, t, t.waits[i].key).paused
    {
      if t.waits[i].key != key {
        assert SameRun(s, t, s.waits[i].key) && s.waits[i].status.Pending?;
      } else {
        assert PendingFor(t.waits[i], key);
      }
    }
  }

  /** The run a move is about. */
  function Subject(s: State, m: Move): Key
    requires Enabled(s, m)
  {
    match m
    case RecordSkip(w) => Key(s.jobs[w].todo[0], s.jobs[w].event)
    case Claim(w, _) => Key(s.jobs[w].todo[0], s.jobs[w].event)
    case Perform(w) => s.jobs[w].key
    case Complete(w) => s.jobs[w].key
    case Park(w) => s.jobs[w].key
    case ClaimWait(_, i, _) => s.waits[i].key
    case StartLeg(w, _) => s.jobs[w].key
    case CancelWait(w) => s.jobs[w].key
    case _ => Key(0, 0)
  }

  lemma {:induction false} ClaimLeaves(rules: Rules, s: State, w: Worker, now: int)
    requires Claimed(s) && Enabled(s, Claim(w, now))
    requires Subject(s, Claim(w, now)) !in s.runs && Guarded(s, Claim(w, now))
    ensures Leaves(s, Apply(rules, s, Claim(w, now)), Subject(s, Claim(w, now)))
  {
    var t := Apply(rules, s, Claim(w, now));
    var key := Subject(s, Claim(w, now));
    ClaimIsNew(rules, s, w, now);
    assert forall v :: v in t.jobs && v != w ==> v in s.jobs && t.jobs[v] == s.jobs[v];
    assert forall k :: k in t.started ==> k in s.started || k == key;
    assert forall k :: k != key ==> Log(t, k) == Log(s, k);
  }

  /** A run starts with its first leg, none of it performed yet. */
  lemma ClaimStarts(rules: Rules, s: State, w: Worker, now: int)
    requires Claimed(s) && Enabled(s, Claim(w, now)) && Subject(s, Claim(w, now)) !in s.runs && Guarded(s, Claim(w, now))
    ensures var t := Apply(rules, s, Claim(w, now));
      Faithful(rules, t, Subject(s, Claim(w, now))) && JobFaithful(rules, t, t.jobs[w])
  {
    var t := Apply(rules, s, Claim(w, now));
    var key := Subject(s, Claim(w, now));
    ClaimIsNew(rules, s, w, now);
    NoEffects(s.performed, key);
    assert Reached(rules, t, key) == t.jobs[w].leg;
    assert ResultIds(Reached(rules, t, key).results)[..0] == [];
  }

  lemma {:induction false} ClaimAnswers(rules: Rules, s: State, w: Worker, now: int)
    requires rules.WellFormed() && Invariant(rules, s) && Enabled(s, Claim(w, now))
    requires Subject(s, Claim(w, now)) !in s.runs && Guarded(s, Claim(w, now))
    ensures Leaves(s, Apply(rules, s, Claim(w, now)), Subject(s, Claim(w, now)))
    ensures Answers(rules, Apply(rules, s, Claim(w, now)), Subject(s, Claim(w, now)))
  {
    var t := Apply(rules, s, Claim(w, now));
    ClaimLeaves(rules, s, w, now);
    ClaimStarts(rules, s, w, now);
    ClaimKeepsOneHolder(rules, s, w, now);
    OneWorkerAnswers(rules, t, t, w);
  }

  lemma {:induction false} PerformLeaves(rules: Rules, s: State, w: Worker)
    requires Enabled(s, Perform(w))
    ensures Leaves(s, Apply(rules, s, Perform(w)), Subject(s, Perform(w)))
  {
    var t := Apply(rules, s, Perform(w));
    assert t.performed[..|s.performed|] == s.performed;
    forall k | k != s.jobs[w].key ensures SameRun(s, t, k) {
      assert Effects(s.performed, k) + [] == Effects(s.performed, k);
    }
    assert forall v :: v in t.jobs && v != w ==> v in s.jobs && t.jobs[v] == s.jobs[v];
  }

  lemma {:induction false} PerformAnswers(rules: Rules, s: State, w: Worker)
    requires Invariant(rules, s) && Enabled(s, Perform(w))
    ensures Leaves(s, Apply(rules, s, Perform(w)), Subject(s, Perform(w)))
    ensures Answers(rules, Apply(rules, s, Perform(w)), Subject(s, Perform(w)))
  {
    PerformLeaves(rules, s, w);
    var t := Apply(rules, s, Perform(w));
    assert JobFaithful(rules, s, s.jobs[w]) && Faithful(rules, s, s.jobs[w].key);
    PerformAddsOne(rules, s, w);
    assert forall v :: v in t.jobs && v != w ==> v in s.jobs && t.jobs[v] == s.jobs[v];
    OneWorkerAnswers(rules, s, t, w);
  }

  lemma {:induction false} PerformAddsOne(rules: Rules, s: State, w: Worker)
    requires Enabled(s, Perform(w)) && JobFaithful(rules, s, s.jobs[w]) && Faithful(rules, s, s.jobs[w].key)
    ensures var t := Apply(rules, s, Perform(w));
      Faithful(rules, t, s.jobs[w].key) && JobFaithful(rules, t, t.jobs[w])
  {
    var t := Apply(rules, s, Perform(w));
    var job := s.jobs[w];
    assert t.performed[..|s.performed|] == s.performed;
    var ids := ResultIds(job.leg.results);
    assert ids[..job.done] + [ids[job.done]] == ids[..job.done + 1];
    assert Reached(rules, t, job.key) == Reached(rules, s, job.key);
  }

  /** What it means to be the holder of a run. */
  lemma OnlyHolder(s: State, w: Worker)
    requires OneHolder(s) && w in s.jobs && !s.jobs[w].Handling?
    ensures forall v :: v in s.jobs && WorksOn(s.jobs[v], s.jobs[w].key) ==> v == w
    ensures forall i :: 0 <= i < |s.waits| ==> !PendingFor(s.waits[i], s.jobs[w].key)
  {
  }

  lemma {:induction false} CompleteLeaves(rules: Rules, s: State, w: Worker)
    requires Enabled(s, Complete(w))
    ensures Leaves(s, Apply(rules, s, Complete(w)), Subject(s, Complete(w)))
  {
    var t := Apply(rules, s, Complete(w));
    assert forall v :: v in t.jobs && v != w ==> v in s.jobs && t.jobs[v] == s.jobs[v];
  }

  /** A worker that has performed its whole leg leaves the run finished, or parked with all of it recorded. */
  lemma {:induction false} CompleteRecords(rules: Rules, s: State, w: Worker)
    requires rules.WellFormed() && Enabled(s, Complete(w))
    requires JobFaithful(rules, s, s.jobs[w]) && Faithful(rules, s, s.jobs[w].key)
    ensures var t := Apply(rules, s, Complete(w));
      && t.waits == s.waits
      && (forall v :: v in t.jobs && v != w ==> v in s.jobs && t.jobs[v] == s.jobs[v])
      && Faithful(rules, t, s.jobs[w].key) && (w in t.jobs ==> JobFaithful(rules, t, t.jobs[w]))
  {
    var t := Apply(rules, s, Complete(w));
    var key := s.jobs[w].key;
    var h := Log(s, key);
    assert Reached(rules, t, key) == Reached(rules, s, key);
    if s.jobs[w].leg.paused.Some? {
      ParkedNotStopped(rules.world(key), rules.tree(key.rule), h.start, h.resumes);
      assert ParkedFaithful(rules, t, key);
    }
  }

  lemma {:induction false} CompleteAnswers(rules: Rules, s: State, w: Worker)
    requires rules.WellFormed() && Invariant(rules, s) && Enabled(s, Complete(w))
    ensures Leaves(s, Apply(rules, s, Complete(w)), Subject(s, Complete(w)))
    ensures Answers(rules, Apply(rules, s, Complete(w)), Subject(s, Complete(w)))
  {
    CompleteLeaves(rules, s, w);
    assert JobFaithful(rules, s, s.jobs[w]) && Faithful(rules, s, s.jobs[w].key);
    CompleteRecords(rules, s, w);
    OneWorkerAnswers(rules, s, Apply(rules, s, Complete(w)), w);
  }

  lemma ParkLeaves(rules: Rules, s: State, w: Worker)
    requires Enabled(s, Park(w))
    ensures Leaves(s, Apply(rules, s, Park(w)), Subject(s, Park(w)))
  {
    var t := Apply(rules, s, Park(w));
    assert forall i :: 0 <= i < |s.waits| ==> t.waits[i] == s.waits[i];
    assert forall v :: v in t.jobs && v != w ==> v in s.jobs && t.jobs[v] == s.jobs[v];
  }

  lemma {:induction false} ParkAnswers(rules: Rules, s: State, w: Worker)
    requires Invariant(rules, s) && Enabled(s, Park(w))
    ensures Leaves(s, Apply(rules, s, Park(w)), Subject(s, Park(w)))
    ensures Answers(rules, Apply(rules, s, Park(w)), Subject(s, Park(w)))
  {
    ParkLeaves(rules, s, w);
    assert JobFaithful(rules, s, s.jobs[w]) && Faithful(rules, s, s.jobs[w].key);
    NewWaitAnswers(rules, s, w);
  }

  lemma {:induction false} NewWaitAnswers(rules: Rules, s: State, w: Worker)
    requires OneHolder(s) && Enabled(s, Park(w))
    requires JobFaithful(rules, s, s.jobs[w]) && Faithful(rules, s, s.jobs[w].key)
    ensures Answers(rules, Apply(rules, s, Park(w)), s.jobs[w].key)
  {
    var t := Apply(rules, s, Park(w));
    var key := s.jobs[w].key;
    OnlyHolder(s, w);
    assert Reached(rules, t, key) == Reached(rules, s, key);
    assert forall i :: 0 <= i < |s.waits| ==> t.waits[i] == s.waits[i];
    assert forall v :: v in t.jobs ==> !WorksOn(t.jobs[v], key);
  }

  lemma ClaimWaitLeaves(rules: Rules, s: State, w: Worker, i: nat, now: int)
    requires Enabled(s, ClaimWait(w, i, now))
    ensures Leaves(s, Apply(rules, s, ClaimWait(w, i, now)), Subject(s, ClaimWait(w, i, now)))
  {
    var t := Apply(rules, s, ClaimWait(w, i, now));
    assert forall v :: v in t.jobs && v != w ==> v in s.jobs && t.jobs[v] == s.jobs[v];
  }

  lemma {:induction false} ClaimWaitAnswers(rules: Rules, s: State, w: Worker, i: nat, now: int)
    requires Invariant(rules, s) && Enabled(s, ClaimWait(w, i, now))
    ensures Leaves(s, Apply(rules, s, ClaimWait(w, i, now)), Subject(s, ClaimWait(w, i, now)))
    ensures Answers(rules, Apply(rules, s, ClaimWait(w, i, now)), Subject(s, ClaimWait(w, i, now)))
  {
    ClaimWaitLeaves(rules, s, w, i, now);
    var t := Apply(rules, s, ClaimWait(w, i, now));
    var key := s.waits[i].key;
    assert ParkedFaithful(rules, s, key) && Faithful(rules, s, key);
    ClaimWaitKeepsOneHolder(rules, s, w, i, now);
    assert Reached(rules, t, key) == Reached(rules, s, key);
    assert JobFaithful(rules, t, t.jobs[w]);
    OneWorkerAnswers(rules, t, t, w);
  }

  lemma {:induction false} StartLegLeaves(rules: Rules, s: State, w: Worker, now: int)
    requires Enabled(s, StartLeg(w, now)) && JobFaithful(rules, s, s.jobs[w])
    ensures Leaves(s, Apply(rules, s, StartLeg(w, now)), Subject(s, StartLeg(w, now)))
  {
    var t := Apply(rules, s, StartLeg(w, now));
    assert forall v :: v in t.jobs && v != w ==> v in s.jobs && t.jobs[v] == s.jobs[v];
    assert forall k :: k != s.jobs[w].key ==> Log(t, k) == Log(s, k);
  }

  /** The leg a resume starts is the next one of the same run, and what was performed is as far into it as before. */
  lemma {:induction false} StartLegResumes(rules: Rules, s: State, w: Worker, now: int)
    requires rules.WellFormed() && Enabled(s, StartLeg(w, now))
    requires JobFaithful(rules, s, s.jobs[w]) && Faithful(rules, s, s.jobs[w].key) && s.jobs[w].key in s.runs
    ensures var t := Apply(rules, s, StartLeg(w, now));
      && t.waits == s.waits
      && (forall v :: v in t.jobs && v != w ==> v in s.jobs && t.jobs[v] == s.jobs[v])
      && Faithful(rules, t, s.jobs[w].key) && (w in t.jobs ==> JobFaithful(rules, t, t.jobs[w]))
  {
    var t := Apply(rules, s, StartLeg(w, now));
    var job := s.jobs[w];
    var key := job.key;
    var h := Log(s, key);
    var reached := Reached(rules, s, key);
    NextLeg(rules.world(key), rules.tree(key.rule), h.start, h.resumes, now);
    assert Progress(Stored(s, key), false, Some(s.waits[job.wait].pause)) == reached;
    assert Log(t, key) == h.(resumes := h.resumes + [now]);
    assert t.jobs[w] == Performing(key, Reached(rules, t, key), |reached.results|, ToIdle);
    assert ResultIds(reached.results)[..|reached.results|] == ResultIds(reached.results);
  }

  lemma {:induction false} StartLegAnswers(rules: Rules, s: State, w: Worker, now: int)
    requires rules.WellFormed() && Invariant(rules, s) && Enabled(s, StartLeg(w, now))
    ensures Leaves(s, Apply(rules, s, StartLeg(w, now)), Subject(s, StartLeg(w, now)))
    ensures Answers(rules, Apply(rules, s, StartLeg(w, now)), Subject(s, StartLeg(w, now)))
  {
    assert JobFaithful(rules, s, s.jobs[w]) && Faithful(rules, s, s.jobs[w].key);
    StartLegLeaves(rules, s, w, now);
    if s.jobs[w].key in s.runs {
      StartLegResumes(rules, s, w, now);
      OneWorkerAnswers(rules, s, Apply(rules, s, StartLeg(w, now)), w);
    } else {
      CancelAnswers(rules, s, w);
    }
  }

  /** The one worker on a run answers for it, as nothing else of the run is under way. */
  lemma OneWorkerAnswers(rules: Rules, s: State, t: State, w: Worker)
    requires OneHolder(s) && w in s.jobs && !s.jobs[w].Handling?
    requires t.waits == s.waits && forall v :: v in t.jobs && v != w ==> v in s.jobs && t.jobs[v] == s.jobs[v]
    requires Faithful(rules, t, s.jobs[w].key) && (w in t.jobs ==> JobFaithful(rules, t, t.jobs[w]))
    ensures Answers(rules, t, s.jobs[w].key)
  {
    OnlyHolder(s, w);
  }

  lemma {:induction false} CancelLeaves(rules: Rules, s: State, w: Worker)
    requires Enabled(s, CancelWait(w)) && JobFaithful(rules, s, s.jobs[w])
    ensures Leaves(s, Apply(rules, s, CancelWait(w)), Subject(s, CancelWait(w)))
  {
    var t := Apply(rules, s, CancelWait(w));
    assert forall j :: 0 <= j < |s.waits| && j != s.jobs[w].wait ==> t.waits[j] == s.waits[j];
    assert forall v :: v in t.jobs ==> v in s.jobs && t.jobs[v] == s.jobs[v];
  }

  lemma {:induction false} CancelAnswers(rules: Rules, s: State, w: Worker)
    requires Invariant(rules, s) && Enabled(s, CancelWait(w))
    ensures Leaves(s, Apply(rules, s, CancelWait(w)), Subject(s, CancelWait(w)))
    ensures Answers(rules, Apply(rules, s, CancelWait(w)), Subject(s, CancelWait(w)))
  {
    assert JobFaithful(rules, s, s.jobs[w]) && Faithful(rules, s, s.jobs[w].key);
    CancelLeaves(rules, s, w);
    NobodyAnswers(rules, s, w);
  }

  /** After a cancellation nothing of the run is under way any more. */
  lemma {:induction false} NobodyAnswers(rules: Rules, s: State, w: Worker)
    requires OneHolder(s) && Enabled(s, CancelWait(w)) && Faithful(rules, s, s.jobs[w].key)
    ensures Answers(rules, Cancel(s, w), s.jobs[w].key)
  {
    var t := Cancel(s, w);
    var job := s.jobs[w];
    OnlyHolder(s, w);
    assert Reached(rules, t, job.key) == Reached(rules, s, job.key);
    assert forall j :: 0 <= j < |s.waits| && j != job.wait ==> t.waits[j] == s.waits[j];
    assert forall v :: v in t.jobs ==> !WorksOn(t.jobs[v], job.key);
  }

  /** A move that neither claims, performs, parks nor resumes anything: it may delete rows that do not wait. */
  predicate Bookkeeping(s: State, m: Move)
    requires Enabled(s, m)
  {
    || m.Deliver? || m.PassOver? || m.RecordSkip? || m.Ack? || m.GiveUp? || m.Crash? || m.Prune?
    || (m.Claim? && Subject(s, m) in s.runs)
  }

  lemma {:induction false} MoveKeepsInvariant(rules: Rules, s: State, m: Move)
    requires rules.WellFormed() && Invariant(rules, s) && Enabled(s, m) && Guarded(s, m)
    ensures Invariant(rules, Apply(rules, s, m))
  {
    var t := Apply(rules, s, m);
    MoveKeepsOneHolder(rules, s, m);
    MoveKeepsClaimed(rules, s, m);
    if Bookkeeping(s, m) {
      BookkeepingFrame(rules, s, m);
      OnlyBookkeeping(rules, s, t);
    } else {
      MoveAnswers(rules, s, m);
      OthersUntouched(rules, s, t, Subject(s, m));
    }
  }

  lemma {:induction false} MoveAnswers(rules: Rules, s: State, m: Move)
    requires rules.WellFormed() && Invariant(rules, s) && Enabled(s, m) && Guarded(s, m) && !Bookkeeping(s, m)
    ensures Leaves(s, Apply(rules, s, m), Subject(s, m))
    ensures Answers(rules, Apply(rules, s, m), Subject(s, m))
  {
    match m
    case Claim(w, now) => ClaimAnswers(rules, s, w, now);
    case Perform(w) => PerformAnswers(rules, s, w);
    case Complete(w) => CompleteAnswers(rules, s, w);
    case Park(w) => ParkAnswers(rules, s, w);
    case ClaimWait(w, i, now) => ClaimWaitAnswers(rules, s, w, i, now);
    case StartLeg(w, now) => StartLegAnswers(rules, s, w, now);
    case CancelWait(w) => CancelAnswers(rules, s, w);
  }

  lemma {:induction false} BookkeepingFrame(rules: Rules, s: State, m: Move)
    requires Enabled(s, m) && Guarded(s, m) && Bookkeeping(s, m)
    ensures var t := Apply(rules, s, m);
            && t.waits == s.waits && t.started == s.started && t.performed == s.performed && t.history == s.history
            && (forall k :: k in s.started ==> RowKept(s, t, k))
            && (forall w :: w in t.jobs && !t.jobs[w].Handling? ==> w in s.jobs && t.jobs[w] == s.jobs[w])
  {
  }

  /** Moves that hold no run: deliveries, skips, acknowledgements and crashes. */
  lemma {:induction false} OnlyBookkeeping(rules: Rules, s: State, t: State)
    requires Invariant(rules, s) && OneHolder(t) && Claimed(t)
    requires t.waits == s.waits && t.started == s.started && t.performed == s.performed && t.history == s.history
    requires forall k :: k in s.started ==> RowKept(s, t, k)
    requires forall w :: w in t.jobs && !t.jobs[w].Handling? ==> w in s.jobs && t.jobs[w] == s.jobs[w]
    ensures Invariant(rules, t)
  {
    forall k | k in t.started ensures Faithful(rules, t, k) {
      assert Faithful(rules, s, k);
    }
    forall w | w in t.jobs ensures JobFaithful(rules, t, t.jobs[w]) {
      if !t.jobs[w].Handling? {
        assert JobFaithful(rules, s, s.jobs[w]);
      }
    }
  }

  /** The invariant of every reachable state. */
  lemma {:induction false} EveryRunKeepsInvariant(rules: Rules, s: State, moves: seq<Move>)
    requires rules.WellFormed() && Invariant(rules, s) && Possible(rules, s, moves) && GuardedRun(rules, s, moves)
    ensures Invariant(rules, Run(rules, s, moves))
    decreases |moves|
  {
    if moves != [] {
      MoveKeepsInvariant(rules, s, moves[0]);
      EveryRunKeepsInvariant(rules, Apply(rules, s, moves[0]), moves[1..]);
    }
  }

  lemma InitialInvariant(rules: Rules)
    ensures Invariant(rules, INITIAL)
  {
  }

  /** The wait rows of one run that are still pending. */
  function PendingWaits(waits: seq<WaitRow>, key: Key): nat
  {
    if waits == [] then 0
    else PendingWaits(waits[..|waits| - 1], key) + if PendingFor(waits[|waits| - 1], key) then 1 else 0
  }

  lemma {:induction false} AtMostOnePending(waits: seq<WaitRow>, key: Key)
    requires forall i, j :: 0 <= i < j < |waits| && waits[i].status.Pending? ==> !PendingFor(waits[j], waits[i].key)
    ensures PendingWaits(waits, key) <= 1
  {
    if waits != [] {
      var init := waits[..|waits| - 1];
      AtMostOnePending(init, key);
      if PendingWaits(init, key) > 0 {
        var i := SomePending(init, key);
        assert PendingFor(waits[i], key);
      }
    }
  }

  lemma {:induction false} SomePending(waits: seq<WaitRow>, key: Key) returns (i: nat)
    requires PendingWaits(waits, key) > 0
    ensures i < |waits| && PendingFor(waits[i], key)
  {
    if PendingFor(waits[|waits| - 1], key) {
      return |waits| - 1;
    }
    i := SomePending(waits[..|waits| - 1], key);
  }

  /**
    Main result. In every interleaving of duplicate deliveries, skips, claims,
    waits, resumes, cancellations, crashes and pruning that delivers no event again
    once its run's row is pruned: a rule starts at most once per event, no step of it is performed twice, the performed steps are those of the
    uninterrupted walk in its order, and a run has at most one pending wait.
   */
  lemma AtMostOnce(rules: Rules, moves: seq<Move>, key: Key)
    requires rules.WellFormed() && Possible(rules, INITIAL, moves) && GuardedRun(rules, INITIAL, moves)
    ensures var s := Run(rules, INITIAL, moves);
            && Distinct(s.started)
            && Distinct(Effects(s.performed, key))
            && PendingWaits(s.waits, key) <= 1
    ensures Effects(Run(rules, INITIAL, moves).performed, key)
            <= ResultIds(Walk(Uninterrupted(rules.world(key)), rules.tree(key.rule), FRESH).results)
  {
    InitialInvariant(rules);
    EveryRunKeepsInvariant(rules, INITIAL, moves);
    var s := Run(rules, INITIAL, moves);
    AtMostOnePending(s.waits, key);
    if key in s.started {
      var h := Log(s, key);
      assert Faithful(rules, s, key);
      EachStepAtMostOnce(rules.world(key), rules.tree(key.rule), h.start, h.resumes);
      RecordedInOrder(rules.world(key), rules.tree(key.rule), h.start, h.resumes);
    } else {
      NoEffects(s.performed, key);
    }
  }

  // ----- when rows are pruned too soon

  /** A run is claimed again because its row was pruned. */
  predicate StartsAgain(s: State, m: Move)
    requires Enabled(s, m)
  {
    m.Claim? &&
      var key := Key(s.jobs[m.w].todo[0], s.jobs[m.w].event);
      key !in s.runs && key in s.started
  }

  ghost predicate NeverStartsAgain(rules: Rules, s: State, moves: seq<Move>)
    requires Possible(rules, s, moves)
    decreases |moves|
  {
    moves == [] || (!StartsAgain(s, moves[0]) && NeverStartsAgain(rules, Apply(rules, s, moves[0]), moves[1..]))
  }

  lemma {:induction false} StepStartsOnce(rules: Rules, s: State, m: Move)
    requires Enabled(s, m)
    ensures s.started <= Apply(rules, s, m).started
    ensures Distinct(Apply(rules, s, m).started) <==> Distinct(s.started) && !StartsAgain(s, m)
  {
    if m.Claim? {
      DistinctConcat(s.started, [Key(s.jobs[m.w].todo[0], s.jobs[m.w].event)]);
    }
  }

  lemma {:induction false} RunStartsOnce(rules: Rules, s: State, moves: seq<Move>)
    requires Possible(rules, s, moves)
    ensures Distinct(Run(rules, s, moves).started) <==> Distinct(s.started) && NeverStartsAgain(rules, s, moves)
    decreases |moves|
  {
    if moves != [] {
      StepStartsOnce(rules, s, moves[0]);
      RunStartsOnce(rules, Apply(rules, s, moves[0]), moves[1..]);
    }
  }

  /**
    Exactly when a rule starts at most once per event, in any interleaving: no
    event is claimed for a rule again whose run's row has been pruned.
   */
  lemma StartsOnceExactly(rules: Rules, moves: seq<Move>)
    requires Possible(rules, INITIAL, moves)
    ensures Distinct(Run(rules, INITIAL, moves).started) <==> NeverStartsAgain(rules, INITIAL, moves)
  {
    RunStartsOnce(rules, INITIAL, moves);
  }

  lemma OneMove(rules: Rules, s: State, moves: seq<Move>, k: nat, next: State)
    requires k < |moves| && Enabled(s, moves[k]) && next == Apply(rules, s, moves[k])
    requires Possible(rules, next, moves[k + 1..])
    ensures Possible(rules, s, moves[k..]) && Run(rules, s, moves[k..]) == Run(rules, next, moves[k + 1..])
  {
    assert moves[k..][0] == moves[k] && moves[k..][1..] == moves[k + 1..];
  }

  /** A worker claims a run and crashes; the row is pruned; the entry, never acknowledged, is delivered again. */
  function LateRedelivery(rule: RuleId, at: int, later: int): seq<Move>
  {
    [Deliver(0, 0, 0, [rule]), Claim(0, at), Crash(0), Prune(Key(rule, 0)), Deliver(0, 0, 0, [rule]), Claim(0, later)]
  }

  /** The first claim has happened; `runs` and `jobs` are what is left of it. */
  function ClaimedOnce(key: Key, at: int, runs: map<Key, Row>, jobs: map<Worker, Job>): State
  {
    State(runs, [], jobs, {}, [key], [], map[key := History(at, [], 0)])
  }

  lemma DeliveredAgain(rules: Rules, rule: RuleId, at: int, later: int)
    ensures var moves, pruned := LateRedelivery(rule, at, later), ClaimedOnce(Key(rule, 0), at, map[], map[]);
      Possible(rules, pruned, moves[4..]) && Run(rules, pruned, moves[4..]).started == [Key(rule, 0), Key(rule, 0)]
  {
    var moves, key := LateRedelivery(rule, at, later), Key(rule, 0);
    var s4, s5 := ClaimedOnce(key, at, map[], map[]), ClaimedOnce(key, at, map[], map[0 := Handling(0, 0, [rule])]);
    var s6 := Apply(rules, s5, moves[5]);
    OneMove(rules, s5, moves, 5, s6);
    OneMove(rules, s4, moves, 4, s5);
    assert moves[6..] == [] && Run(rules, s6, []) == s6;
  }

  lemma ClaimedAndPruned(rules: Rules, rule: RuleId, at: int, later: int, s2: State)
    requires s2.waits == [] && s2.acked == {} && s2.started == [Key(rule, 0)] && s2.performed == []
    requires s2.runs == map[Key(rule, 0) := Running] && s2.history == map[Key(rule, 0) := History(at, [], 0)]
    requires 0 in s2.jobs && s2.jobs - {0} == map[]
    ensures var moves := LateRedelivery(rule, at, later);
      Possible(rules, s2, moves[2..]) && Run(rules, s2, moves[2..]).started == [Key(rule, 0), Key(rule, 0)]
  {
    var moves, key := LateRedelivery(rule, at, later), Key(rule, 0);
    var s3, s4 := ClaimedOnce(key, at, map[key := Running], map[]), ClaimedOnce(key, at, map[], map[]);
    DeliveredAgain(rules, rule, at, later);
    OneMove(rules, s3, moves, 3, s4);
    OneMove(rules, s2, moves, 2, s3);
  }

  /** The run starts a second time, whatever the rule is. */
  lemma PrunedRunStartsTwice(rules: Rules, rule: RuleId, at: int, later: int)
    ensures var moves := LateRedelivery(rule, at, later);
      Possible(rules, INITIAL, moves) && Run(rules, INITIAL, moves).started == [Key(rule, 0), Key(rule, 0)]
  {
    var moves := LateRedelivery(rule, at, later);
    var s1 := State(map[], [], map[0 := Handling(0, 0, [rule])], {}, [], [], map[]);
    var s2 := Apply(rules, s1, moves[1]);
    assert [] + [Key(rule, 0)] == [Key(rule, 0)] && s2.jobs - {0} == map[];
    ClaimedAndPruned(rules, rule, at, later, s2);
    OneMove(rules, s1, moves, 1, s2);
    OneMove(rules, INITIAL, moves, 0, s1);
    assert moves[0..] == moves;
  }
}
