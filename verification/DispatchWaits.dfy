/**
  A wait lasts, and no longer than it must. Over every interleaving of workers,
  deliveries, crashes and resumes, what comes after a wait in a run is performed in
  a leg that begins once the wait's length has passed since its own leg began; and
  from that moment on any idle worker may take the run up again.
 */
module DispatchWaits {
  import opened Wrappers
  import opened Sequences
  import opened AutomationSteps
  import opened AutomationFlow
  import opened AutomationResume
  import opened AutomationPath
  import opened AutomationWaits
  import opened Dispatch

  /** If entry `i` is one of its run's waits, what the run performs as entry `j` waits until its length has passed. */
  ghost predicate WaitsFor(rules: Rules, performed: seq<Deed>, i: nat, j: nat)
    requires i < |performed| && j < |performed|
  {
    var d := performed[i];
    performed[j].key == d.key ==>
      forall v :: OfWait(rules.world(d.key), rules.tree(d.key.rule), d.result, v) ==>
        performed[j].began >= d.began + rules.world(d.key).waitLength(v).value
  }

  ghost predicate WaitLasts(rules: Rules, performed: seq<Deed>, i: nat)
    requires i < |performed|
  {
    forall j :: i < j < |performed| ==> WaitsFor(rules, performed, i, j)
  }

  /** The leg under way began at `until` or later, or the run is parked until then, with nothing left to perform. */
  ghost predicate Passed(rules: Rules, s: State, key: Key, until: int)
  {
    || Began(Log(s, key)) >= until
    || (&& Log(s, key).done == |Reached(rules, s, key).results|
        && Reached(rules, s, key).paused.Some?
        && Reached(rules, s, key).paused.value.resumeAt >= until)
  }

  ghost predicate EntryPassed(rules: Rules, s: State, i: nat)
    requires i < |s.performed|
  {
    var d := s.performed[i];
    forall v :: OfWait(rules.world(d.key), rules.tree(d.key.rule), d.result, v) ==>
      Passed(rules, s, d.key, d.began + rules.world(d.key).waitLength(v).value)
  }

  /** What is left of the leg under way parks for the length of its wait. */
  ghost predicate LegParks(rules: Rules, s: State, key: Key)
  {
    ParksForLength(rules.world(key), rules.tree(key.rule), Reached(rules, s, key), Log(s, key).done, Began(Log(s, key)))
  }

  predicate ClaimedInTime(s: State, job: Job)
  {
    job.Resuming? ==> job.wait < |s.waits| && job.at >= s.waits[job.wait].pause.resumeAt
  }

  ghost predicate OnTime(rules: Rules, s: State)
  {
    && (forall key :: key in s.started ==> LegParks(rules, s, key))
    && (forall i :: 0 <= i < |s.performed| ==> EntryPassed(rules, s, i) && WaitLasts(rules, s.performed, i))
    && (forall w :: w in s.jobs ==> ClaimedInTime(s, s.jobs[w]))
  }

  // ----- what each move keeps

  /** A move after which the runs' histories and entries are as before. */
  lemma {:induction false} NothingPerformed(rules: Rules, s: State, t: State)
    requires OnTime(rules, s) && t.performed == s.performed && t.history == s.history && t.started == s.started
    requires forall w :: w in t.jobs ==> ClaimedInTime(t, t.jobs[w])
    ensures OnTime(rules, t)
  {
    forall key | key in t.started
      ensures LegParks(rules, t, key)
    {
      assert LegParks(rules, s, key);
    }
    forall i | 0 <= i < |t.performed|
      ensures EntryPassed(rules, t, i) && WaitLasts(rules, t.performed, i)
    {
      assert EntryPassed(rules, s, i);
    }
  }

  predicate OnlyTables(m: Move)
  {
    !m.Perform? && !m.StartLeg? && !m.Claim?
  }

  lemma {:induction false} TablesStayInTime(rules: Rules, s: State, m: Move)
    requires OnTime(rules, s) && Enabled(s, m) && OnlyTables(m)
    ensures var t := Apply(rules, s, m);
      && t.performed == s.performed && t.history == s.history && t.started == s.started
      && forall w :: w in t.jobs ==> ClaimedInTime(t, t.jobs[w])
  {
    var t := Apply(rules, s, m);
    assert |s.waits| <= |t.waits| && forall i :: 0 <= i < |s.waits| ==> t.waits[i].pause == s.waits[i].pause;
    forall w | w in t.jobs && t.jobs[w].Resuming?
      ensures ClaimedInTime(t, t.jobs[w])
    {
      if w in s.jobs && s.jobs[w] == t.jobs[w] {
        assert ClaimedInTime(s, s.jobs[w]);
      }
    }
  }

  /** A move that concerns one run has to answer for that run only. */
  lemma {:induction false} OtherRunsOnTime(rules: Rules, s: State, t: State, key: Key)
    requires OnTime(rules, s) && (forall k :: k in t.started ==> k == key || k in s.started)
    requires forall k :: k != key ==> Log(t, k) == Log(s, k)
    requires s.performed <= t.performed && forall i :: |s.performed| <= i < |t.performed| ==> t.performed[i].key == key
    requires LegParks(rules, t, key)
    requires forall i :: 0 <= i < |t.performed| && t.performed[i].key == key ==>
      EntryPassed(rules, t, i) && WaitLasts(rules, t.performed, i)
    requires forall w :: w in t.jobs ==> ClaimedInTime(t, t.jobs[w])
    ensures OnTime(rules, t)
  {
    forall k | k in t.started
      ensures LegParks(rules, t, k)
    {
      assert k != key ==> LegParks(rules, s, k);
    }
    forall i | 0 <= i < |t.performed| && t.performed[i].key != key
      ensures EntryPassed(rules, t, i) && WaitLasts(rules, t.performed, i)
    {
      OtherEntryOnTime(rules, s, t, key, i);
    }
  }

  lemma OtherEntryOnTime(rules: Rules, s: State, t: State, key: Key, i: nat)
    requires i < |s.performed| && EntryPassed(rules, s, i) && WaitLasts(rules, s.performed, i)
    requires s.performed <= t.performed && forall j :: |s.performed| <= j < |t.performed| ==> t.performed[j].key == key
    requires t.performed[i].key != key && Log(t, t.performed[i].key) == Log(s, t.performed[i].key)
    ensures EntryPassed(rules, t, i) && WaitLasts(rules, t.performed, i)
  {
    forall j | i < j < |t.performed|
      ensures WaitsFor(rules, t.performed, i, j)
    {
      if j < |s.performed| {
        assert WaitsFor(rules, s.performed, i, j) && t.performed[j] == s.performed[j];
      }
    }
  }

  lemma JobsStayInTime(s: State, t: State, w: Worker)
    requires forall v :: v in s.jobs ==> ClaimedInTime(s, s.jobs[v])
    requires t.waits == s.waits && forall v :: v in t.jobs && v != w ==> v in s.jobs && t.jobs[v] == s.jobs[v]
    requires w in t.jobs ==> !t.jobs[w].Resuming?
    ensures forall v :: v in t.jobs ==> ClaimedInTime(t, t.jobs[v])
  {
    forall v | v in t.jobs
      ensures ClaimedInTime(t, t.jobs[v])
    {
      assert v != w ==> ClaimedInTime(s, s.jobs[v]);
    }
  }

  /** A run that starts has performed nothing yet. */
  lemma {:induction false} ClaimIsOnTime(rules: Rules, s: State, w: Worker, now: int)
    requires rules.WellFormed() && Claimed(s) && OnTime(rules, s)
    requires Enabled(s, Claim(w, now)) && Guarded(s, Claim(w, now)) && Subject(s, Claim(w, now)) !in s.runs
    ensures OnTime(rules, Apply(rules, s, Claim(w, now)))
  {
    var t := Apply(rules, s, Claim(w, now));
    var key := Subject(s, Claim(w, now));
    ClaimIsNew(rules, s, w, now);
    StartParks(rules.world(key), rules.tree(key.rule), now);
    assert LegParks(rules, t, key);
    JobsStayInTime(s, t, w);
    forall i | 0 <= i < |t.performed|
      ensures t.performed[i].key != key
    {
      assert s.performed[i] in s.performed;
    }
    OtherRunsOnTime(rules, s, t, key);
  }

  /** A leg that begins no earlier than the run was parked for. */
  lemma NextLegPassed(rules: Rules, s: State, t: State, key: Key, now: int, i: nat)
    requires Log(t, key) == Log(s, key).(resumes := Log(s, key).resumes + [now])
    requires Reached(rules, s, key).paused.Some? && Reached(rules, s, key).paused.value.resumeAt <= now
    requires Began(Log(s, key)) <= now
    requires i < |s.performed| && t.performed == s.performed && s.performed[i].key == key && EntryPassed(rules, s, i)
    ensures EntryPassed(rules, t, i)
  {
  }

  lemma {:induction false} StartLegIsOnTime(rules: Rules, s: State, w: Worker, now: int)
    requires rules.WellFormed() && OnTime(rules, s) && Enabled(s, StartLeg(w, now))
    requires JobFaithful(rules, s, s.jobs[w]) && s.jobs[w].key in s.runs
    requires Faithful(rules, s, s.jobs[w].key) && s.jobs[w].key in s.started
    ensures OnTime(rules, Apply(rules, s, StartLeg(w, now)))
  {
    var t := Apply(rules, s, StartLeg(w, now));
    var key := s.jobs[w].key;
    StartLegStarts(rules, s, w, now);
    LegBegins(rules, s, t, key, now);
    assert LegParks(rules, s, key) && ClaimedInTime(s, s.jobs[w]);
    forall i | 0 <= i < |t.performed| && t.performed[i].key == key
      ensures EntryPassed(rules, t, i) && WaitLasts(rules, t.performed, i)
    {
      NextLegPassed(rules, s, t, key, now, i);
    }
    JobsStayInTime(s, t, w);
    OtherRunsOnTime(rules, s, t, key);
  }

  lemma StartLegStarts(rules: Rules, s: State, w: Worker, now: int)
    requires rules.WellFormed() && Enabled(s, StartLeg(w, now)) && s.jobs[w].key in s.runs
    requires JobFaithful(rules, s, s.jobs[w]) && Faithful(rules, s, s.jobs[w].key)
    ensures var t, key := Apply(rules, s, StartLeg(w, now)), s.jobs[w].key;
      && t.waits == s.waits && t.started == s.started && t.performed == s.performed
      && t.history == s.history[key := Log(s, key).(resumes := Log(s, key).resumes + [now])]
      && (forall v :: v in t.jobs && v != w ==> v in s.jobs && t.jobs[v] == s.jobs[v])
      && (w in t.jobs ==> !t.jobs[w].Resuming?)
  {
    var key := s.jobs[w].key;
    NextLeg(rules.world(key), rules.tree(key.rule), Log(s, key).start, Log(s, key).resumes, now);
    assert Progress(Stored(s, key), false, Some(s.waits[s.jobs[w].wait].pause)) == Reached(rules, s, key);
  }

  lemma LegBegins(rules: Rules, s: State, t: State, key: Key, now: int)
    requires rules.WellFormed() && Log(t, key) == Log(s, key).(resumes := Log(s, key).resumes + [now])
    requires Reached(rules, s, key).paused.Some? && Log(s, key).done == |Reached(rules, s, key).results|
    ensures LegParks(rules, t, key)
  {
    var world, tree, h := rules.world(key), rules.tree(key.rule), Log(s, key);
    NextLeg(world, tree, h.start, h.resumes, now);
    ResumeParks(world, tree, Reached(rules, s, key), now);
  }

  /** While there is something to perform, every wait before it is over. */
  lemma PerformedInTime(rules: Rules, s: State, t: State, d: Deed, i: nat)
    requires t.performed == s.performed + [d] && d.began == Began(Log(s, d.key))
    requires Log(t, d.key) == Log(s, d.key).(done := Log(s, d.key).done + 1)
    requires Log(s, d.key).done < |Reached(rules, s, d.key).results|
    requires i < |s.performed| && s.performed[i].key == d.key
    requires EntryPassed(rules, s, i) && WaitLasts(rules, s.performed, i)
    ensures EntryPassed(rules, t, i) && WaitLasts(rules, t.performed, i)
  {
    forall j | i < j < |t.performed|
      ensures WaitsFor(rules, t.performed, i, j)
    {
      if j < |s.performed| {
        assert WaitsFor(rules, s.performed, i, j);
      }
    }
  }

  /** A wait just performed is the last of its leg. */
  lemma WaitJustPerformed(rules: Rules, s: State, t: State, d: Deed)
    requires t.performed == s.performed + [d] && d.began == Began(Log(s, d.key))
    requires Log(t, d.key) == Log(s, d.key).(done := Log(s, d.key).done + 1)
    requires Log(s, d.key).done < |Reached(rules, s, d.key).results|
    requires d.result == Reached(rules, s, d.key).results[Log(s, d.key).done] && LegParks(rules, s, d.key)
    ensures EntryPassed(rules, t, |s.performed|) && LegParks(rules, t, d.key)
  {
    assert ParksAt(rules.world(d.key), rules.tree(d.key.rule), Reached(rules, s, d.key), Log(s, d.key).done, d.began);
  }

  lemma {:induction false} PerformIsOnTime(rules: Rules, s: State, w: Worker)
    requires OnTime(rules, s) && Enabled(s, Move.Perform(w))
    requires JobFaithful(rules, s, s.jobs[w]) && s.jobs[w].key in s.started
    ensures OnTime(rules, Apply(rules, s, Move.Perform(w)))
  {
    var t := Apply(rules, s, Move.Perform(w));
    var key := s.jobs[w].key;
    var d := t.performed[|s.performed|];
    WaitJustPerformed(rules, s, t, d);
    forall i | 0 <= i < |t.performed| && t.performed[i].key == key
      ensures EntryPassed(rules, t, i) && WaitLasts(rules, t.performed, i)
    {
      if i < |s.performed| {
        PerformedInTime(rules, s, t, d, i);
      }
    }
    JobsStayInTime(s, t, w);
    OtherRunsOnTime(rules, s, t, key);
  }

  lemma {:induction false} MoveIsOnTime(rules: Rules, s: State, m: Move)
    requires rules.WellFormed() && Invariant(rules, s) && OnTime(rules, s) && Enabled(s, m) && Guarded(s, m)
    ensures OnTime(rules, Apply(rules, s, m))
  {
    match m
    case Perform(w) => OneMorePerformed(rules, s, w);
    case StartLeg(w, now) => LegOrCancel(rules, s, w, now);
    case Claim(w, now) => ClaimOrPassOver(rules, s, w, now);
    case _ =>
      TablesStayInTime(rules, s, m);
      NothingPerformed(rules, s, Apply(rules, s, m));
  }

  lemma OneMorePerformed(rules: Rules, s: State, w: Worker)
    requires Invariant(rules, s) && OnTime(rules, s) && Enabled(s, Move.Perform(w))
    ensures OnTime(rules, Apply(rules, s, Move.Perform(w)))
  {
    assert JobFaithful(rules, s, s.jobs[w]);
    PerformIsOnTime(rules, s, w);
  }

  lemma ClaimOrPassOver(rules: Rules, s: State, w: Worker, now: int)
    requires rules.WellFormed() && Claimed(s) && OnTime(rules, s)
    requires Enabled(s, Claim(w, now)) && Guarded(s, Claim(w, now))
    ensures OnTime(rules, Apply(rules, s, Claim(w, now)))
  {
    if Subject(s, Claim(w, now)) in s.runs {
      JobsStayInTime(s, Apply(rules, s, Claim(w, now)), w);
      NothingPerformed(rules, s, Apply(rules, s, Claim(w, now)));
    } else {
      ClaimIsOnTime(rules, s, w, now);
    }
  }

  lemma LegOrCancel(rules: Rules, s: State, w: Worker, now: int)
    requires rules.WellFormed() && Invariant(rules, s) && OnTime(rules, s) && Enabled(s, StartLeg(w, now))
    ensures OnTime(rules, Apply(rules, s, StartLeg(w, now)))
  {
    assert JobFaithful(rules, s, s.jobs[w]) && s.jobs[w].key in s.started && Faithful(rules, s, s.jobs[w].key);
    if s.jobs[w].key in s.runs {
      StartLegIsOnTime(rules, s, w, now);
    } else {
      TablesStayInTime(rules, s, CancelWait(w));
      NothingPerformed(rules, s, Cancel(s, w));
    }
  }

  lemma {:induction false} EveryRunIsOnTime(rules: Rules, s: State, moves: seq<Move>)
    requires rules.WellFormed() && Invariant(rules, s) && OnTime(rules, s)
    requires Possible(rules, s, moves) && GuardedRun(rules, s, moves)
    ensures Invariant(rules, Run(rules, s, moves)) && OnTime(rules, Run(rules, s, moves))
    decreases |moves|
  {
    if moves != [] {
      MoveKeepsInvariant(rules, s, moves[0]);
      MoveIsOnTime(rules, s, moves[0]);
      EveryRunIsOnTime(rules, Apply(rules, s, moves[0]), moves[1..]);
    }
  }

  /**
    Main result. Nothing of a run comes after one of its waits before the wait is
    over: if entry `i` of the log is a wait of the run's rule, not skipped, and entry
    `j` a later one of the same run, then `j` belongs to a leg that begins at least
    the wait's length after the leg of `i` did.
   */
  lemma WaitsLast(rules: Rules, moves: seq<Move>, i: nat, j: nat, v: Step)
    requires rules.WellFormed() && Possible(rules, INITIAL, moves) && GuardedRun(rules, INITIAL, moves)
    ensures var performed := Run(rules, INITIAL, moves).performed;
      i < j < |performed| && performed[i].key == performed[j].key ==>
        var key := performed[i].key;
        Within(rules.tree(key.rule), v) && v.kind.Wait? && rules.world(key).waitLength(v).Some?
        && performed[i].result.id == v.id && performed[i].result.status != Skipped ==>
          performed[j].began >= performed[i].began + rules.world(key).waitLength(v).value
  {
    InitialInvariant(rules);
    EveryRunIsOnTime(rules, INITIAL, moves);
    var performed := Run(rules, INITIAL, moves).performed;
    if i < j < |performed| {
      assert WaitLasts(rules, performed, i) && WaitsFor(rules, performed, i, j);
      assert performed[i].result.id == v.id && performed[i].result.status != Skipped ==>
        (OfWait(rules.world(performed[i].key), rules.tree(performed[i].key.rule), performed[i].result, v) <==>
         Within(rules.tree(performed[i].key.rule), v) && v.kind.Wait? && rules.world(performed[i].key).waitLength(v).Some?);
    }
  }

  /** Any idle worker may claim the wait from this moment on, and none before it. */
  ghost predicate MayClaim(s: State, i: nat, now: int, until: int)
  {
    forall w :: w in s.jobs || (Enabled(s, ClaimWait(w, i, now)) <==> now >= until)
  }

  ghost predicate DueFrom(s: State, i: nat, until: int)
  {
    forall now :: MayClaim(s, i, now, until)
  }

  /**
    And a pending wait comes due exactly then: it is at a wait of the rule, and an
    idle worker may claim it if and only if the wait's length has passed since the
    leg that parked began.
   */
  lemma ComesDue(rules: Rules, moves: seq<Move>, i: nat) returns (v: Step)
    requires rules.WellFormed() && Possible(rules, INITIAL, moves) && GuardedRun(rules, INITIAL, moves)
    requires i < |Run(rules, INITIAL, moves).waits| && Run(rules, INITIAL, moves).waits[i].status.Pending?
    ensures var s := Run(rules, INITIAL, moves);
      var key := s.waits[i].key;
      && Within(rules.tree(key.rule), v) && v.kind.Wait? && v.id == s.waits[i].pause.stepId
      && rules.world(key).waitLength(v).Some?
      && DueFrom(s, i, Began(Log(s, key)) + rules.world(key).waitLength(v).value)
  {
    InitialInvariant(rules);
    EveryRunIsOnTime(rules, INITIAL, moves);
    v := PendingIsParked(rules, Run(rules, INITIAL, moves), i);
  }

  lemma PendingIsParked(rules: Rules, s: State, i: nat) returns (v: Step)
    requires Invariant(rules, s) && OnTime(rules, s) && i < |s.waits| && s.waits[i].status.Pending?
    ensures var key := s.waits[i].key;
      Within(rules.tree(key.rule), v) && IsLengthOf(rules.world(key), v, s.waits[i].pause, Began(Log(s, key)))
  {
    var key := s.waits[i].key;
    assert LegParks(rules, s, key);
    v :| Within(rules.tree(key.rule), v) && IsLengthOf(rules.world(key), v, s.waits[i].pause, Began(Log(s, key)));
  }
}
