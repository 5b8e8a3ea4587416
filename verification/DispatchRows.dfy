/**
  What the table of runs says about a finished run is true: its row holds what was
  performed, all of it, and that is what the rule means for the contact.
 */
module DispatchRows {
  import opened Wrappers
  import opened Sequences
  import opened AutomationSteps
  import opened AutomationFlow
  import opened AutomationResume
  import opened AutomationPath
  import opened Dispatch

  /** The row of a finished run holds what the run has come to, all of it performed. */
  ghost predicate RowTrue(rules: Rules, s: State, key: Key)
  {
    key in s.runs && s.runs[key].Finished? ==>
      var reached := Reached(rules, s, key);
      && key in s.started && Log(s, key).done == |reached.results| && reached.paused.None?
      && s.runs[key] == Finished(reached.results, StatusFor(reached.results))
  }

  /** A run under way is not finished. */
  predicate Open(s: State, job: Job)
  {
    job.Performing? && job.key in s.runs ==> !s.runs[job.key].Finished?
  }

  ghost predicate RowsTrue(rules: Rules, s: State)
  {
    && (forall key :: RowTrue(rules, s, key))
    && (forall w :: w in s.jobs ==> Open(s, s.jobs[w]))
  }

  /** The finished rows a move leaves were there before, with the same history; but for one run. */
  lemma {:induction false} OtherRowsTrue(rules: Rules, s: State, t: State, key: Key)
    requires RowsTrue(rules, s) && (forall k :: k in s.started ==> k in t.started)
    requires forall k :: k != key ==> Log(t, k) == Log(s, k)
    requires forall k :: k != key && k in t.runs && t.runs[k].Finished? ==> k in s.runs && t.runs[k] == s.runs[k]
    requires RowTrue(rules, t, key)
    requires forall w :: w in t.jobs && t.jobs[w].Performing? && t.jobs[w].key == key ==> Open(t, t.jobs[w])
    requires forall w :: w in t.jobs && t.jobs[w].Performing? && t.jobs[w].key != key ==> w in s.jobs && t.jobs[w] == s.jobs[w]
    ensures RowsTrue(rules, t)
  {
    forall k | k != key
      ensures RowTrue(rules, t, k)
    {
      assert RowTrue(rules, s, k);
    }
    forall w | w in t.jobs
      ensures Open(t, t.jobs[w])
    {
      if t.jobs[w].Performing? && t.jobs[w].key != key {
        assert Open(s, s.jobs[w]);
      }
    }
  }

  /** Moves that perform nothing, complete nothing and start no leg. */
  predicate Idles(s: State, m: Move)
    requires Enabled(s, m)
  {
    !m.Perform? && !m.Complete? && !m.StartLeg? && (m.Claim? ==> Subject(s, m) in s.runs)
  }

  lemma IdleFrame(rules: Rules, s: State, m: Move)
    requires Enabled(s, m) && Idles(s, m)
    ensures var t := Apply(rules, s, m);
      && t.history == s.history && t.started == s.started
      && (forall k :: k in t.runs && t.runs[k].Finished? ==> k in s.runs && t.runs[k] == s.runs[k])
      && (forall w :: w in t.jobs && t.jobs[w].Performing? ==> w in s.jobs && t.jobs[w] == s.jobs[w])
  {
  }

  lemma IdleKeepsRows(rules: Rules, s: State, m: Move)
    requires RowsTrue(rules, s) && Enabled(s, m) && Idles(s, m)
    ensures RowsTrue(rules, Apply(rules, s, m))
  {
    var t := Apply(rules, s, m);
    IdleFrame(rules, s, m);
    NoRunTouched(rules, s, t);
  }

  lemma {:induction false} NoRunTouched(rules: Rules, s: State, t: State)
    requires RowsTrue(rules, s) && t.history == s.history && t.started == s.started
    requires forall k :: k in t.runs && t.runs[k].Finished? ==> k in s.runs && t.runs[k] == s.runs[k]
    requires forall w :: w in t.jobs && t.jobs[w].Performing? ==> w in s.jobs && t.jobs[w] == s.jobs[w]
    ensures RowsTrue(rules, t)
  {
    forall k
      ensures RowTrue(rules, t, k)
    {
      assert RowTrue(rules, s, k);
    }
    forall w | w in t.jobs
      ensures Open(t, t.jobs[w])
    {
      if t.jobs[w].Performing? {
        assert Open(s, s.jobs[w]);
      }
    }
  }

  lemma {:induction false} ClaimKeepsRows(rules: Rules, s: State, w: Worker, now: int)
    requires Claimed(s) && RowsTrue(rules, s)
    requires Enabled(s, Claim(w, now)) && Guarded(s, Claim(w, now)) && Subject(s, Claim(w, now)) !in s.runs
    ensures RowsTrue(rules, Apply(rules, s, Claim(w, now)))
  {
    var t := Apply(rules, s, Claim(w, now));
    ClaimIsNew(rules, s, w, now);
    OtherRowsTrue(rules, s, t, Subject(s, Claim(w, now)));
  }

  lemma {:induction false} PerformKeepsRows(rules: Rules, s: State, w: Worker)
    requires RowsTrue(rules, s) && Enabled(s, Move.Perform(w))
    ensures RowsTrue(rules, Apply(rules, s, Move.Perform(w)))
  {
    var t := Apply(rules, s, Move.Perform(w));
    assert Open(s, s.jobs[w]);
    OtherRowsTrue(rules, s, t, s.jobs[w].key);
  }

  lemma {:induction false} CompleteKeepsRows(rules: Rules, s: State, w: Worker)
    requires OneHolder(s) && RowsTrue(rules, s) && Enabled(s, Complete(w)) && s.jobs[w].key in s.started
    requires JobFaithful(rules, s, s.jobs[w]) && Faithful(rules, s, s.jobs[w].key)
    ensures RowsTrue(rules, Apply(rules, s, Complete(w)))
  {
    var t := Apply(rules, s, Complete(w));
    var key := s.jobs[w].key;
    OnlyHolder(s, w);
    assert Reached(rules, t, key) == Reached(rules, s, key);
    OtherRowsTrue(rules, s, t, key);
  }

  lemma {:induction false} StartLegKeepsRows(rules: Rules, s: State, w: Worker, now: int)
    requires OneHolder(s) && RowsTrue(rules, s) && Enabled(s, StartLeg(w, now)) && JobFaithful(rules, s, s.jobs[w])
    ensures RowsTrue(rules, Apply(rules, s, StartLeg(w, now)))
  {
    var t := Apply(rules, s, StartLeg(w, now));
    var key := s.jobs[w].key;
    OnlyHolder(s, w);
    if t == Cancel(s, w) {
      IdleKeepsRows(rules, s, CancelWait(w));
    } else {
      OtherRowsTrue(rules, s, t, key);
    }
  }

  lemma {:induction false} MoveKeepsRows(rules: Rules, s: State, m: Move)
    requires Invariant(rules, s) && RowsTrue(rules, s) && Enabled(s, m) && Guarded(s, m)
    ensures RowsTrue(rules, Apply(rules, s, m))
  {
    if Idles(s, m) {
      IdleKeepsRows(rules, s, m);
      return;
    }
    assert JobFaithful(rules, s, s.jobs[m.w]);
    match m
    case Claim(w, now) => ClaimKeepsRows(rules, s, w, now);
    case Perform(w) => PerformKeepsRows(rules, s, w);
    case Complete(w) =>
      assert Faithful(rules, s, s.jobs[w].key);
      CompleteKeepsRows(rules, s, w);
    case StartLeg(w, now) => StartLegKeepsRows(rules, s, w, now);
    case _ =>
  }

  lemma {:induction false} EveryRunKeepsRows(rules: Rules, s: State, moves: seq<Move>)
    requires rules.WellFormed() && Invariant(rules, s) && RowsTrue(rules, s)
    requires Possible(rules, s, moves) && GuardedRun(rules, s, moves)
    ensures Invariant(rules, Run(rules, s, moves)) && RowsTrue(rules, Run(rules, s, moves))
    decreases |moves|
  {
    if moves != [] {
      MoveKeepsInvariant(rules, s, moves[0]);
      MoveKeepsRows(rules, s, moves[0]);
      EveryRunKeepsRows(rules, Apply(rules, s, moves[0]), moves[1..]);
    }
  }

  /**
    Main result. In every interleaving, a run whose row says it is finished has
    performed every result the row holds, in that order; leaving the skips out, that
    is exactly what the rule means for the contact; and the row's status is
    "succeeded" if and only if nothing failed, "failed" if and only if something did
    and nothing succeeded.
   */
  lemma FinishedRowIsTrue(rules: Rules, moves: seq<Move>, key: Key)
    requires rules.WellFormed() && Possible(rules, INITIAL, moves) && GuardedRun(rules, INITIAL, moves)
    ensures var s := Run(rules, INITIAL, moves);
      key in s.runs && s.runs[key].Finished? ==>
        var results, status := s.runs[key].results, s.runs[key].status;
        && Effects(s.performed, key) == ResultIds(results)
        && Meant(rules.world(key), rules.tree(key.rule), Executed(results))
        && (status == RunSucceeded <==> forall r :: r in results ==> r.status != Failed)
        && (status == RunFailed <==>
              (exists r :: r in results && r.status == Failed) && forall r :: r in results ==> r.status != Succeeded)
  {
    InitialInvariant(rules);
    EveryRunKeepsRows(rules, INITIAL, moves);
    var s := Run(rules, INITIAL, moves);
    if key in s.runs && s.runs[key].Finished? {
      FinishedTells(rules, s, key);
    }
  }

  lemma FinishedTells(rules: Rules, s: State, key: Key)
    requires rules.WellFormed() && Invariant(rules, s) && RowsTrue(rules, s)
    requires key in s.runs && s.runs[key].Finished?
    ensures var results, status := s.runs[key].results, s.runs[key].status;
      && Effects(s.performed, key) == ResultIds(results)
      && Meant(rules.world(key), rules.tree(key.rule), Executed(results))
      && (status == RunSucceeded <==> forall r :: r in results ==> r.status != Failed)
      && (status == RunFailed <==>
            (exists r :: r in results && r.status == Failed) && forall r :: r in results ==> r.status != Succeeded)
  {
    var results := s.runs[key].results;
    assert RowTrue(rules, s, key) && Faithful(rules, s, key);
    FinishedRunMeans(rules.world(key), rules.tree(key.rule), Log(s, key).start, Log(s, key).resumes);
    assert ResultIds(results)[..|results|] == ResultIds(results);
    StatusTells(results);
  }

  lemma StatusTells(results: seq<ActionResult>)
    ensures StatusFor(results) == RunSucceeded <==> forall r :: r in results ==> r.status != Failed
    ensures StatusFor(results) == RunFailed <==>
      (exists r :: r in results && r.status == Failed) && forall r :: r in results ==> r.status != Succeeded
  {
    assert forall i :: 0 <= i < |results| ==> results[i] in results;
  }
}
