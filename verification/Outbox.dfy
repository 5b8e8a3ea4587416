/**
  The event outbox and its relays.

  Events are committed with the change they describe. Any number of relays
  claim unpublished rows, hand each to every sink and mark the batch published,
  all in one transaction; a relay may crash at any point. Published rows are
  pruned after a retention time.
 */
module Outbox {
  import opened Wrappers
  import opened Sequences

  type EventId = nat
  type RelayId = nat
  type Sink = nat

  const BATCH_SIZE := 500

  /** `sinks` in the order a relay runs them; `streamSink` is the one that feeds the automation consumers. */
  datatype Setup = Setup(sinks: seq<Sink>, streamSink: Sink, retention: int)

  /** A relay's open transaction: its locked rows, and which row and sink come next. */
  datatype Batch = Batch(rows: seq<EventId>, row: nat, sink: nat)

  /**
    `rows` maps a stored event to when it was published, if it was; `open` holds
    each busy relay's batch; `handed` logs every call of a sink; `stream` what
    the stream sink appended. `committed` is history: every event there ever was.
   */
  datatype Store = Store(rows: map<EventId, Option<int>>, open: map<RelayId, Batch>,
                         handed: seq<(EventId, Sink)>, stream: seq<EventId>, committed: set<EventId>)

  const EMPTY := Store(map[], map[], [], [], {})

  datatype Step =
    | Commit(event: EventId)
    | Claim(relay: RelayId, rows: seq<EventId>)
    | Hand(relay: RelayId, ok: bool)
    | Publish(relay: RelayId, at: int)
    | Crash(relay: RelayId)
    | Prune(now: int)

  predicate Locked(s: Store, e: EventId)
  {
    exists r :: r in s.open && e in s.open[r].rows
  }

  ghost predicate Enabled(setup: Setup, s: Store, step: Step)
  {
    match step
    case Commit(e) => e !in s.committed
    case Claim(r, rows) =>
      && r !in s.open
      && 0 < |rows| <= BATCH_SIZE && Distinct(rows)
      && forall e :: e in rows ==> e in s.rows && s.rows[e].None? && !Locked(s, e)
    case Hand(r, _) => r in s.open && s.open[r].row < |s.open[r].rows| && s.open[r].sink < |setup.sinks|
    case Publish(r, _) => r in s.open && Drained(setup, s.open[r])
    case Crash(r) => r in s.open
    case Prune(_) => true
  }

  /** Every row of the batch has been through every sink. */
  predicate Drained(setup: Setup, b: Batch)
  {
    b.row == |b.rows| || setup.sinks == []
  }

  /** The position after one more sink call: the next sink, or the first sink of the next row. */
  function Advance(setup: Setup, b: Batch): Batch
  {
    if b.sink + 1 < |setup.sinks| then b.(sink := b.sink + 1) else b.(row := b.row + 1, sink := 0)
  }

  ghost function Apply(setup: Setup, s: Store, step: Step): Store
    requires Enabled(setup, s, step)
  {
    match step
    case Commit(e) => s.(rows := s.rows[e := None], committed := s.committed + {e})
    case Claim(r, rows) => s.(open := s.open[r := Batch(rows, 0, 0)])
    case Hand(r, ok) =>
      var b := s.open[r];
      var e, sink := b.rows[b.row], setup.sinks[b.sink];
      s.(handed := s.handed + [(e, sink)],
         stream := if ok && sink == setup.streamSink then s.stream + [e] else s.stream,
         open := s.open[r := Advance(setup, b)])
    case Publish(r, at) =>
      s.(rows := map e | e in s.rows :: if e in s.open[r].rows then Some(at) else s.rows[e],
         open := s.open - {r})
    case Crash(r) => s.(open := s.open - {r})
    case Prune(now) =>
      s.(rows := map e | e in s.rows && !(s.rows[e].Some? && s.rows[e].value < now - setup.retention) :: s.rows[e])
  }

  /** The run of a list of steps, when each is possible in its turn. */
  ghost predicate Possible(setup: Setup, s: Store, steps: seq<Step>)
    decreases |steps|
  {
    steps != [] ==> Enabled(setup, s, steps[0]) && Possible(setup, Apply(setup, s, steps[0]), steps[1..])
  }

  ghost function Run(setup: Setup, s: Store, steps: seq<Step>): Store
    requires Possible(setup, s, steps)
    decreases |steps|
  {
    if steps == [] then s else Run(setup, Apply(setup, s, steps[0]), steps[1..])
  }

  ghost predicate HandedToAll(setup: Setup, s: Store, e: EventId)
  {
    forall sink :: sink in setup.sinks ==> (e, sink) in s.handed
  }

  /** The calls a batch has made so far. */
  ghost predicate BatchHanded(setup: Setup, s: Store, b: Batch)
  {
    && (forall i :: 0 <= i < b.row && i < |b.rows| ==> HandedToAll(setup, s, b.rows[i]))
    && (b.row < |b.rows| ==> forall j :: 0 <= j < b.sink && j < |setup.sinks| ==> (b.rows[b.row], setup.sinks[j]) in s.handed)
  }

  ghost predicate BatchSound(setup: Setup, s: Store, b: Batch)
  {
    && b.row <= |b.rows| && Distinct(b.rows)
    && (b.row < |b.rows| && setup.sinks != [] ==> b.sink < |setup.sinks|)
    && (b.row == |b.rows| || setup.sinks == [] ==> b.sink == 0)
    && (forall e :: e in b.rows ==> e in s.rows && s.rows[e].None?)
    && BatchHanded(setup, s, b)
  }

  ghost predicate Sound(setup: Setup, s: Store)
  {
    && s.rows.Keys <= s.committed
    && (forall r :: r in s.open ==> BatchSound(setup, s, s.open[r]))
    && (forall q, r :: q in s.open && r in s.open && q != r ==> Disjoint(s.open[q].rows, s.open[r].rows))
    && (forall e :: e in s.rows && s.rows[e].Some? ==> HandedToAll(setup, s, e))
    && (forall e :: e in s.committed && e !in s.rows ==> HandedToAll(setup, s, e))
    && (forall e :: e in s.stream ==> e in s.committed)
  }

  lemma {:induction false} StepKeepsSound(setup: Setup, s: Store, step: Step)
    requires Sound(setup, s) && Enabled(setup, s, step)
    ensures Sound(setup, Apply(setup, s, step))
  {
    match step
    case Commit(e) => CommitKeepsSound(setup, s, e);
    case Claim(r, rows) => ClaimKeepsSound(setup, s, r, rows);
    case Hand(r, ok) => HandKeepsSound(setup, s, r, ok);
    case Publish(r, at) => PublishKeepsSound(setup, s, r, at);
    case Crash(r) => CrashKeepsSound(setup, s, r);
    case Prune(now) => PruneKeepsSound(setup, s, now);
  }

  lemma {:induction false} CommitKeepsSound(setup: Setup, s: Store, e: EventId)
    requires Sound(setup, s) && Enabled(setup, s, Commit(e))
    ensures Sound(setup, Apply(setup, s, Commit(e)))
  {
    var t := Apply(setup, s, Commit(e));
    BatchesUnmoved(setup, s, t, s.open.Keys);
    assert forall x :: HandedToAll(setup, s, x) ==> HandedToAll(setup, t, x);
  }

  /** Batches stay sound when nothing they rest on is taken away. */
  lemma {:induction false} BatchesUnmoved(setup: Setup, s: Store, t: Store, relays: set<RelayId>)
    requires Sound(setup, s) && relays <= s.open.Keys
    requires forall x :: x in s.handed ==> x in t.handed
    requires forall r, e :: r in relays && e in s.open[r].rows ==> e in t.rows && t.rows[e].None?
    ensures forall r :: r in relays ==> BatchSound(setup, t, s.open[r])
  {
    forall r | r in relays ensures BatchSound(setup, t, s.open[r]) {
      var b := s.open[r];
      forall i | 0 <= i < b.row && i < |b.rows| ensures HandedToAll(setup, t, b.rows[i]) {
        assert HandedToAll(setup, s, b.rows[i]);
      }
    }
  }

  lemma {:induction false} ClaimKeepsSound(setup: Setup, s: Store, r: RelayId, rows: seq<EventId>)
    requires Sound(setup, s) && Enabled(setup, s, Claim(r, rows))
    ensures Sound(setup, Apply(setup, s, Claim(r, rows)))
  {
    var t := Apply(setup, s, Claim(r, rows));
    BatchesUnmoved(setup, s, t, s.open.Keys);
    assert forall x :: HandedToAll(setup, s, x) ==> HandedToAll(setup, t, x);
    forall q | q in s.open ensures Disjoint(s.open[q].rows, rows) && Disjoint(rows, s.open[q].rows) {
    }
    forall q | q in t.open ensures BatchSound(setup, t, t.open[q]) {
      assert q != r ==> t.open[q] == s.open[q];
    }
  }

  lemma {:induction false} PublishKeepsSound(setup: Setup, s: Store, r: RelayId, at: int)
    requires Sound(setup, s) && Enabled(setup, s, Publish(r, at))
    ensures Sound(setup, Apply(setup, s, Publish(r, at)))
  {
    var t := Apply(setup, s, Publish(r, at));
    var b := s.open[r];
    forall e | e in b.rows ensures HandedToAll(setup, t, e) {
      var i :| 0 <= i < |b.rows| && b.rows[i] == e;
      assert setup.sinks != [] ==> HandedToAll(setup, s, b.rows[i]);
    }
    forall q, e | q in s.open.Keys - {r} && e in s.open[q].rows ensures e in t.rows && t.rows[e].None? {
      assert Disjoint(s.open[q].rows, b.rows);
    }
    BatchesUnmoved(setup, s, t, s.open.Keys - {r});
    assert forall x :: HandedToAll(setup, s, x) ==> HandedToAll(setup, t, x);
    assert forall q :: q in t.open ==> t.open[q] == s.open[q];
  }

  lemma {:induction false} CrashKeepsSound(setup: Setup, s: Store, r: RelayId)
    requires Sound(setup, s) && Enabled(setup, s, Crash(r))
    ensures Sound(setup, Apply(setup, s, Crash(r)))
  {
    var t := Apply(setup, s, Crash(r));
    BatchesUnmoved(setup, s, t, s.open.Keys - {r});
    assert forall x :: HandedToAll(setup, s, x) ==> HandedToAll(setup, t, x);
    assert forall q :: q in t.open ==> t.open[q] == s.open[q];
  }

  lemma {:induction false} PruneKeepsSound(setup: Setup, s: Store, now: int)
    requires Sound(setup, s)
    ensures Sound(setup, Apply(setup, s, Prune(now)))
  {
    var t := Apply(setup, s, Prune(now));
    BatchesUnmoved(setup, s, t, s.open.Keys);
    assert forall x :: HandedToAll(setup, s, x) ==> HandedToAll(setup, t, x);
  }

  lemma {:induction false} OwnBatchSound(setup: Setup, s: Store, t: Store, b: Batch)
    requires BatchSound(setup, s, b) && BatchSound(setup, t, b)
    requires b.row < |b.rows| && b.sink < |setup.sinks|
    requires forall x :: x in t.handed <==> x in s.handed || x == (b.rows[b.row], setup.sinks[b.sink])
    ensures BatchSound(setup, t, Advance(setup, b))
  {
    var c := Advance(setup, b);
    if b.sink + 1 == |setup.sinks| {
      forall sink | sink in setup.sinks ensures (b.rows[b.row], sink) in t.handed {
        var j :| 0 <= j < |setup.sinks| && setup.sinks[j] == sink;
        assert j < b.sink ==> (b.rows[b.row], setup.sinks[j]) in s.handed;
      }
      assert HandedToAll(setup, t, b.rows[b.row]);
    }
    assert BatchHanded(setup, t, c);
  }

  lemma {:induction false} HandKeepsBatches(setup: Setup, s: Store, r: RelayId, ok: bool)
    requires Sound(setup, s) && Enabled(setup, s, Hand(r, ok))
    ensures var t := Apply(setup, s, Hand(r, ok));
      && (forall q :: q in t.open ==> BatchSound(setup, t, t.open[q]))
      && (forall q :: q in t.open ==> q in s.open && t.open[q].rows == s.open[q].rows)
      && (forall e :: HandedToAll(setup, s, e) ==> HandedToAll(setup, t, e))
  {
    var t := Apply(setup, s, Hand(r, ok));
    var b := s.open[r];
    var call := (b.rows[b.row], setup.sinks[b.sink]);
    assert forall x :: x in t.handed <==> x in s.handed || x == call;
    BatchesUnmoved(setup, s, t, s.open.Keys);
    OwnBatchSound(setup, s, t, b);
    forall q | q in t.open ensures BatchSound(setup, t, t.open[q]) {
      assert q != r ==> t.open[q] == s.open[q];
    }
  }

  lemma {:induction false} HandKeepsSound(setup: Setup, s: Store, r: RelayId, ok: bool)
    requires Sound(setup, s) && Enabled(setup, s, Hand(r, ok))
    ensures Sound(setup, Apply(setup, s, Hand(r, ok)))
  {
    var t := Apply(setup, s, Hand(r, ok));
    HandKeepsBatches(setup, s, r, ok);
    StillDisjoint(s, t);
    var b := s.open[r];
    assert b.rows[b.row] in b.rows;
  }

  lemma StillDisjoint(s: Store, t: Store)
    requires forall q, r :: q in s.open && r in s.open && q != r ==> Disjoint(s.open[q].rows, s.open[r].rows)
    requires forall q :: q in t.open ==> q in s.open && t.open[q].rows == s.open[q].rows
    ensures forall q, r :: q in t.open && r in t.open && q != r ==> Disjoint(t.open[q].rows, t.open[r].rows)
  {
  }

  /**
    No event is lost: whatever relays and crashes do, an event that was ever
    committed is either still stored, or has been handed to every sink; and a
    stored event counts as published only after every sink has had it.
   */
  lemma {:induction false} NothingPrunedUnhanded(setup: Setup, steps: seq<Step>, s: Store)
    requires Sound(setup, s) && Possible(setup, s, steps)
    ensures Sound(setup, Run(setup, s, steps))
    ensures var t := Run(setup, s, steps);
            forall e :: e in t.committed ==>
              HandedToAll(setup, t, e) || (e in t.rows && t.rows[e].None?)
    decreases |steps|
  {
    if steps != [] {
      StepKeepsSound(setup, s, steps[0]);
      NothingPrunedUnhanded(setup, steps[1..], Apply(setup, s, steps[0]));
    }
  }

  // ----- duplicates come only from crashes

  /** Sink calls made for an event that is waiting its turn: none outside a batch, and only the recorded ones inside. */
  ghost predicate Quiet(setup: Setup, s: Store)
  {
    && Distinct(s.handed)
    && (forall x :: x in s.handed ==> x.0 in s.committed)
    && (forall e :: e in s.rows && s.rows[e].None? && !Locked(s, e) ==> forall sink :: (e, sink) !in s.handed)
    && (forall r :: r in s.open ==> BatchQuiet(setup, s, s.open[r]))
  }

  ghost predicate BatchQuiet(setup: Setup, s: Store, b: Batch)
  {
    && (forall i, sink :: b.row < i < |b.rows| ==> (b.rows[i], sink) !in s.handed)
    && (b.row < |b.rows| ==> forall j :: b.sink <= j < |setup.sinks| ==> (b.rows[b.row], setup.sinks[j]) !in s.handed)
  }

  lemma {:induction false} StepKeepsQuiet(setup: Setup, s: Store, step: Step)
    requires Distinct(setup.sinks)
    requires Sound(setup, s) && Quiet(setup, s) && Enabled(setup, s, step) && !step.Crash?
    ensures Quiet(setup, Apply(setup, s, step))
  {
    var t := Apply(setup, s, step);
    match step
    case Commit(e) => UnlockedBefore(s, t);
    case Claim(r, rows) => ClaimKeepsQuiet(setup, s, r, rows);
    case Hand(r, ok) => HandKeepsQuiet(setup, s, r, ok);
    case Publish(r, at) => PublishKeepsQuiet(setup, s, r, at);
    case Prune(now) => UnlockedBefore(s, t);
  }

  lemma UnlockedBefore(s: Store, t: Store)
    requires forall r :: r in s.open ==> r in t.open && t.open[r].rows == s.open[r].rows
    ensures forall e :: Locked(s, e) ==> Locked(t, e)
  {
    forall e | Locked(s, e) ensures Locked(t, e) {
      var q :| q in s.open && e in s.open[q].rows;
      assert q in t.open && e in t.open[q].rows;
    }
  }

  lemma {:induction false} ClaimKeepsQuiet(setup: Setup, s: Store, r: RelayId, rows: seq<EventId>)
    requires Sound(setup, s) && Quiet(setup, s) && Enabled(setup, s, Claim(r, rows))
    ensures Quiet(setup, Apply(setup, s, Claim(r, rows)))
  {
    var t := Apply(setup, s, Claim(r, rows));
    UnlockedBefore(s, t);
    forall i, sink | 0 <= i < |rows| ensures (rows[i], sink) !in s.handed {
      assert rows[i] in rows;
    }
    forall q | q in t.open ensures BatchQuiet(setup, t, t.open[q]) {
      if q == r {
        assert t.open[q] == Batch(rows, 0, 0);
      } else {
        assert BatchQuiet(setup, s, s.open[q]);
      }
    }
  }

  /** A published batch unlocks its own rows only, and those no longer wait. */
  lemma {:induction false} PublishKeepsQuiet(setup: Setup, s: Store, r: RelayId, at: int)
    requires Sound(setup, s) && Quiet(setup, s) && Enabled(setup, s, Publish(r, at))
    ensures Quiet(setup, Apply(setup, s, Publish(r, at)))
  {
    var t := Apply(setup, s, Publish(r, at));
    forall e | Locked(s, e) && e !in s.open[r].rows ensures Locked(t, e) {
      OthersStayLocked(s, t, r, e);
    }
    forall q | q in t.open ensures BatchQuiet(setup, t, t.open[q]) {
      assert t.open[q] == s.open[q];
    }
  }

  lemma OthersStayLocked(s: Store, t: Store, r: RelayId, e: EventId)
    requires r in s.open && t.open == s.open - {r} && Locked(s, e) && e !in s.open[r].rows
    ensures Locked(t, e)
  {
    var q :| q in s.open && e in s.open[q].rows;
    assert q in t.open && e in t.open[q].rows;
  }

  lemma {:induction false} HandKeepsQuiet(setup: Setup, s: Store, r: RelayId, ok: bool)
    requires Distinct(setup.sinks)
    requires Sound(setup, s) && Quiet(setup, s) && Enabled(setup, s, Hand(r, ok))
    ensures Quiet(setup, Apply(setup, s, Hand(r, ok)))
  {
    var t := Apply(setup, s, Hand(r, ok));
    var b := s.open[r];
    var call := (b.rows[b.row], setup.sinks[b.sink]);
    assert call !in s.handed by {
      assert BatchQuiet(setup, s, b);
    }
    DistinctConcat(s.handed, [call]);
    assert forall x :: x in t.handed <==> x in s.handed || x == call;
    UnlockedBefore(s, t);
    assert b.rows[b.row] in b.rows;
    assert Locked(t, b.rows[b.row]) by {
      assert r in t.open && b.rows[b.row] in t.open[r].rows;
    }
    forall q | q in t.open ensures BatchQuiet(setup, t, t.open[q]) {
      assert BatchQuiet(setup, s, s.open[q]);
      if q != r {
        OtherRowsQuiet(setup, s, t, s.open[q], call);
      } else {
        OwnRowsQuiet(setup, s, t, b);
      }
    }
  }

  lemma {:induction false} OtherRowsQuiet(setup: Setup, s: Store, t: Store, b: Batch, call: (EventId, Sink))
    requires BatchQuiet(setup, s, b) && call.0 !in b.rows
    requires forall x :: x in t.handed <==> x in s.handed || x == call
    ensures BatchQuiet(setup, t, b)
  {
    forall i, sink | 0 <= i < |b.rows| && (b.rows[i], sink) !in s.handed ensures (b.rows[i], sink) !in t.handed {
      assert b.rows[i] in b.rows;
    }
  }

  lemma {:induction false} OwnRowsQuiet(setup: Setup, s: Store, t: Store, b: Batch)
    requires Distinct(setup.sinks) && Distinct(b.rows)
    requires b.row < |b.rows| && b.sink < |setup.sinks|
    requires BatchQuiet(setup, s, b)
    requires forall x :: x in t.handed <==> x in s.handed || x == (b.rows[b.row], setup.sinks[b.sink])
    ensures BatchQuiet(setup, t, Advance(setup, b))
  {
  }

  /** As long as no relay crashes, no event is handed to the same sink twice, however many relays run. */
  lemma {:induction false} HandedOnceWithoutCrashes(setup: Setup, steps: seq<Step>, s: Store)
    requires Distinct(setup.sinks)
    requires Sound(setup, s) && Quiet(setup, s) && Possible(setup, s, steps)
    requires forall i :: 0 <= i < |steps| ==> !steps[i].Crash?
    ensures Distinct(Run(setup, s, steps).handed)
    decreases |steps|
  {
    if steps != [] {
      StepKeepsSound(setup, s, steps[0]);
      StepKeepsQuiet(setup, s, steps[0]);
      HandedOnceWithoutCrashes(setup, steps[1..], Apply(setup, s, steps[0]));
    }
  }

  lemma EmptyIsSound(setup: Setup)
    ensures Sound(setup, EMPTY) && Quiet(setup, EMPTY)
  {
  }

  /**
    From the empty outbox: every event ever committed is still waiting or has
    reached every sink, and without crashes it has reached none of them twice.
   */
  lemma FromNothing(setup: Setup, steps: seq<Step>)
    requires Possible(setup, EMPTY, steps)
    ensures var s := Run(setup, EMPTY, steps);
      && (forall e :: e in s.committed ==> HandedToAll(setup, s, e) || (e in s.rows && s.rows[e].None?))
      && (Distinct(setup.sinks) && (forall i :: 0 <= i < |steps| ==> !steps[i].Crash?) ==> Distinct(s.handed))
  {
    EmptyIsSound(setup);
    NothingPrunedUnhanded(setup, steps, EMPTY);
    if Distinct(setup.sinks) && (forall i :: 0 <= i < |steps| ==> !steps[i].Crash?) {
      HandedOnceWithoutCrashes(setup, steps, EMPTY);
    }
  }

  // ----- what reaches the automation stream

  /** The events a sink was called with, in order. */
  function Calls(handed: seq<(EventId, Sink)>, sink: Sink): seq<EventId>
  {
    if handed == [] then []
    else
      var last := handed[|handed| - 1];
      Calls(handed[..|handed| - 1], sink) + if last.1 == sink then [last.0] else []
  }

  /** The stream holds exactly what its sink was called with. */
  ghost predicate Fed(setup: Setup, s: Store)
  {
    s.stream == Calls(s.handed, setup.streamSink)
  }

  /** The stream's sink is called and fails. */
  predicate FailsToAppend(setup: Setup, s: Store, step: Step)
    requires step.Hand? ==> step.relay in s.open && s.open[step.relay].sink < |setup.sinks|
  {
    step.Hand? && !step.ok && setup.sinks[s.open[step.relay].sink] == setup.streamSink
  }

  /** A failing call is the one thing that sets the stream apart from its sink's calls. */
  lemma {:induction false} StepKeepsFed(setup: Setup, s: Store, step: Step)
    requires Fed(setup, s) && Enabled(setup, s, step)
    ensures Fed(setup, Apply(setup, s, step)) <==> !FailsToAppend(setup, s, step)
  {
    if step.Hand? {
      var b := s.open[step.relay];
      var call := (b.rows[b.row], setup.sinks[b.sink]);
      assert (s.handed + [call])[..|s.handed|] == s.handed;
      assert Calls(s.handed + [call], setup.streamSink) ==
             Calls(s.handed, setup.streamSink) + if call.1 == setup.streamSink then [call.0] else [];
    }
  }

  ghost predicate AppendsAll(setup: Setup, s: Store, steps: seq<Step>)
    requires Possible(setup, s, steps)
    decreases |steps|
  {
    steps == [] || (!FailsToAppend(setup, s, steps[0]) && AppendsAll(setup, Apply(setup, s, steps[0]), steps[1..]))
  }

  lemma {:induction false} RunKeepsFed(setup: Setup, s: Store, steps: seq<Step>)
    requires Fed(setup, s) && Possible(setup, s, steps) && AppendsAll(setup, s, steps)
    ensures Fed(setup, Run(setup, s, steps))
    decreases |steps|
  {
    if steps != [] {
      StepKeepsFed(setup, s, steps[0]);
      RunKeepsFed(setup, Apply(setup, s, steps[0]), steps[1..]);
    }
  }

  lemma {:induction false} CallsHold(handed: seq<(EventId, Sink)>, sink: Sink, e: EventId)
    ensures e in Calls(handed, sink) <==> (e, sink) in handed
  {
    if handed != [] {
      var before, last := handed[..|handed| - 1], handed[|handed| - 1];
      CallsHold(before, sink, e);
      assert handed == before + [last];
    }
  }

  lemma {:induction false} CallsDiffer(handed: seq<(EventId, Sink)>, sink: Sink)
    requires Distinct(handed)
    ensures Distinct(Calls(handed, sink))
  {
    if handed != [] {
      var before, last := handed[..|handed| - 1], handed[|handed| - 1];
      assert handed == before + [last];
      DistinctConcat(before, [last]);
      CallsDiffer(before, sink);
      CallsHold(before, sink, last.0);
      DistinctConcat(Calls(before, sink), [last.0]);
      assert Calls(before, sink) + [] == Calls(before, sink);
    }
  }

  /**
    From the empty outbox, while its sink never fails: every event no longer
    waiting is in the stream, and without crashes just once.
   */
  lemma StreamGetsEverything(setup: Setup, steps: seq<Step>)
    requires setup.streamSink in setup.sinks && Possible(setup, EMPTY, steps) && AppendsAll(setup, EMPTY, steps)
    ensures var s := Run(setup, EMPTY, steps);
      && (forall e :: e in s.committed && (e in s.rows ==> s.rows[e].Some?) ==> e in s.stream)
      && (Distinct(setup.sinks) && (forall i :: 0 <= i < |steps| ==> !steps[i].Crash?) ==> Distinct(s.stream))
  {
    var s := Run(setup, EMPTY, steps);
    FromNothing(setup, steps);
    EmptyIsSound(setup);
    NothingPrunedUnhanded(setup, steps, EMPTY);
    RunKeepsFed(setup, EMPTY, steps);
    forall e | e in s.committed && (e in s.rows ==> s.rows[e].Some?)
      ensures e in s.stream
    {
      CallsHold(s.handed, setup.streamSink, e);
    }
    if Distinct(s.handed) {
      CallsDiffer(s.handed, setup.streamSink);
    }
  }

  /** Published, or pruned since, without ever having been appended. */
  ghost predicate Missed(s: Store, e: EventId)
  {
    e in s.committed && (e in s.rows ==> s.rows[e].Some?) && e !in s.stream
  }

  /** An event that was published without being appended is never offered to the stream again. */
  lemma {:induction false} MissedForGood(setup: Setup, s: Store, steps: seq<Step>, e: EventId)
    requires Sound(setup, s) && Missed(s, e) && Possible(setup, s, steps)
    ensures Missed(Run(setup, s, steps), e)
    decreases |steps|
  {
    if steps != [] {
      var next := Apply(setup, s, steps[0]);
      if steps[0].Hand? {
        var b := s.open[steps[0].relay];
        assert b.rows[b.row] in b.rows && BatchSound(setup, s, b);
      }
      assert Missed(next, e);
      StepKeepsSound(setup, s, steps[0]);
      MissedForGood(setup, next, steps[1..], e);
    }
  }

  lemma OneStep(setup: Setup, s: Store, steps: seq<Step>, k: nat, next: Store)
    requires k < |steps| && Enabled(setup, s, steps[k]) && next == Apply(setup, s, steps[k])
    requires Possible(setup, next, steps[k + 1..])
    ensures Possible(setup, s, steps[k..]) && Run(setup, s, steps[k..]) == Run(setup, next, steps[k + 1..])
  {
    assert steps[k..][0] == steps[k] && steps[k..][1..] == steps[k + 1..];
  }

  /** An event is committed, claimed, handed to the failing stream sink, and published. */
  function FailedAppend(at: int): seq<Step>
  {
    [Commit(0), Claim(0, [0]), Hand(0, false), Publish(0, at)]
  }

  /** One failed append is enough: the row is marked as published all the same. */
  lemma FailedAppendIsMissed(setup: Setup, at: int)
    requires setup.sinks == [setup.streamSink]
    ensures Possible(setup, EMPTY, FailedAppend(at)) && Missed(Run(setup, EMPTY, FailedAppend(at)), 0)
  {
    var steps := FailedAppend(at);
    var s1 := Store(map[0 := None], map[], [], [], {0});
    var s2 := s1.(open := map[0 := Batch([0], 0, 0)]);
    var s3 := s1.(open := map[0 := Batch([0], 1, 0)], handed := [(0, setup.streamSink)]);
    var s4 := Apply(setup, s3, steps[3]);
    OneStep(setup, s3, steps, 3, s4);
    assert [] + [(0, setup.streamSink)] == [(0, setup.streamSink)];
    OneStep(setup, s2, steps, 2, s3);
    assert !Locked(s1, 0);
    OneStep(setup, s1, steps, 1, s2);
    OneStep(setup, EMPTY, steps, 0, s1);
    assert steps[0..] == steps && Run(setup, s4, steps[4..]) == s4;
  }

  // ----- what pruning takes

  /** Step `i` claims the event for this relay, which still has it open after the last step. */
  predicate ClaimHolds(steps: seq<Step>, i: nat, r: RelayId, e: EventId)
    requires i < |steps|
  {
    && steps[i].Claim? && steps[i].relay == r && e in steps[i].rows
    && forall k :: i < k < |steps| ==> !Closes(steps[k], r)
  }

  predicate Closes(step: Step, r: RelayId)
  {
    (step.Publish? || step.Crash?) && step.relay == r
  }

  ghost predicate ClaimedBy(steps: seq<Step>, r: RelayId, e: EventId)
  {
    exists i :: 0 <= i < |steps| && ClaimHolds(steps, i, r, e)
  }

  /** Step `k` publishes the event at this time. */
  ghost predicate PublishedBy(steps: seq<Step>, k: nat, e: EventId, at: int)
    requires k < |steps|
  {
    steps[k].Publish? && steps[k].at == at && ClaimedBy(steps[..k], steps[k].relay, e)
  }

  ghost predicate PublishedAt(steps: seq<Step>, e: EventId, at: int)
  {
    exists k :: 0 <= k < |steps| && PublishedBy(steps, k, e, at)
  }

  /** Step `k` prunes, and the event was published more than the retention time before. */
  ghost predicate PrunedAt(setup: Setup, steps: seq<Step>, k: nat, e: EventId)
    requires k < |steps|
  {
    steps[k].Prune? && exists at: int :: PublishedAt(steps[..k], e, at) && at < steps[k].now - setup.retention
  }

  ghost predicate Aged(setup: Setup, steps: seq<Step>, e: EventId)
  {
    exists k :: 0 <= k < |steps| && PrunedAt(setup, steps, k, e)
  }

  ghost predicate Kept(setup: Setup, steps: seq<Step>, s: Store)
  {
    && (forall r, e :: r in s.open && e in s.open[r].rows ==> ClaimedBy(steps, r, e))
    && (forall e :: e in s.rows && s.rows[e].Some? ==> PublishedAt(steps, e, s.rows[e].value))
    && (forall e :: e in s.committed && e !in s.rows ==> Aged(setup, steps, e))
  }

  lemma ClaimedLater(steps: seq<Step>, step: Step, r: RelayId, e: EventId)
    ensures ClaimedBy(steps, r, e) && !Closes(step, r) ==> ClaimedBy(steps + [step], r, e)
    ensures step.Claim? && step.relay == r && e in step.rows ==> ClaimedBy(steps + [step], r, e)
  {
    var more := steps + [step];
    if i :| 0 <= i < |steps| && ClaimHolds(steps, i, r, e) {
      assert !Closes(step, r) ==> ClaimHolds(more, i, r, e);
    }
    assert step.Claim? && step.relay == r && e in step.rows ==> ClaimHolds(more, |steps|, r, e);
  }

  lemma PublishedLater(steps: seq<Step>, step: Step, e: EventId, at: int)
    ensures PublishedAt(steps, e, at) ==> PublishedAt(steps + [step], e, at)
    ensures step.Publish? && step.at == at && ClaimedBy(steps, step.relay, e) ==> PublishedAt(steps + [step], e, at)
  {
    var more := steps + [step];
    if k :| 0 <= k < |steps| && PublishedBy(steps, k, e, at) {
      assert more[..k] == steps[..k] && PublishedBy(more, k, e, at);
    }
    assert more[..|steps|] == steps;
    assert step.Publish? && step.at == at && ClaimedBy(steps, step.relay, e) ==> PublishedBy(more, |steps|, e, at);
  }

  lemma AgedLater(setup: Setup, steps: seq<Step>, step: Step, e: EventId)
    ensures Aged(setup, steps, e) ==> Aged(setup, steps + [step], e)
  {
    if k :| 0 <= k < |steps| && PrunedAt(setup, steps, k, e) {
      assert (steps + [step])[..k] == steps[..k] && PrunedAt(setup, steps + [step], k, e);
    }
  }

  lemma PruneIsAged(setup: Setup, steps: seq<Step>, now: int, e: EventId, at: int)
    requires PublishedAt(steps, e, at) && at < now - setup.retention
    ensures Aged(setup, steps + [Prune(now)], e)
  {
    assert (steps + [Prune(now)])[..|steps|] == steps;
    assert PrunedAt(setup, steps + [Prune(now)], |steps|, e);
  }

  lemma {:induction false} StepKeeps(setup: Setup, steps: seq<Step>, s: Store, step: Step)
    requires Kept(setup, steps, s) && Enabled(setup, s, step)
    ensures Kept(setup, steps + [step], Apply(setup, s, step))
  {
    var t := Apply(setup, s, step);
    forall r, e | r in t.open && e in t.open[r].rows
      ensures ClaimedBy(steps + [step], r, e)
    {
      ClaimedLater(steps, step, r, e);
    }
    forall e | e in t.rows && t.rows[e].Some?
      ensures PublishedAt(steps + [step], e, t.rows[e].value)
    {
      PublishedLater(steps, step, e, t.rows[e].value);
    }
    forall e | e in t.committed && e !in t.rows
      ensures Aged(setup, steps + [step], e)
    {
      AgedLater(setup, steps, step, e);
      if e in s.rows {
        PruneIsAged(setup, steps, step.now, e, s.rows[e].value);
      }
    }
  }

  lemma {:induction false} EveryRunKeeps(setup: Setup, before: seq<Step>, s: Store, steps: seq<Step>)
    requires Kept(setup, before, s) && Possible(setup, s, steps)
    ensures Kept(setup, before + steps, Run(setup, s, steps))
    decreases |steps|
  {
    if steps == [] {
      assert before + [] == before;
    } else {
      StepKeeps(setup, before, s, steps[0]);
      EveryRunKeeps(setup, before + [steps[0]], Apply(setup, s, steps[0]), steps[1..]);
      assert before + [steps[0]] + steps[1..] == before + steps;
    }
  }

  /**
    An event's row is kept at least the retention time after the event was
    published: in any run from nothing, a row is gone only after a pruning that
    comes more than that after the publication of a batch the event was claimed in.
   */
  lemma KeptForRetention(setup: Setup, steps: seq<Step>, e: EventId)
    requires Possible(setup, EMPTY, steps) && e in Run(setup, EMPTY, steps).committed
    requires e !in Run(setup, EMPTY, steps).rows
    ensures exists k :: 0 <= k < |steps| && PrunedAt(setup, steps, k, e)
  {
    EveryRunKeeps(setup, [], EMPTY, steps);
    assert [] + steps == steps;
  }

  /** And pruning leaves nothing older than that. */
  lemma NothingOldIsLeft(setup: Setup, s: Store, now: int, e: EventId)
    ensures var rows := Apply(setup, s, Prune(now)).rows;
      && (e in rows && rows[e].Some? ==> rows[e].value + setup.retention >= now)
      && (e in s.rows && s.rows[e].None? ==> e in rows && rows[e].None?)
  {
  }
}
