/**
  The conversation service: the operations as they run, each against the step it
  stands for.
 */
module ConversationService {
  import opened Wrappers
  import opened Conversations

  /** A live conversation in one of `statuses`, not snoozed, whose last message predates `cutoff`. */
  predicate Stale(c: Conversation, statuses: set<Status>, cutoff: Time)
  {
    c.status in statuses && c.snoozedUntil.None? &&
    (if c.lastMessageAt.Some? then c.lastMessageAt.value else c.openedAt) < cutoff
  }

  function ClosedByMerge(c: Conversation, secondary: ContactId, now: Time): Conversation
  {
    if c.contact == secondary && c.Active() then Changed(c, ResolvedByMerge(now)) else c
  }

  function Swept(c: Conversation, taken: bool, reason: string, now: Time): Conversation
  {
    if taken then Changed(c, MarkedResolved(now, reason, None)) else c
  }

  class Service {
    var rows: seq<Conversation>

    constructor ()
      ensures rows == []
    {
      rows := [];
    }

    /** The contact's live conversation. */
    method ActiveForUpdate(contact: ContactId) returns (live: Option<Id>)
      ensures live == ActiveOf(rows, contact)
    {
      var i := 0;
      while i < |rows|
        invariant i <= |rows|
        invariant ActiveOf(rows, contact) == ActiveFrom(rows, contact, i)
      {
        if rows[i].status != Resolved && rows[i].contact == contact {
          return Some(i);
        }
        i := i + 1;
      }
      return None;
    }

    /** Reopens the latest conversation resolved inside the window, if any. */
    method ReopenRecent(contact: ContactId, at: Time, window: int) returns (reopened: Option<Id>)
      modifies this
      ensures reopened == LatestResolved(old(rows), contact, Since(at, window), |old(rows)|)
      ensures rows == if reopened.None? then old(rows)
                      else old(rows)[reopened.value := Changed(old(rows)[reopened.value], CustomerCameBack(at))]
    {
      var effective := window;
      if effective <= 0 {
        effective := DEFAULT_REOPEN_WINDOW;
      }
      reopened := None;
      for i := 0 to |rows|
        invariant rows == old(rows)
        invariant reopened == LatestResolved(rows, contact, at - effective, i)
      {
        if rows[i].contact == contact && rows[i].status == Resolved
           && rows[i].resolvedAt.Some? && rows[i].resolvedAt.value > at - effective
           && (reopened.None? || rows[reopened.value].resolvedAt.value < rows[i].resolvedAt.value) {
          reopened := Some(i);
        }
      }
      if reopened.Some? {
        var recent := rows[reopened.value];
        rows := rows[reopened.value := recent.(
          status := Open,
          resolvedAt := None,
          resolvedBy := None,
          resolutionReason := "",
          reopenedCount := recent.reopenedCount + 1,
          lastCustomerMessageAt := Some(at),
          lastMessageAt := Some(at),
          waitingSince := Some(at),
          messageCount := recent.messageCount + 1)];
      }
    }

    /** A customer message: the contact ends up with exactly the conversation returned live. */
    method TouchInbound(contact: ContactId, at: Time, handling: Handling, window: int) returns (id: Id)
      modifies this
      ensures rows == Next(old(rows), Op.TouchInbound(contact, at, handling, window))
      ensures ActiveOf(rows, contact) == Some(id) && rows[id].status == Open
    {
      var existing := ActiveForUpdate(contact);
      if existing.Some? {
        id := existing.value;
        var c := rows[id];
        var updated := c.(status := Open, lastCustomerMessageAt := Some(at), lastMessageAt := Some(at),
                          messageCount := c.messageCount + 1);
        if c.waitingSince.None? {
          updated := updated.(waitingSince := Some(at));
        }
        if c.firstCustomerMessageAt.None? {
          updated := updated.(firstCustomerMessageAt := Some(at));
        }
        if c.status == Snoozed {
          updated := updated.(snoozedUntil := None, snoozedBy := None);
        }
        rows := rows[id := updated];
        FirstActive(rows, contact, id);
        return;
      }
      var reopened := ReopenRecent(contact, at, window);
      if reopened.Some? {
        FirstActive(rows, contact, reopened.value);
        return reopened.value;
      }
      id := |rows|;
      rows := rows + [Created(contact, at, handling)];
      FirstActive(rows, contact, id);
    }

    /** A message of ours. Only an agent's opens a conversation, ends the wait and counts as a response. */
    method RecordOutbound(contact: ContactId, sender: Sender, user: Option<UserId>, at: Time, autoPending: bool)
      returns (result: Option<Id>)
      modifies this
      ensures rows == Next(old(rows), Op.RecordOutbound(contact, sender, user, at, autoPending))
      ensures result.None? <==> ActiveOf(old(rows), contact).None? && sender != Agent
      ensures result.Some? ==> result == ActiveOf(rows, contact)
    {
      var existing := ActiveForUpdate(contact);
      if existing.None? {
        if sender != Agent {
          return None;
        }
        existing := Some(|rows|);
        rows := rows + [Created(contact, at, HandledByHuman)];
      }
      var id := existing.value;
      var c := rows[id];
      var updated := c.(lastMessageAt := Some(at), messageCount := c.messageCount + 1);
      if sender == Agent {
        updated := updated.(lastAgentMessageAt := Some(at), waitingSince := None);
        if c.firstResponseAt.None? {
          updated := updated.(firstResponseAt := Some(at), firstResponder := user);
        }
        if autoPending && c.status == Open {
          updated := updated.(status := Pending);
        }
      }
      rows := rows[id := updated];
      FirstActive(rows, contact, id);
      return Some(id);
    }

    method Resolve(contact: ContactId, reason: string, user: Option<UserId>, now: Time) returns (result: Option<Id>)
      modifies this
      ensures rows == Next(old(rows), Op.Resolve(contact, reason, user, now))
      ensures result == ActiveOf(old(rows), contact)
    {
      result := ActiveForUpdate(contact);
      if result.Some? {
        var c := rows[result.value];
        var updated := c.(status := Resolved, resolvedAt := Some(now), resolutionReason := reason,
                          waitingSince := None, snoozedUntil := None, handling := HandledByNone);
        if user.Some? {
          updated := updated.(resolvedBy := user);
        }
        rows := rows[result.value := updated];
      }
    }

    method Snooze(contact: ContactId, until: Time, user: Option<UserId>) returns (result: Option<Id>)
      modifies this
      ensures rows == Next(old(rows), Op.Snooze(contact, until, user))
      ensures result == ActiveOf(old(rows), contact)
    {
      result := ActiveForUpdate(contact);
      if result.Some? {
        rows := rows[result.value :=
          rows[result.value].(status := Snoozed, snoozedUntil := Some(until), snoozedBy := user)];
      }
    }

    method Assign(contact: ContactId, assignee: Option<UserId>, team: Option<nat>) returns (result: Option<Id>)
      modifies this
      ensures rows == Next(old(rows), Op.Assign(contact, assignee, team))
      ensures result == ActiveOf(old(rows), contact)
    {
      result := ActiveForUpdate(contact);
      if result.Some? {
        var updated := rows[result.value].(assignee := assignee);
        if team.Some? {
          updated := updated.(team := team);
        }
        if assignee.Some? {
          updated := updated.(handling := HandledByHuman);
        }
        rows := rows[result.value := updated];
      }
    }

    /** One unlocked update over the contact's live rows; there is at most one. */
    method SetHandling(contact: ContactId, handling: Handling)
      requires OneActive(rows)
      modifies this
      ensures rows == Next(old(rows), Op.SetHandling(contact, handling))
    {
      ghost var live := ActiveOf(rows, contact);
      for i := 0 to |rows|
        invariant rows == if live.Some? && live.value < i
                          then old(rows)[live.value := Changed(old(rows)[live.value], HandlingSet(handling))]
                          else old(rows)
      {
        if rows[i].contact == contact && rows[i].status != Resolved {
          ActiveIsUnique(old(rows), i);
          rows := rows[i := rows[i].(handling := handling)];
        }
      }
    }

    /** The wake-up job claims one snoozed conversation by its status. */
    method Wake(id: Id) returns (woken: bool)
      requires id < |rows|
      modifies this
      ensures rows == Next(old(rows), Op.Wake(id))
      ensures woken <==> old(rows)[id].status == Snoozed
    {
      woken := rows[id].status == Snoozed;
      if woken {
        rows := rows[id := rows[id].(status := Open, snoozedUntil := None)];
      }
    }

    method SetStatus(contact: ContactId, status: Status) returns (result: Option<Id>)
      requires status == Pending || status == Open
      modifies this
      ensures rows == Next(old(rows), if status == Pending then Op.SetPending(contact) else Op.SetOpen(contact))
      ensures result == ActiveOf(old(rows), contact)
    {
      result := ActiveForUpdate(contact);
      if result.None? || rows[result.value].status == status {
        return;
      }
      var updated := rows[result.value].(status := status);
      if status == Pending {
        updated := updated.(waitingSince := None);
      } else {
        updated := updated.(snoozedUntil := None, snoozedBy := None);
      }
      rows := rows[result.value := updated];
    }

    /** Puts a resolved conversation back, unless the contact seen before the lock has a live one, which is returned. */
    method Reopen(id: Id, seen: ContactId) returns (result: Option<Id>)
      modifies this
      ensures rows == Next(old(rows), Op.Reopen(id, seen))
      ensures result.Some? ==> result.value < |rows| && rows[result.value].Active()
    {
      if id >= |rows| {
        return None;
      }
      var existing := ActiveForUpdate(seen);
      if existing.Some? {
        return existing;
      }
      // The unique index: no second live row for the contact the row names now.
      var other := ActiveForUpdate(rows[id].contact);
      if other.Some? && other.value != id {
        return None;
      }
      var c := rows[id];
      rows := rows[id := c.(status := Open, resolvedAt := None, resolvedBy := None, resolutionReason := "",
                            snoozedUntil := None)];
      rows := rows[id := rows[id].(reopenedCount := c.reopenedCount + 1)];
      return Some(id);
    }

    /** Resolves the secondary's live conversation, then moves its rows to the primary. */
    method Merge(primary: ContactId, secondary: ContactId, now: Time)
      requires primary != secondary
      modifies this
      ensures rows == Next(old(rows), Op.Merge(primary, secondary, now))
    {
      for i := 0 to |rows|
        invariant |rows| == |old(rows)|
        invariant forall k :: i <= k < |rows| ==> rows[k] == old(rows)[k]
        invariant forall k :: 0 <= k < i ==> rows[k] == ClosedByMerge(old(rows)[k], secondary, now)
      {
        if rows[i].contact == secondary && rows[i].status != Resolved {
          rows := rows[i := rows[i].(status := Resolved, resolvedAt := Some(now), resolutionReason := "merged")];
        }
      }
      ghost var closed := rows;
      for i := 0 to |rows|
        invariant |rows| == |closed|
        invariant forall k :: i <= k < |rows| ==> rows[k] == closed[k]
        invariant forall k :: 0 <= k < i ==> rows[k] == Folded(old(rows)[k], primary, secondary, now)
      {
        if rows[i].contact == secondary {
          rows := rows[i := rows[i].(contact := primary)];
        }
      }
      assert rows == Applied(old(rows), Fold(primary, secondary, now));
    }

    /** At most a batch of the stale conversations: all of them unless the batch is full. */
    method FindStale(statuses: set<Status>, cutoff: Time) returns (batch: seq<Id>)
      ensures |batch| <= SWEEP_BATCH
      ensures forall k :: 0 <= k < |batch| ==> batch[k] < |rows| && Stale(rows[batch[k]], statuses, cutoff)
      ensures forall j, k :: 0 <= j < k < |batch| ==> batch[j] < batch[k]
      ensures |batch| < SWEEP_BATCH ==> forall i :: 0 <= i < |rows| && Stale(rows[i], statuses, cutoff) ==> i in batch
    {
      batch := [];
      var i := 0;
      while i < |rows| && |batch| < SWEEP_BATCH
        invariant i <= |rows| && |batch| <= SWEEP_BATCH
        invariant forall k :: 0 <= k < |batch| ==> batch[k] < i && Stale(rows[batch[k]], statuses, cutoff)
        invariant forall j, k :: 0 <= j < k < |batch| ==> batch[j] < batch[k]
        invariant forall k :: 0 <= k < i && Stale(rows[k], statuses, cutoff) ==> k in batch
      {
        var last := if rows[i].lastMessageAt.Some? then rows[i].lastMessageAt.value else rows[i].openedAt;
        if rows[i].status in statuses && rows[i].snoozedUntil.None? && last < cutoff {
          batch := batch + [i];
        }
        i := i + 1;
      }
    }

    /**
      One sweep: every conversation it takes is stale and is resolved, nothing
      else changes, and unless the batch was full nothing stale is left.
     */
    method ResolveStale(statuses: set<Status>, cutoff: Time, reason: string, now: Time)
      returns (closed: nat, batch: seq<Id>)
      requires OneActive(rows) && statuses <= {Open, Pending}
      modifies this
      ensures |rows| == |old(rows)| && OneActive(rows)
      ensures closed == |batch| <= SWEEP_BATCH
      ensures forall j, k :: 0 <= j < k < |batch| ==> batch[j] < batch[k]
      ensures forall i :: i in batch ==> i < |rows| && Stale(old(rows)[i], statuses, cutoff)
      ensures forall i :: 0 <= i < |rows| ==>
        rows[i] == Swept(old(rows)[i], i in batch, reason, now)
      ensures closed < SWEEP_BATCH ==> forall i :: 0 <= i < |rows| ==> !Stale(rows[i], statuses, cutoff)
    {
      batch := FindStale(statuses, cutoff);
      closed := 0;
      for n := 0 to |batch|
        invariant |rows| == |old(rows)| && OneActive(rows)
        invariant closed == n
        invariant forall k :: 0 <= k < |rows| ==> rows[k] == Swept(old(rows)[k], k in batch[..n], reason, now)
      {
        var id := batch[n];
        assert id !in batch[..n];
        assert batch[..n + 1] == batch[..n] + [id];
        ResolveChangesOneRow(rows, id, reason, now);
        var row := Resolve(rows[id].contact, reason, None, now);
        if row.Some? {
          closed := closed + 1;
        }
      }
      assert batch[..|batch|] == batch;
    }
  }

  lemma FirstActive(rows: seq<Conversation>, contact: ContactId, id: Id)
    requires id < |rows| && rows[id].Active() && rows[id].contact == contact
    requires forall i :: 0 <= i < id ==> !(rows[i].Active() && rows[i].contact == contact)
    ensures ActiveOf(rows, contact) == Some(id)
  {
  }

  lemma ResolveChangesOneRow(rows: seq<Conversation>, id: Id, reason: string, now: Time)
    requires OneActive(rows) && id < |rows| && rows[id].Active()
    ensures Next(rows, Op.Resolve(rows[id].contact, reason, None, now)) ==
            rows[id := Changed(rows[id], MarkedResolved(now, reason, None))]
    ensures OneActive(Next(rows, Op.Resolve(rows[id].contact, reason, None, now)))
    ensures ActiveOf(rows, rows[id].contact) == Some(id)
  {
    ActiveIsUnique(rows, id);
    StepKeepsOneActive(rows, Op.Resolve(rows[id].contact, reason, None, now));
  }

  // A sweep that is not alone -------------------------------------------------------------

  /** Whatever was closed had gone stale. */
  predicate ClosesOnlyStale(before: seq<Conversation>, after: seq<Conversation>, statuses: set<Status>, cutoff: Time)
  {
    forall i :: 0 <= i < |before| && i < |after| && before[i].Active() && !after[i].Active() ==>
      Stale(before[i], statuses, cutoff)
  }

  /** The contact's live conversation, if there is one by now, is a stale one. */
  predicate StillStale(rows: seq<Conversation>, contact: ContactId, statuses: set<Status>, cutoff: Time)
  {
    var live := ActiveOf(rows, contact);
    live.Some? ==> Stale(rows[live.value], statuses, cutoff)
  }

  lemma ClosesWhatIsLive(rows: seq<Conversation>, contact: ContactId, reason: string, now: Time, statuses: set<Status>,
    cutoff: Time)
    requires OneActive(rows)
    ensures ClosesOnlyStale(rows, Next(rows, Op.Resolve(contact, reason, None, now)), statuses, cutoff) <==>
            StillStale(rows, contact, statuses, cutoff)
  {
    var after := Next(rows, Op.Resolve(contact, reason, None, now));
    var live := ActiveOf(rows, contact);
    if live.Some? {
      var id := live.value;
      ResolveChangesOneRow(rows, id, reason, now);
      assert rows[id].Active() && !after[id].Active();
    } else {
      assert after == rows;
    }
  }

  /** Nobody has written from `cutoff` on: no message, or the last one is older. */
  predicate QuietSince(log: Log, cutoff: Time)
  {
    var last := LastSpoken(log, Anyone);
    last.Some? ==> last.value < cutoff
  }

  predicate NoSleep(log: Log)
  {
    forall k :: 0 <= k < |log| ==> !log[k].event.PutToSleep?
  }

  /** What may become of a row: its log goes on, and it stays awake unless it is put to sleep. */
  predicate GoesOn(c: Conversation, log: Log, later: Conversation, laterLog: Log)
  {
    log <= laterLog && (c.snoozedUntil.None? && NoSleep(laterLog[|log|..]) ==> later.snoozedUntil.None?)
  }

  lemma TouchGoesOn(c: Conversation, log: Log, e: Event, x: Entry)
    requires !e.Opens() && x.event == e
    ensures GoesOn(c, log, Changed(c, e), log + [x])
  {
    assert (log + [x])[|log|..] == [x];
    assert NoSleep([x]) ==> !([x][0].event.PutToSleep?);
  }

  lemma GoesOnTwice(a: Conversation, x: Log, b: Conversation, y: Log, c: Conversation, z: Log)
    requires GoesOn(a, x, b, y) && GoesOn(b, y, c, z)
    ensures GoesOn(a, x, c, z)
  {
    assert z[|x|..] == y[|x|..] + z[|y|..];
    assert NoSleep(z[|x|..]) ==> NoSleep(y[|x|..]) && NoSleep(z[|y|..]) by {
      if NoSleep(z[|x|..]) {
        assert forall k :: 0 <= k < |y[|x|..]| ==> y[|x|..][k] == z[|x|..][k];
        assert forall k :: 0 <= k < |z[|y|..]| ==> z[|y|..][k] == z[|x|..][|y| - |x| + k];
      }
    }
  }

  lemma {:induction false} StepGoesOn(s: State, op: Op, i: Id)
    requires |s.rows| == |s.logs| && i < |s.rows|
    ensures i < |Step(s, op).rows| && GoesOn(s.rows[i], s.logs[i], Step(s, op).rows[i], Step(s, op).logs[i])
  {
    DecideFits(s.rows, op);
    var effect := Decide(s.rows, op);
    var c, log := s.rows[i], s.logs[i];
    assert log[|log|..] == [];
    if effect.Touch? && effect.id == i {
      TouchGoesOn(c, log, effect.event, Entry(effect.event, Changed(c, effect.event).status));
    } else if effect.Fold? && c.contact == effect.secondary {
      var moved := MovedTo(effect.primary);
      if c.Active() {
        var ended := ResolvedByMerge(effect.at);
        TouchGoesOn(c, log, ended, Entry(ended, Resolved));
        TouchGoesOn(Changed(c, ended), log + [Entry(ended, Resolved)], moved, Entry(moved, Resolved));
        GoesOnTwice(c, log, Changed(c, ended), log + [Entry(ended, Resolved)], Step(s, op).rows[i], Step(s, op).logs[i]);
      } else {
        TouchGoesOn(c, log, moved, Entry(moved, Resolved));
      }
    }
  }

  lemma {:induction false} RunGoesOn(s: State, ops: seq<Op>, i: Id)
    requires |s.rows| == |s.logs| && i < |s.rows|
    ensures i < |Run(s, ops).rows| && GoesOn(s.rows[i], s.logs[i], Run(s, ops).rows[i], Run(s, ops).logs[i])
    decreases |ops|
  {
    if ops == [] {
      assert s.logs[i][|s.logs[i]|..] == [];
    } else {
      var next := Step(s, ops[0]);
      StepGoesOn(s, ops[0], i);
      RunGoesOn(next, ops[1..], i);
      GoesOnTwice(s.rows[i], s.logs[i], next.rows[i], next.logs[i], Run(s, ops).rows[i], Run(s, ops).logs[i]);
    }
  }

  lemma {:induction false} SpokenSince(log: Log, since: Log, who: Party)
    ensures LastSpoken(log + since, who) ==
            if LastSpoken(since, who).Some? then LastSpoken(since, who) else LastSpoken(log, who)
    decreases |since|
  {
    if since == [] {
      assert log + since == log;
    } else {
      SpokenSince(log, since[..|since| - 1], who);
      assert (log + since)[..|log + since| - 1] == log + since[..|since| - 1];
    }
  }

  lemma {:induction false} SomeoneSpoke(log: Log)
    requires log != [] && log[0].event.Opens()
    ensures LastSpoken(log, Anyone).Some?
    decreases |log|
  {
    if |log| > 1 && !Spoke(log[|log| - 1].event, Anyone) {
      SomeoneSpoke(log[..|log| - 1]);
    }
  }

  /** A sound row is stale exactly when its history has gone quiet and it is live, awake and of a status swept. */
  lemma StaleIsQuiet(c: Conversation, log: Log, statuses: set<Status>, cutoff: Time)
    requires Faithful(c, log)
    ensures Stale(c, statuses, cutoff) <==> c.status in statuses && c.snoozedUntil.None? && QuietSince(log, cutoff)
  {
    SomeoneSpoke(log);
  }

  /**
    The sweep lists conversations first and resolves each by its contact later.
    Whatever operations run in between, the resolution closes only what is stale
    exactly when the conversation that is live by then has had no message since
    the cutoff, in its whole history, and is awake and of a status swept.
   */
  lemma {:induction false} LateResolution(s: State, ops: seq<Op>, contact: ContactId, reason: string, now: Time,
    statuses: set<Status>, cutoff: Time)
    requires Sound(s)
    ensures var t := Run(s, ops);
      ClosesOnlyStale(t.rows, Next(t.rows, Op.Resolve(contact, reason, None, now)), statuses, cutoff) <==>
      forall i :: 0 <= i < |t.rows| && t.rows[i].Active() && t.rows[i].contact == contact ==>
        t.rows[i].status in statuses && t.rows[i].snoozedUntil.None? && QuietSince(t.logs[i], cutoff)
  {
    var t := Run(s, ops);
    EveryRunIsSound(s, ops);
    ClosesWhatIsLive(t.rows, contact, reason, now, statuses, cutoff);
    forall i | 0 <= i < |t.rows| && t.rows[i].Active() && t.rows[i].contact == contact
      ensures ActiveOf(t.rows, contact) == Some(i)
      ensures Stale(t.rows[i], statuses, cutoff) <==>
              t.rows[i].status in statuses && t.rows[i].snoozedUntil.None? && QuietSince(t.logs[i], cutoff)
    {
      ActiveIsUnique(t.rows, i);
      StaleIsQuiet(t.rows[i], t.logs[i], statuses, cutoff);
    }
  }

  /**
    A conversation listed as stale that is the contact's live one at its turn and
    has not been put to sleep meanwhile: closing it is right exactly when it still
    has a status swept and nobody has written from the cutoff on since it was
    listed.
   */
  lemma {:induction false} ListedAndWritten(s: State, ops: seq<Op>, id: Id, reason: string, now: Time,
    statuses: set<Status>, cutoff: Time)
    requires Sound(s) && id < |s.rows| && Stale(s.rows[id], statuses, cutoff)
    requires id < |Run(s, ops).rows| && Run(s, ops).rows[id].Active()
    ensures s.logs[id] <= Run(s, ops).logs[id]
    ensures var t := Run(s, ops);
      var since := t.logs[id][|s.logs[id]|..];
      var after := Next(t.rows, Op.Resolve(t.rows[id].contact, reason, None, now));
      NoSleep(since) ==>
        (ClosesOnlyStale(t.rows, after, statuses, cutoff) <==> t.rows[id].status in statuses && QuietSince(since, cutoff))
  {
    var t := Run(s, ops);
    RunGoesOn(s, ops, id);
    EveryRunIsSound(s, ops);
    var log, since := s.logs[id], t.logs[id][|s.logs[id]|..];
    assert t.logs[id] == log + since;
    SpokenSince(log, since, Anyone);
    StaleIsQuiet(s.rows[id], log, statuses, cutoff);
    StaleIsQuiet(t.rows[id], t.logs[id], statuses, cutoff);
    ClosesWhatIsLive(t.rows, t.rows[id].contact, reason, now, statuses, cutoff);
    ActiveIsUnique(t.rows, id);
  }

  /** So a conversation listed as stale, in which the customer writes before its turn, is closed on a message nobody answered. */
  lemma SweepClosesAFreshConversation(at: Time, cutoff: Time, now: Time, reason: string)
    requires at < cutoff <= now
    ensures var listed := [Created(1, at, HandledByNone)];
      var written := Next(listed, Op.TouchInbound(1, now, HandledByNone, 0));
      var closed := Next(written, Op.Resolve(1, reason, None, now));
      && Stale(listed[0], {Open}, cutoff) && |written| == 1 && !Stale(written[0], {Open}, cutoff)
      && |closed| == 1 && closed[0].status == Resolved && closed[0].lastCustomerMessageAt == Some(now)
      && closed[0].lastAgentMessageAt.None? && closed[0].waitingSince.None?
  {
    var begun := Created(1, at, HandledByNone);
    OnlyRow(begun, 1, Since(now, 0));
    var written := Changed(begun, CustomerWrote(now));
    assert Next([begun], Op.TouchInbound(1, now, HandledByNone, 0)) == [written];
    OnlyRow(written, 1, 0);
    assert Next([written], Op.Resolve(1, reason, None, now)) == [Changed(written, MarkedResolved(now, reason, None))];
  }
}
