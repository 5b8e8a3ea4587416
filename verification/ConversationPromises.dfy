/**
  What each conversation operation is for, said about rows and their histories:
  which conversation it is about, what is noted there, and what status, handling,
  team and snooze a history comes to.
 */
module ConversationPromises {
  import opened Wrappers
  import opened Conversations

  // What a history comes to ------------------------------------------------------------

  /** The status the events lead to. */
  function StatusOf(log: Log): Status
  {
    if log == [] then Resolved
    else
      var before := StatusOf(log[..|log| - 1]);
      match log[|log| - 1].event
      case OpenedByCustomer(_, _) | CustomerWrote(_) | CustomerCameBack(_) => Open
      case MarkedOpen | PutBack | WokenUp => Open
      case OpenedByAgent(_, _, autoPending) => if autoPending then Pending else Open
      case WeWrote(_, sender, _, autoPending) => if sender == Agent && autoPending && before == Open then Pending else before
      case MarkedResolved(_, _, _) | ResolvedByMerge(_) => Resolved
      case PutToSleep(_, _) => Snoozed
      case MarkedPending => Pending
      case Taken(_, _) | HandlingSet(_) | MovedTo(_) => before
  }

  /** A person takes over by being assigned or by opening; a resolution leaves nobody. */
  function HandlingOf(log: Log): Handling
  {
    if log == [] then HandledByNone
    else
      var before := HandlingOf(log[..|log| - 1]);
      match log[|log| - 1].event
      case OpenedByCustomer(_, handling) => handling
      case HandlingSet(handling) => handling
      case OpenedByAgent(_, _, _) => HandledByHuman
      case Taken(assignee, _) => if assignee.Some? then HandledByHuman else before
      case MarkedResolved(_, _, _) => HandledByNone
      case _ => before
  }

  /** The last team named. */
  function TeamOf(log: Log): Option<nat>
  {
    if log == [] then None
    else
      var last := log[|log| - 1].event;
      if last.Taken? && last.team.Some? then last.team else TeamOf(log[..|log| - 1])
  }

  datatype Nap = Nap(until: Option<Time>, setBy: Option<UserId>)

  /** Until when it sleeps and who said so: ended by waking, opening, resolving, or the customer writing during it. */
  function NapOf(log: Log): Nap
  {
    if log == [] then Nap(None, None)
    else
      var before := NapOf(log[..|log| - 1]);
      match log[|log| - 1].event
      case PutToSleep(until, user) => Nap(Some(until), user)
      case CustomerWrote(_) => if StatusOf(log[..|log| - 1]) == Snoozed then Nap(None, None) else before
      case MarkedOpen => Nap(None, None)
      case MarkedResolved(_, _, _) | PutBack | WokenUp => before.(until := None)
      case _ => before
  }

  /** The contact it was moved to last, if any. */
  function MovedToLast(log: Log): Option<ContactId>
  {
    if log == [] then None
    else if log[|log| - 1].event.MovedTo? then Some(log[|log| - 1].event.contact)
    else MovedToLast(log[..|log| - 1])
  }

  /** A row that shows what its history comes to; the statuses noted in the history are those it comes to as well. */
  ghost predicate Shown(c: Conversation, log: Log)
  {
    && log != []
    && c.status == StatusOf(log) && c.handling == HandlingOf(log) && c.team == TeamOf(log)
    && Nap(c.snoozedUntil, c.snoozedBy) == NapOf(log)
    && (MovedToLast(log).Some? ==> MovedToLast(log) == Some(c.contact))
    && forall k :: 0 <= k < |log| ==> log[k].status == StatusOf(log[..k + 1])
  }

  ghost predicate AllShown(s: State)
  {
    |s.rows| == |s.logs| && forall i :: 0 <= i < |s.rows| ==> Shown(s.rows[i], s.logs[i])
  }

  lemma {:induction false} TouchIsShown(c: Conversation, log: Log, e: Event)
    requires Shown(c, log) && !e.Opens()
    ensures Shown(Changed(c, e), log + [Entry(e, Changed(c, e).status)])
  {
    var more := log + [Entry(e, Changed(c, e).status)];
    assert more[..|log|] == log;
    forall k | 0 <= k < |more|
      ensures more[k].status == StatusOf(more[..k + 1])
    {
      if k < |log| {
        assert more[..k + 1] == log[..k + 1];
      } else {
        assert more[..k + 1] == more;
      }
    }
  }

  lemma {:induction false} BirthIsShown(contact: ContactId, e: Event)
    requires e.Opens()
    ensures Shown(Born(contact, e), [Entry(e, Born(contact, e).status)])
  {
    var log := [Entry(e, Born(contact, e).status)];
    assert log[..0] == [] && log[..1] == log;
  }

  lemma MoveIsShown(c: Conversation, log: Log, contact: ContactId)
    requires Shown(c, log) && c.status == Resolved
    ensures Shown(Changed(c, MovedTo(contact)), log + [Entry(MovedTo(contact), Resolved)])
  {
    TouchIsShown(c, log, MovedTo(contact));
  }

  lemma CloseIsShown(c: Conversation, log: Log, at: Time)
    requires Shown(c, log)
    ensures Shown(Changed(c, ResolvedByMerge(at)), log + [Entry(ResolvedByMerge(at), Resolved)])
  {
    TouchIsShown(c, log, ResolvedByMerge(at));
  }

  lemma {:induction false} FoldIsShown(c: Conversation, log: Log, primary: ContactId, secondary: ContactId, at: Time)
    requires Shown(c, log)
    ensures Shown(Folded(c, primary, secondary, at), FoldedLog(c, log, primary, secondary, at))
  {
    if c.contact == secondary {
      if c.Active() {
        CloseIsShown(c, log, at);
        MoveIsShown(Changed(c, ResolvedByMerge(at)), log + [Entry(ResolvedByMerge(at), Resolved)], primary);
      } else {
        MoveIsShown(c, log, primary);
      }
    }
  }

  lemma {:induction false} StepIsShown(s: State, op: Op)
    requires AllShown(s)
    ensures AllShown(Step(s, op))
  {
    DecideFits(s.rows, op);
    match Decide(s.rows, op)
    case Nothing =>
    case Begin(contact, event) => BirthIsShown(contact, event);
    case Touch(id, event) => TouchIsShown(s.rows[id], s.logs[id], event);
    case Fold(primary, secondary, at) =>
      forall i | 0 <= i < |s.rows|
        ensures Shown(Step(s, op).rows[i], Step(s, op).logs[i])
      {
        FoldIsShown(s.rows[i], s.logs[i], primary, secondary, at);
      }
  }

  /** In every run every row has the status, handling, team and snooze its history comes to. */
  lemma {:induction false} EveryRunIsShown(s: State, ops: seq<Op>)
    requires AllShown(s)
    ensures AllShown(Run(s, ops))
    decreases |ops|
  {
    if ops != [] {
      StepIsShown(s, ops[0]);
      EveryRunIsShown(Step(s, ops[0]), ops[1..]);
    }
  }

  // What each operation notes, and where ---------------------------------------------------

  predicate LiveFor(rows: seq<Conversation>, contact: ContactId, i: Id)
  {
    i < |rows| && rows[i].contact == contact && rows[i].status != Resolved
  }

  ghost predicate NoneLive(rows: seq<Conversation>, contact: ContactId)
  {
    forall i: Id :: !LiveFor(rows, contact, i)
  }

  /** Resolved later than the window before `at`; a window of zero or less is a day. */
  predicate ResolvedWithin(rows: seq<Conversation>, contact: ContactId, at: Time, window: int, i: Id)
  {
    && i < |rows| && rows[i].contact == contact && rows[i].status == Resolved && rows[i].resolvedAt.Some?
    && rows[i].resolvedAt.value > at - (if window > 0 then window else 86400)
  }

  /** The event is noted at row `i`, and nothing else happens. */
  ghost predicate Noted(s: State, t: State, i: Id, e: Event)
  {
    && |t.rows| == |s.rows| == |t.logs| == |s.logs| && i < |s.rows|
    && t.logs[i] == s.logs[i] + [Entry(e, t.rows[i].status)] && t.rows[i].contact == s.rows[i].contact
    && forall j :: 0 <= j < |s.rows| && j != i ==> t.rows[j] == s.rows[j] && t.logs[j] == s.logs[j]
  }

  /** One more conversation, of this contact, begun by the event. */
  ghost predicate Begun(s: State, t: State, contact: ContactId, e: Event)
  {
    && |t.rows| == |t.logs| == |s.rows| + 1 && |s.rows| == |s.logs|
    && t.rows[|s.rows|].contact == contact && t.logs[|s.rows|] == [Entry(e, t.rows[|s.rows|].status)]
    && t.rows[..|s.rows|] == s.rows && t.logs[..|s.rows|] == s.logs
  }

  /** Noted at the contact's live conversation if it has one, otherwise nothing. */
  ghost predicate NotedIfLive(s: State, t: State, contact: ContactId, e: Event)
  {
    (NoneLive(s.rows, contact) ==> t == s) && forall i: Id :: LiveFor(s.rows, contact, i) ==> Noted(s, t, i, e)
  }

  /** Marks are noted only when they change something. */
  ghost predicate Marked(s: State, t: State, contact: ContactId, status: Status, e: Event)
  {
    && (NoneLive(s.rows, contact) ==> t == s)
    && forall i: Id :: LiveFor(s.rows, contact, i) ==> if s.rows[i].status == status then t == s else Noted(s, t, i, e)
  }

  /** What every operation promises. */
  ghost predicate Promised(s: State, op: Op, t: State)
    requires |s.rows| == |s.logs|
  {
    match op
    case TouchInbound(contact, at, handling, window) =>
      && (forall i: Id :: LiveFor(s.rows, contact, i) ==> Noted(s, t, i, CustomerWrote(at)))
      && (NoneLive(s.rows, contact) ==> ReopensOrBegins(s, t, contact, at, handling, window))
    case RecordOutbound(contact, sender, user, at, autoPending) =>
      && (forall i: Id :: LiveFor(s.rows, contact, i) ==> Noted(s, t, i, WeWrote(at, sender, user, autoPending)))
      && (NoneLive(s.rows, contact) ==>
            if sender == Agent then Begun(s, t, contact, OpenedByAgent(at, user, autoPending)) else t == s)
    case Resolve(contact, reason, user, at) => NotedIfLive(s, t, contact, MarkedResolved(at, reason, user))
    case Snooze(contact, until, user) => NotedIfLive(s, t, contact, PutToSleep(until, user))
    case Assign(contact, assignee, team) => NotedIfLive(s, t, contact, Taken(assignee, team))
    case SetHandling(contact, handling) => NotedIfLive(s, t, contact, HandlingSet(handling))
    case SetPending(contact) => Marked(s, t, contact, Pending, MarkedPending)
    case SetOpen(contact) => Marked(s, t, contact, Open, MarkedOpen)
    case Reopen(id, seen) =>
      if id < |s.rows| && NoneLive(s.rows, seen) && forall i: Id :: LiveFor(s.rows, s.rows[id].contact, i) ==> i == id
      then Noted(s, t, id, PutBack) else t == s
    case Wake(id) => if id < |s.rows| && s.rows[id].status == Snoozed then Noted(s, t, id, WokenUp) else t == s
    case Merge(primary, secondary, at) =>
      if primary == secondary then t == s
      else |t.rows| == |t.logs| == |s.rows| && forall i :: 0 <= i < |s.rows| ==> MergedAway(s, t, primary, secondary, at, i)
  }

  /**
    An inbound message for a contact without a live conversation: the latest one
    resolved inside the window comes back, and if there is none one begins.
   */
  ghost predicate ReopensOrBegins(s: State, t: State, contact: ContactId, at: Time, handling: Handling, window: int)
  {
    && ((forall i: Id :: !ResolvedWithin(s.rows, contact, at, window, i)) ==>
          Begun(s, t, contact, OpenedByCustomer(at, handling)))
    && ((exists i: Id :: ResolvedWithin(s.rows, contact, at, window, i)) ==>
          exists i: Id :: IsLatest(s.rows, contact, at, window, i) && Noted(s, t, i, CustomerCameBack(at)))
  }

  ghost predicate IsLatest(rows: seq<Conversation>, contact: ContactId, at: Time, window: int, i: Id)
  {
    && ResolvedWithin(rows, contact, at, window, i)
    && forall j: Id :: ResolvedWithin(rows, contact, at, window, j) ==>
         rows[j].resolvedAt.value <= rows[i].resolvedAt.value
  }

  /** The secondary's conversations: the live one resolved, all of them moved; the others as they were. */
  ghost predicate MergedAway(s: State, t: State, primary: ContactId, secondary: ContactId, at: Time, i: Id)
    requires i < |s.rows| == |s.logs| && i < |t.rows| && i < |t.logs|
  {
    if s.rows[i].contact != secondary then t.rows[i] == s.rows[i] && t.logs[i] == s.logs[i]
    else
      && t.rows[i].contact == primary && t.rows[i].status == Resolved
      && t.logs[i] == s.logs[i]
                      + (if s.rows[i].status != Resolved then [Entry(ResolvedByMerge(at), Resolved)] else [])
                      + [Entry(MovedTo(primary), Resolved)]
  }

  lemma LiveIsActive(rows: seq<Conversation>, contact: ContactId)
    requires OneActive(rows)
    ensures NoneLive(rows, contact) <==> ActiveOf(rows, contact).None?
    ensures forall i: Id :: LiveFor(rows, contact, i) <==> ActiveOf(rows, contact) == Some(i)
  {
    forall i: Id | LiveFor(rows, contact, i)
      ensures ActiveOf(rows, contact) == Some(i)
    {
      ActiveIsUnique(rows, i);
    }
    if ActiveOf(rows, contact).Some? {
      assert LiveFor(rows, contact, ActiveOf(rows, contact).value);
    }
  }

  lemma LatestInWindow(s: State, contact: ContactId, at: Time, handling: Handling, window: int)
    requires |s.rows| == |s.logs| && OneActive(s.rows) && NoneLive(s.rows, contact)
    ensures ReopensOrBegins(s, Step(s, TouchInbound(contact, at, handling, window)), contact, at, handling, window)
  {
    LiveIsActive(s.rows, contact);
    var best := LatestResolved(s.rows, contact, Since(at, window), |s.rows|);
    forall i: Id
      ensures ResolvedWithin(s.rows, contact, at, window, i) <==>
              i < |s.rows| && RecentlyResolved(s.rows[i], contact, Since(at, window))
    {
    }
    if best.Some? {
      assert IsLatest(s.rows, contact, at, window, best.value);
      assert Noted(s, Step(s, TouchInbound(contact, at, handling, window)), best.value, CustomerCameBack(at));
    }
  }

  lemma MergeIsPromised(s: State, primary: ContactId, secondary: ContactId, at: Time)
    requires |s.rows| == |s.logs| && primary != secondary
    ensures Promised(s, Merge(primary, secondary, at), Step(s, Merge(primary, secondary, at)))
  {
    var t := Step(s, Merge(primary, secondary, at));
    forall i | 0 <= i < |s.rows|
      ensures MergedAway(s, t, primary, secondary, at, i)
    {
      assert s.logs[i] + [] == s.logs[i];
    }
  }

  lemma InboundIsPromised(s: State, contact: ContactId, at: Time, handling: Handling, window: int)
    requires |s.rows| == |s.logs| && OneActive(s.rows)
    ensures var op := TouchInbound(contact, at, handling, window); Promised(s, op, Step(s, op))
  {
    LiveIsActive(s.rows, contact);
    if NoneLive(s.rows, contact) {
      LatestInWindow(s, contact, at, handling, window);
    }
  }

  lemma OutboundIsPromised(s: State, contact: ContactId, sender: Sender, user: Option<UserId>, at: Time, autoPending: bool)
    requires |s.rows| == |s.logs| && OneActive(s.rows)
    ensures var op := RecordOutbound(contact, sender, user, at, autoPending); Promised(s, op, Step(s, op))
  {
    LiveIsActive(s.rows, contact);
  }

  lemma LiveIsNoted(s: State, t: State, contact: ContactId, e: Event)
    requires |s.rows| == |s.logs| && OneActive(s.rows) && !e.Opens() && !e.MovedTo?
    requires var effect := ToActive(s.rows, contact, e);
      t == State(Applied(s.rows, effect), Logged(s.rows, s.logs, effect))
    ensures NotedIfLive(s, t, contact, e)
  {
    LiveIsActive(s.rows, contact);
  }

  lemma MarkIsPromised(s: State, op: Op)
    requires |s.rows| == |s.logs| && OneActive(s.rows) && (op.SetPending? || op.SetOpen?)
    ensures Promised(s, op, Step(s, op))
  {
    LiveIsActive(s.rows, op.contact);
  }

  lemma ReopenIsPromised(s: State, id: Id, seen: ContactId)
    requires |s.rows| == |s.logs| && OneActive(s.rows)
    ensures Promised(s, Reopen(id, seen), Step(s, Reopen(id, seen)))
  {
    LiveIsActive(s.rows, seen);
    if id < |s.rows| {
      LiveIsActive(s.rows, s.rows[id].contact);
    }
  }

  lemma WakeIsPromised(s: State, id: Id)
    requires |s.rows| == |s.logs|
    ensures Promised(s, Wake(id), Step(s, Wake(id)))
  {
  }

  /** Every operation does what it is for, and nothing else. */
  lemma {:induction false} StepIsPromised(s: State, op: Op)
    requires |s.rows| == |s.logs| && OneActive(s.rows)
    ensures Promised(s, op, Step(s, op))
  {
    match op
    case TouchInbound(contact, at, handling, window) => InboundIsPromised(s, contact, at, handling, window);
    case RecordOutbound(contact, sender, user, at, autoPending) =>
      OutboundIsPromised(s, contact, sender, user, at, autoPending);
    case Resolve(contact, reason, user, at) => LiveIsNoted(s, Step(s, op), contact, MarkedResolved(at, reason, user));
    case Snooze(contact, until, user) => LiveIsNoted(s, Step(s, op), contact, PutToSleep(until, user));
    case Assign(contact, assignee, team) => LiveIsNoted(s, Step(s, op), contact, Taken(assignee, team));
    case SetHandling(contact, handling) => LiveIsNoted(s, Step(s, op), contact, HandlingSet(handling));
    case SetPending(_) => MarkIsPromised(s, op);
    case SetOpen(_) => MarkIsPromised(s, op);
    case Reopen(id, seen) => ReopenIsPromised(s, id, seen);
    case Wake(id) => WakeIsPromised(s, id);
    case Merge(primary, secondary, at) =>
      if primary != secondary {
        MergeIsPromised(s, primary, secondary, at);
      }
  }

  /**
    When an inbound message opens a new conversation, for all rows in which the
    contact has no live one: exactly when no conversation of the contact was
    resolved later than the window before it. Otherwise the latest such one is
    live afterwards, and there are as many conversations as before.
   */
  lemma InboundExactly(rows: seq<Conversation>, contact: ContactId, at: Time, handling: Handling, window: int)
    requires OneActive(rows) && NoneLive(rows, contact)
    ensures var after := Next(rows, TouchInbound(contact, at, handling, window));
      && (|after| == |rows| + 1 <==> forall i: Id :: !ResolvedWithin(rows, contact, at, window, i))
      && (|after| != |rows| + 1 ==>
            |after| == |rows| && exists i: Id :: IsLatest(rows, contact, at, window, i) && LiveFor(after, contact, i))
  {
    LiveIsActive(rows, contact);
    var best := LatestResolved(rows, contact, Since(at, window), |rows|);
    if best.Some? {
      assert IsLatest(rows, contact, at, window, best.value);
      assert LiveFor(Next(rows, TouchInbound(contact, at, handling, window)), contact, best.value);
    }
  }
}
