/**
  Conversations: the spells of contact with one customer.

  Every operation runs in one transaction under the contact's lock, so it is one
  step here. `Decide` says which rows an operation changes and what happens to
  them, `Changed` what that event does to a row. Beside each row the model keeps
  the log of its events; no operation reads the log, it is what the row's columns
  are compared with.
 */
module Conversations {
  import opened Wrappers

  type Id = nat
  type ContactId = nat
  type UserId = nat
  type Time = int

  datatype Status = Open | Pending | Snoozed | Resolved

  datatype Handling = HandledByBot | HandledByHuman | HandoffPending | HandledByNone

  datatype Sender = Customer | Agent | Bot | Automation | Campaign | System | Api | Echo

  /** The default reopen window, in seconds. */
  const DEFAULT_REOPEN_WINDOW := 24 * 60 * 60

  /** How many stale conversations one sweep takes. */
  const SWEEP_BATCH := 200

  datatype Conversation = Conversation(
    contact: ContactId,
    status: Status,
    assignee: Option<UserId>,
    team: Option<nat>,
    handling: Handling,
    snoozedUntil: Option<Time>,
    snoozedBy: Option<UserId>,
    openedAt: Time,
    firstCustomerMessageAt: Option<Time>,
    firstResponseAt: Option<Time>,
    firstResponder: Option<UserId>,
    lastCustomerMessageAt: Option<Time>,
    lastAgentMessageAt: Option<Time>,
    lastMessageAt: Option<Time>,
    waitingSince: Option<Time>,
    resolvedAt: Option<Time>,
    resolvedBy: Option<UserId>,
    resolutionReason: string,
    reopenedCount: nat,
    messageCount: nat)
  {
    predicate Active()
    {
      status != Resolved
    }
  }

  /** What can happen to one conversation. The first two open it. */
  datatype Event =
    | OpenedByCustomer(at: Time, handling: Handling)
    | OpenedByAgent(at: Time, user: Option<UserId>, autoPending: bool)
    | CustomerWrote(at: Time)
    | CustomerCameBack(at: Time)
    | WeWrote(at: Time, sender: Sender, user: Option<UserId>, autoPending: bool)
    | MarkedResolved(at: Time, reason: string, user: Option<UserId>)
    | PutToSleep(until: Time, user: Option<UserId>)
    | Taken(assignee: Option<UserId>, team: Option<nat>)
    | HandlingSet(handling: Handling)
    | MarkedPending
    | MarkedOpen
    | PutBack
    | WokenUp
    | ResolvedByMerge(at: Time)
    | MovedTo(contact: ContactId)
  {
    predicate Opens()
    {
      OpenedByCustomer? || OpenedByAgent?
    }

    /** Events only a resolved conversation goes through. */
    predicate AfterTheEnd()
    {
      CustomerCameBack? || PutBack? || MovedTo?
    }

    predicate AgentReply()
    {
      OpenedByAgent? || (WeWrote? && sender == Agent)
    }

    predicate CustomerMessage()
    {
      OpenedByCustomer? || CustomerWrote? || CustomerCameBack?
    }

    predicate Message()
    {
      CustomerMessage() || OpenedByAgent? || WeWrote?
    }
  }

  /** The row `create` writes: a customer's timestamps, whoever begun it. */
  function Created(contact: ContactId, at: Time, handling: Handling): Conversation
  {
    Conversation(contact, Open, None, None, handling, None, None, at, Some(at), None, None, Some(at), None, Some(at),
                 Some(at), None, None, "", 0, 1)
  }

  /** The row an opening event leaves behind. */
  function Born(contact: ContactId, e: Event): Conversation
    requires e.Opens()
  {
    match e
    case OpenedByCustomer(at, handling) => Created(contact, at, handling)
    case OpenedByAgent(at, user, autoPending) =>
      Changed(Created(contact, at, HandledByHuman), WeWrote(at, Agent, user, autoPending))
  }

  /** What a later event does to the row. */
  function Changed(c: Conversation, e: Event): Conversation
    requires !e.Opens()
  {
    match e
    case CustomerWrote(at) =>
      c.(status := Open,
         lastCustomerMessageAt := Some(at),
         lastMessageAt := Some(at),
         messageCount := c.messageCount + 1,
         waitingSince := if c.waitingSince.None? then Some(at) else c.waitingSince,
         firstCustomerMessageAt := if c.firstCustomerMessageAt.None? then Some(at) else c.firstCustomerMessageAt,
         snoozedUntil := if c.status == Snoozed then None else c.snoozedUntil,
         snoozedBy := if c.status == Snoozed then None else c.snoozedBy)
    case CustomerCameBack(at) =>
      c.(status := Open, resolvedAt := None, resolvedBy := None, resolutionReason := "",
         reopenedCount := c.reopenedCount + 1, lastCustomerMessageAt := Some(at), lastMessageAt := Some(at),
         waitingSince := Some(at), messageCount := c.messageCount + 1)
    case WeWrote(at, sender, user, autoPending) =>
      var sent := c.(lastMessageAt := Some(at), messageCount := c.messageCount + 1);
      if sender != Agent then
        sent
      else
        sent.(lastAgentMessageAt := Some(at),
              waitingSince := None,
              firstResponseAt := if c.firstResponseAt.None? then Some(at) else c.firstResponseAt,
              firstResponder := if c.firstResponseAt.None? then user else c.firstResponder,
              status := if autoPending && c.status == Open then Pending else c.status)
    case MarkedResolved(at, reason, user) =>
      c.(status := Resolved, resolvedAt := Some(at), resolutionReason := reason, waitingSince := None,
         snoozedUntil := None, handling := HandledByNone, resolvedBy := if user.Some? then user else c.resolvedBy)
    case PutToSleep(until, user) => c.(status := Snoozed, snoozedUntil := Some(until), snoozedBy := user)
    case Taken(assignee, team) =>
      c.(assignee := assignee, team := if team.Some? then team else c.team,
         handling := if assignee.Some? then HandledByHuman else c.handling)
    case HandlingSet(handling) => c.(handling := handling)
    case MarkedPending => c.(status := Pending, waitingSince := None)
    case MarkedOpen => c.(status := Open, snoozedUntil := None, snoozedBy := None)
    case PutBack =>
      c.(status := Open, resolvedAt := None, resolvedBy := None, resolutionReason := "", snoozedUntil := None,
         reopenedCount := c.reopenedCount + 1)
    case WokenUp => c.(status := Open, snoozedUntil := None)
    case ResolvedByMerge(at) => c.(status := Resolved, resolvedAt := Some(at), resolutionReason := "merged")
    case MovedTo(contact) => c.(contact := contact)
  }

  datatype Op =
    | TouchInbound(contact: ContactId, at: Time, handling: Handling, window: int)
    | RecordOutbound(contact: ContactId, sender: Sender, user: Option<UserId>, at: Time, autoPending: bool)
    | Resolve(contact: ContactId, reason: string, user: Option<UserId>, at: Time)
    | Snooze(contact: ContactId, until: Time, user: Option<UserId>)
    | Assign(contact: ContactId, assignee: Option<UserId>, team: Option<nat>)
    | SetHandling(contact: ContactId, handling: Handling)
    | SetPending(contact: ContactId)
    | SetOpen(contact: ContactId)
    | Reopen(id: Id, seen: ContactId)             // `seen`: the contact the row named when it was read, before the lock
    | Wake(id: Id)
    | Merge(primary: ContactId, secondary: ContactId, at: Time)

  /** Which rows change, and how. */
  datatype Effect =
    | Nothing
    | Begin(contact: ContactId, event: Event)
    | Touch(id: Id, event: Event)
    | Fold(primary: ContactId, secondary: ContactId, at: Time)

  /** The contact's first live conversation from row `from` on. */
  function ActiveFrom(rows: seq<Conversation>, contact: ContactId, from: nat): (id: Option<Id>)
    requires from <= |rows|
    ensures id.Some? ==> from <= id.value < |rows| && rows[id.value].Active() && rows[id.value].contact == contact
    ensures id.Some? ==> (
      forall i :: from <= i < id.value ==> !(rows[i].Active() && rows[i].contact == contact))
    ensures id.None? ==> forall i :: from <= i < |rows| ==> !(rows[i].Active() && rows[i].contact == contact)
    decreases |rows| - from
  {
    if from == |rows| then None
    else if rows[from].Active() && rows[from].contact == contact then Some(from)
    else ActiveFrom(rows, contact, from + 1)
  }

  function ActiveOf(rows: seq<Conversation>, contact: ContactId): Option<Id>
  {
    ActiveFrom(rows, contact, 0)
  }

  predicate RecentlyResolved(c: Conversation, contact: ContactId, since: Time)
  {
    c.contact == contact && c.status == Resolved && c.resolvedAt.Some? && c.resolvedAt.value > since
  }

  /** Among the first `n` rows, the contact's latest resolution after `since`. */
  function LatestResolved(rows: seq<Conversation>, contact: ContactId, since: Time, n: nat): (id: Option<Id>)
    requires n <= |rows|
    ensures id.Some? ==> id.value < n && RecentlyResolved(rows[id.value], contact, since)
    ensures id.Some? ==> (
      forall i :: 0 <= i < n && RecentlyResolved(rows[i], contact, since) ==>
        rows[i].resolvedAt.value <= rows[id.value].resolvedAt.value)
    ensures id.None? ==> forall i :: 0 <= i < n ==> !RecentlyResolved(rows[i], contact, since)
  {
    if n == 0 then None
    else
      var best := LatestResolved(rows, contact, since, n - 1);
      if RecentlyResolved(rows[n - 1], contact, since)
         && (best.None? || rows[best.value].resolvedAt.value < rows[n - 1].resolvedAt.value)
      then Some(n - 1) else best
  }

  function Since(at: Time, window: int): Time
  {
    at - if window <= 0 then DEFAULT_REOPEN_WINDOW else window
  }

  function Decide(rows: seq<Conversation>, op: Op): Effect
  {
    match op
    case TouchInbound(contact, at, handling, window) =>
      var live := ActiveOf(rows, contact);
      var recent := LatestResolved(rows, contact, Since(at, window), |rows|);
      if live.Some? then Touch(live.value, CustomerWrote(at))
      else if recent.Some? then Touch(recent.value, CustomerCameBack(at))
      else Begin(contact, OpenedByCustomer(at, handling))
    case RecordOutbound(contact, sender, user, at, autoPending) =>
      var live := ActiveOf(rows, contact);
      if live.Some? then Touch(live.value, WeWrote(at, sender, user, autoPending))
      else if sender == Agent then Begin(contact, OpenedByAgent(at, user, autoPending))
      else Nothing
    case Resolve(contact, reason, user, at) => ToActive(rows, contact, MarkedResolved(at, reason, user))
    case Snooze(contact, until, user) => ToActive(rows, contact, PutToSleep(until, user))
    case Assign(contact, assignee, team) => ToActive(rows, contact, Taken(assignee, team))
    case SetHandling(contact, handling) => ToActive(rows, contact, HandlingSet(handling))
    case SetPending(contact) =>
      var live := ActiveOf(rows, contact);
      if live.Some? && rows[live.value].status != Pending then Touch(live.value, MarkedPending) else Nothing
    case SetOpen(contact) =>
      var live := ActiveOf(rows, contact);
      if live.Some? && rows[live.value].status != Open then Touch(live.value, MarkedOpen) else Nothing
    case Reopen(id, seen) =>
      // The row is read before its contact is locked; a second live row for its contact is refused by the unique index.
      if id < |rows| && ActiveOf(rows, seen).None? && ActiveOf(rows, rows[id].contact) in {None, Some(id)}
      then Touch(id, PutBack) else Nothing
    case Wake(id) =>
      if id < |rows| && rows[id].status == Snoozed then Touch(id, WokenUp) else Nothing
    case Merge(primary, secondary, at) => if primary == secondary then Nothing else Fold(primary, secondary, at)
  }

  function ToActive(rows: seq<Conversation>, contact: ContactId, e: Event): Effect
  {
    var live := ActiveOf(rows, contact);
    if live.Some? then Touch(live.value, e) else Nothing
  }

  predicate Fits(rows: seq<Conversation>, effect: Effect)
  {
    match effect
    case Nothing => true
    case Begin(_, event) => event.Opens()
    case Touch(id, event) => id < |rows| && !event.Opens()
    case Fold(primary, secondary, _) => primary != secondary
  }

  /** The merge resolves the secondary's live conversation, then moves all of its rows. */
  function Folded(c: Conversation, primary: ContactId, secondary: ContactId, at: Time): Conversation
  {
    if c.contact != secondary then c
    else Changed(if c.Active() then Changed(c, ResolvedByMerge(at)) else c, MovedTo(primary))
  }

  function Applied(rows: seq<Conversation>, effect: Effect): seq<Conversation>
    requires Fits(rows, effect)
  {
    match effect
    case Nothing => rows
    case Begin(contact, event) => rows + [Born(contact, event)]
    case Touch(id, event) => rows[id := Changed(rows[id], event)]
    case Fold(primary, secondary, at) =>
      seq(|rows|, i requires 0 <= i < |rows| => Folded(rows[i], primary, secondary, at))
  }

  lemma DecideFits(rows: seq<Conversation>, op: Op)
    ensures Fits(rows, Decide(rows, op))
  {
  }

  function Next(rows: seq<Conversation>, op: Op): seq<Conversation>
  {
    DecideFits(rows, op);
    Applied(rows, Decide(rows, op))
  }

  // The log ------------------------------------------------------------------

  /** An event and the status it left. */
  datatype Entry = Entry(event: Event, status: Status)

  type Log = seq<Entry>

  function FoldedLog(c: Conversation, log: Log, primary: ContactId, secondary: ContactId, at: Time): Log
  {
    if c.contact != secondary then log
    else
      (if c.Active() then log + [Entry(ResolvedByMerge(at), Resolved)] else log) + [Entry(MovedTo(primary), Resolved)]
  }

  function Logged(rows: seq<Conversation>, logs: seq<Log>, effect: Effect): seq<Log>
    requires |rows| == |logs| && Fits(rows, effect)
  {
    match effect
    case Nothing => logs
    case Begin(contact, event) => logs + [[Entry(event, Born(contact, event).status)]]
    case Touch(id, event) => logs[id := logs[id] + [Entry(event, Changed(rows[id], event).status)]]
    case Fold(primary, secondary, at) =>
      seq(|rows|, i requires 0 <= i < |rows| => FoldedLog(rows[i], logs[i], primary, secondary, at))
  }

  datatype State = State(rows: seq<Conversation>, logs: seq<Log>)

  function Step(s: State, op: Op): State
    requires |s.rows| == |s.logs|
    ensures |Step(s, op).rows| == |Step(s, op).logs|
  {
    DecideFits(s.rows, op);
    var effect := Decide(s.rows, op);
    State(Applied(s.rows, effect), Logged(s.rows, s.logs, effect))
  }

  function Run(s: State, ops: seq<Op>): State
    requires |s.rows| == |s.logs|
    ensures |Run(s, ops).rows| == |Run(s, ops).logs|
    decreases |ops|
  {
    if ops == [] then s else Run(Step(s, ops[0]), ops[1..])
  }

  // What the columns mean ----------------------------------------------------

  /** The event that resolved the conversation, if it is resolved: moving it to another contact changes nothing. */
  function Resolution(log: Log): (e: Option<Event>)
    ensures e.Some? ==> e.value.MarkedResolved? || e.value.ResolvedByMerge?
  {
    if log == [] then None
    else
      var last := log[|log| - 1].event;
      if last.MovedTo? then Resolution(log[..|log| - 1])
      else if last.MarkedResolved? || last.ResolvedByMerge? then Some(last)
      else None
  }

  /** The resolution columns: when, why and by whom; a merge resolves in nobody's name. */
  predicate ResolvedAs(c: Conversation, resolution: Option<Event>)
    requires resolution.Some? ==> resolution.value.MarkedResolved? || resolution.value.ResolvedByMerge?
  {
    match resolution
    case None => c.resolvedAt.None? && c.resolvedBy.None? && c.resolutionReason == ""
    case Some(e) =>
      && c.resolvedAt == Some(e.at)
      && c.resolvedBy == (if e.MarkedResolved? then e.user else None)
      && c.resolutionReason == (if e.MarkedResolved? then e.reason else "merged")
  }

  /** How often the status went from resolved back to a live one. */
  function Reopenings(log: Log): nat
  {
    if |log| < 2 then 0
    else
      Reopenings(log[..|log| - 1]) +
      if log[|log| - 2].status == Resolved && log[|log| - 1].status != Resolved then 1 else 0
  }

  function FirstAgentReply(log: Log): (e: Option<Event>)
    ensures e.Some? ==> e.value.AgentReply()
  {
    if log == [] then None
    else
      var before := FirstAgentReply(log[..|log| - 1]);
      if before.Some? then before
      else if log[|log| - 1].event.AgentReply() then Some(log[|log| - 1].event)
      else None
  }

  datatype Party = Anyone | TheCustomer | AnAgent

  /** An agent opening a conversation leaves a customer's timestamp too. */
  predicate Spoke(e: Event, who: Party)
  {
    match who
    case Anyone => e.Message()
    case TheCustomer => e.CustomerMessage() || e.OpenedByAgent?
    case AnAgent => e.AgentReply()
  }

  function LastSpoken(log: Log, who: Party): Option<Time>
  {
    if log == [] then None
    else if Spoke(log[|log| - 1].event, who) then Some(log[|log| - 1].event.at)
    else LastSpoken(log[..|log| - 1], who)
  }

  /** Until when the conversation was last put to sleep. */
  function LastSleep(log: Log): Option<Time>
  {
    if log == [] then None
    else if log[|log| - 1].event.PutToSleep? then Some(log[|log| - 1].event.until)
    else LastSleep(log[..|log| - 1])
  }

  /** Who took it last, if anybody. */
  function LastTaker(log: Log): Option<UserId>
  {
    if log == [] then None
    else if log[|log| - 1].event.Taken? then log[|log| - 1].event.assignee
    else LastTaker(log[..|log| - 1])
  }

  function Messages(log: Log): nat
  {
    if log == [] then 0
    else Messages(log[..|log| - 1]) + if log[|log| - 1].event.Message() then 1 else 0
  }

  /**
    What ends a customer's wait: an agent's reply, a pending mark, a resolution,
    or the customer coming back after one. `mergeToo` says whether being
    resolved by a merge counts as well.
   */
  predicate Ends(e: Event, mergeToo: bool)
  {
    e.AgentReply() || e.MarkedPending? || e.MarkedResolved? || e.CustomerCameBack? || (mergeToo && e.ResolvedByMerge?)
  }

  /** Between entry `j` (exclusive) and entry `k` (inclusive) something ended the wait. */
  predicate EndedBetween(log: Log, j: nat, k: int, mergeToo: bool)
  {
    exists m :: j < m <= k && m < |log| && Ends(log[m].event, mergeToo)
  }

  /** Entry `k` is the first customer message nobody has answered. */
  predicate FirstUnanswered(log: Log, k: nat, mergeToo: bool)
  {
    && k < |log|
    && log[k].event.CustomerMessage()
    && !EndedBetween(log, k, |log| - 1, mergeToo)
    && forall j :: 0 <= j < k && log[j].event.CustomerMessage() ==> EndedBetween(log, j, k, mergeToo)
  }

  predicate AllAnswered(log: Log, mergeToo: bool)
  {
    forall j :: 0 <= j < |log| && log[j].event.CustomerMessage() ==> EndedBetween(log, j, |log| - 1, mergeToo)
  }

  /** `waiting` is the time of the first unanswered customer message, and none exactly when there is no such message. */
  ghost predicate WaitingIs(waiting: Option<Time>, log: Log, mergeToo: bool)
  {
    match waiting
    case None => AllAnswered(log, mergeToo)
    case Some(t) => exists k: nat :: FirstUnanswered(log, k, mergeToo) && log[k].event.at == t
  }

  /** The columns that name times and people, against the log. */
  predicate Recorded(c: Conversation, log: Log)
    requires log != []
  {
    && ResolvedAs(c, Resolution(log))
    && c.firstResponseAt == (if FirstAgentReply(log).Some? then Some(FirstAgentReply(log).value.at) else None)
    && c.firstResponder == (if FirstAgentReply(log).Some? then FirstAgentReply(log).value.user else None)
    && c.lastMessageAt == LastSpoken(log, Anyone)
    && c.lastCustomerMessageAt == LastSpoken(log, TheCustomer)
    && c.lastAgentMessageAt == LastSpoken(log, AnAgent)
    && c.assignee == LastTaker(log)
  }

  /** A row that says what its log says. */
  ghost predicate Faithful(c: Conversation, log: Log)
  {
    && log != []
    && c.status == log[|log| - 1].status
    && Recorded(c, log)
    && (c.status == Resolved <==> c.resolvedAt.Some?)
    && (c.status == Snoozed ==> c.snoozedUntil.Some? && c.snoozedUntil == LastSleep(log))
    && (c.status == Pending ==> c.waitingSince.None?)
    && log[0].event.Opens()
    && c.openedAt == log[0].event.at && c.firstCustomerMessageAt == Some(c.openedAt)
    && c.messageCount == Messages(log) + (if log[0].event.OpenedByAgent? then 1 else 0)
    && WaitingIs(c.waitingSince, log, false)
  }

  /** The row's counter agrees with its history. */
  predicate Counted(c: Conversation, log: Log)
  {
    c.reopenedCount == Reopenings(log)
  }

  predicate OneActive(rows: seq<Conversation>)
  {
    forall i, j :: 0 <= i < j < |rows| && rows[i].Active() && rows[j].Active() ==> rows[i].contact != rows[j].contact
  }

  ghost predicate Sound(s: State)
  {
    && |s.rows| == |s.logs|
    && OneActive(s.rows)
    && forall i :: 0 <= i < |s.rows| ==> Faithful(s.rows[i], s.logs[i])
  }

  // Every operation keeps every column true ------------------------------------

  predicate Allowed(c: Conversation, e: Event)
  {
    !e.Opens() && if c.Active() then !e.CustomerCameBack? && !e.MovedTo? else e.AfterTheEnd()
  }

  function NextWaiting(waiting: Option<Time>, e: Event, mergeToo: bool): Option<Time>
  {
    if e.CustomerMessage() then
      if waiting.None? || Ends(e, mergeToo) then Some(e.at) else waiting
    else if Ends(e, mergeToo) then None
    else waiting
  }

  lemma EndedLater(log: Log, x: Entry, j: nat, mergeToo: bool)
    requires j < |log|
    ensures EndedBetween(log + [x], j, |log|, mergeToo) <==> (
      EndedBetween(log, j, |log| - 1, mergeToo) || Ends(x.event, mergeToo))
  {
    var longer := log + [x];
    if Ends(x.event, mergeToo) {
      assert longer[|log|] == x;
    }
    if m :| j < m <= |log| - 1 && m < |log| && Ends(log[m].event, mergeToo) {
      assert longer[m] == log[m];
    }
    if m :| j < m <= |log| && m < |longer| && Ends(longer[m].event, mergeToo) {
      assert m < |log| ==> longer[m] == log[m];
    }
  }

  lemma EndedBefore(log: Log, x: Entry, j: nat, k: nat, mergeToo: bool)
    requires j <= k < |log|
    ensures EndedBetween(log + [x], j, k, mergeToo) <==> EndedBetween(log, j, k, mergeToo)
  {
    var longer := log + [x];
    assert forall m :: j < m <= k ==> longer[m] == log[m];
  }

  lemma AnsweredNow(log: Log, x: Entry, mergeToo: bool)
    requires Ends(x.event, mergeToo) && !x.event.CustomerMessage()
    ensures AllAnswered(log + [x], mergeToo)
  {
    forall j | 0 <= j < |log + [x]| && (log + [x])[j].event.CustomerMessage()
      ensures EndedBetween(log + [x], j, |log|, mergeToo)
    {
      EndedLater(log, x, j, mergeToo);
    }
  }

  lemma FirstNow(log: Log, x: Entry, mergeToo: bool)
    requires x.event.CustomerMessage() && (Ends(x.event, mergeToo) || AllAnswered(log, mergeToo))
    ensures FirstUnanswered(log + [x], |log|, mergeToo)
  {
    forall j | 0 <= j < |log| && (log + [x])[j].event.CustomerMessage()
      ensures EndedBetween(log + [x], j, |log|, mergeToo)
    {
      assert (log + [x])[j] == log[j];
      EndedLater(log, x, j, mergeToo);
    }
  }

  lemma StillAnswered(log: Log, x: Entry, mergeToo: bool)
    requires AllAnswered(log, mergeToo) && !x.event.CustomerMessage()
    ensures AllAnswered(log + [x], mergeToo)
  {
    forall j | 0 <= j < |log + [x]| && (log + [x])[j].event.CustomerMessage()
      ensures EndedBetween(log + [x], j, |log|, mergeToo)
    {
      assert (log + [x])[j] == log[j];
      EndedLater(log, x, j, mergeToo);
    }
  }

  lemma StillFirst(log: Log, x: Entry, k: nat, mergeToo: bool)
    requires FirstUnanswered(log, k, mergeToo) && !Ends(x.event, mergeToo)
    ensures FirstUnanswered(log + [x], k, mergeToo)
  {
    EndedLater(log, x, k, mergeToo);
    forall j | 0 <= j < k && (log + [x])[j].event.CustomerMessage()
      ensures EndedBetween(log + [x], j, k, mergeToo)
    {
      assert (log + [x])[j] == log[j];
      EndedBefore(log, x, j, k, mergeToo);
    }
  }

  lemma {:induction false} WaitingStep(waiting: Option<Time>, log: Log, x: Entry, mergeToo: bool)
    requires WaitingIs(waiting, log, mergeToo)
    ensures WaitingIs(NextWaiting(waiting, x.event, mergeToo), log + [x], mergeToo)
  {
    if x.event.CustomerMessage() && (waiting.None? || Ends(x.event, mergeToo)) {
      FirstNow(log, x, mergeToo);
      assert (log + [x])[|log|] == x;
    } else if Ends(x.event, mergeToo) {
      AnsweredNow(log, x, mergeToo);
    } else if waiting.None? {
      StillAnswered(log, x, mergeToo);
    } else {
      var k: nat :| FirstUnanswered(log, k, mergeToo) && log[k].event.at == waiting.value;
      StillFirst(log, x, k, mergeToo);
      assert (log + [x])[k] == log[k];
    }
  }

  lemma {:induction false} ColumnsStep(log: Log, x: Entry)
    requires log != []
    ensures (log + [x])[0] == log[0]
    ensures Resolution(log + [x]) == (
      if x.event.MovedTo? then Resolution(log)
      else if x.event.MarkedResolved? || x.event.ResolvedByMerge? then Some(x.event)
      else None)
    ensures Reopenings(log + [x]) ==
      Reopenings(log) + if log[|log| - 1].status == Resolved && x.status != Resolved then 1 else 0
    ensures FirstAgentReply(log + [x]) == (
      if FirstAgentReply(log).Some? then FirstAgentReply(log)
      else if x.event.AgentReply() then Some(x.event)
      else None)
    ensures forall who ::
      LastSpoken(log + [x], who) == if Spoke(x.event, who) then Some(x.event.at) else LastSpoken(log, who)
    ensures LastSleep(log + [x]) == if x.event.PutToSleep? then Some(x.event.until) else LastSleep(log)
    ensures LastTaker(log + [x]) == if x.event.Taken? then x.event.assignee else LastTaker(log)
    ensures Messages(log + [x]) == Messages(log) + if x.event.Message() then 1 else 0
  {
    assert (log + [x])[..|log|] == log;
  }

  lemma {:induction false} TouchKeepsResolution(c: Conversation, log: Log, e: Event)
    requires Faithful(c, log) && Allowed(c, e)
    ensures ResolvedAs(Changed(c, e), Resolution(log + [Entry(e, Changed(c, e).status)]))
  {
    ColumnsStep(log, Entry(e, Changed(c, e).status));
  }

  lemma {:induction false} TouchKeepsResponse(c: Conversation, log: Log, e: Event)
    requires log != [] && Recorded(c, log) && !e.Opens()
    ensures var reply := FirstAgentReply(log + [Entry(e, Changed(c, e).status)]);
      && Changed(c, e).firstResponseAt == (if reply.Some? then Some(reply.value.at) else None)
      && Changed(c, e).firstResponder == (if reply.Some? then reply.value.user else None)
  {
    ColumnsStep(log, Entry(e, Changed(c, e).status));
  }

  lemma {:induction false} TouchKeepsSpoken(c: Conversation, log: Log, e: Event)
    requires log != [] && Recorded(c, log) && !e.Opens()
    ensures var more, after := log + [Entry(e, Changed(c, e).status)], Changed(c, e);
      && after.lastMessageAt == LastSpoken(more, Anyone)
      && after.lastCustomerMessageAt == LastSpoken(more, TheCustomer)
      && after.lastAgentMessageAt == LastSpoken(more, AnAgent)
      && after.assignee == LastTaker(more)
  {
    ColumnsStep(log, Entry(e, Changed(c, e).status));
  }

  lemma {:induction false} TouchKeepsWaiting(c: Conversation, log: Log, e: Event)
    requires !e.Opens() && WaitingIs(c.waitingSince, log, false)
    ensures WaitingIs(Changed(c, e).waitingSince, log + [Entry(e, Changed(c, e).status)], false)
  {
    WaitingStep(c.waitingSince, log, Entry(e, Changed(c, e).status), false);
    assert Changed(c, e).waitingSince == NextWaiting(c.waitingSince, e, false);
  }

  /** The columns about status, sleep and counts. */
  lemma {:induction false} TouchKeepsStatus(c: Conversation, log: Log, e: Event)
    requires Faithful(c, log) && Allowed(c, e)
    ensures var after, more := Changed(c, e), log + [Entry(e, Changed(c, e).status)];
      && more[0] == log[0] && after.openedAt == c.openedAt && after.firstCustomerMessageAt == c.firstCustomerMessageAt
      && (after.status == Resolved <==> after.resolvedAt.Some?)
      && (after.status == Snoozed ==> after.snoozedUntil.Some? && after.snoozedUntil == LastSleep(more))
      && (after.status == Pending ==> after.waitingSince.None?)
      && after.messageCount - c.messageCount == Messages(more) - Messages(log)
  {
    ColumnsStep(log, Entry(e, Changed(c, e).status));
  }

  lemma {:induction false} TouchKeepsFaithful(c: Conversation, log: Log, e: Event)
    requires Faithful(c, log) && Allowed(c, e)
    ensures Faithful(Changed(c, e), log + [Entry(e, Changed(c, e).status)])
  {
    TouchKeepsResolution(c, log, e);
    TouchKeepsResponse(c, log, e);
    TouchKeepsSpoken(c, log, e);
    TouchKeepsWaiting(c, log, e);
    TouchKeepsStatus(c, log, e);
  }

  lemma {:induction false} BirthIsFaithful(contact: ContactId, e: Event)
    requires e.Opens()
    ensures Faithful(Born(contact, e), [Entry(e, Born(contact, e).status)])
  {
    var x := Entry(e, Born(contact, e).status);
    var log: Log := [x];
    assert log[..0] == [] && [] + [x] == log;
    if e.OpenedByCustomer? {
      FirstNow([], x, false);
      assert log[0].event.at == e.at;
    } else {
      AnsweredNow([], x, false);
    }
  }

  lemma {:induction false} FoldKeepsFaithful(c: Conversation, log: Log, primary: ContactId, secondary: ContactId, at: Time)
    requires Faithful(c, log)
    ensures Faithful(Folded(c, primary, secondary, at), FoldedLog(c, log, primary, secondary, at))
  {
    if c.contact == secondary {
      if c.Active() {
        var closed := Changed(c, ResolvedByMerge(at));
        TouchKeepsFaithful(c, log, ResolvedByMerge(at));
        TouchKeepsFaithful(closed, log + [Entry(ResolvedByMerge(at), Resolved)], MovedTo(primary));
      } else {
        TouchKeepsFaithful(c, log, MovedTo(primary));
      }
    }
  }

  lemma ActiveIsUnique(rows: seq<Conversation>, i: Id)
    requires OneActive(rows) && i < |rows| && rows[i].Active()
    ensures ActiveOf(rows, rows[i].contact) == Some(i)
  {
  }

  /** What `Decide` chooses is always possible for the row it chooses. */
  lemma DecideIsAllowed(rows: seq<Conversation>, op: Op)
    ensures Decide(rows, op).Touch? ==>
      Allowed(rows[Decide(rows, op).id], Decide(rows, op).event)
    ensures Decide(rows, op).Touch? && Decide(rows, op).event.AfterTheEnd() ==>
      ActiveOf(rows, rows[Decide(rows, op).id].contact) in {None, Some(Decide(rows, op).id)}
    ensures Decide(rows, op).Touch? ==> !Decide(rows, op).event.MovedTo? && !Decide(rows, op).event.ResolvedByMerge?
    ensures Decide(rows, op).Begin? ==> ActiveOf(rows, Decide(rows, op).contact).None?
  {
    DecideFits(rows, op);
  }

  lemma TouchKeepsOneActive(rows: seq<Conversation>, id: Id, e: Event)
    requires OneActive(rows) && id < |rows| && Allowed(rows[id], e) && !e.MovedTo?
    requires e.AfterTheEnd() ==> ActiveOf(rows, rows[id].contact) in {None, Some(id)}
    ensures OneActive(rows[id := Changed(rows[id], e)])
  {
    var c := Changed(rows[id], e);
    assert c.contact == rows[id].contact && (c.Active() && !rows[id].Active() ==> e.AfterTheEnd());
  }

  lemma FoldKeepsOneActive(rows: seq<Conversation>, primary: ContactId, secondary: ContactId, at: Time)
    requires OneActive(rows) && primary != secondary
    ensures OneActive(Applied(rows, Fold(primary, secondary, at)))
  {
    var after := Applied(rows, Fold(primary, secondary, at));
    assert forall i :: 0 <= i < |rows| && after[i].Active() ==> after[i] == rows[i];
  }

  lemma StepKeepsOneActive(rows: seq<Conversation>, op: Op)
    requires OneActive(rows)
    ensures OneActive(Next(rows, op))
  {
    DecideFits(rows, op);
    DecideIsAllowed(rows, op);
    match Decide(rows, op)
    case Nothing =>
    case Begin(_, _) =>
    case Touch(id, event) => TouchKeepsOneActive(rows, id, event);
    case Fold(primary, secondary, at) => FoldKeepsOneActive(rows, primary, secondary, at);
  }

  lemma {:induction false} StepKeepsSound(s: State, op: Op)
    requires Sound(s)
    ensures Sound(Step(s, op))
  {
    DecideFits(s.rows, op);
    DecideIsAllowed(s.rows, op);
    StepKeepsOneActive(s.rows, op);
    var effect := Decide(s.rows, op);
    match effect
    case Nothing =>
    case Begin(contact, event) =>
      BirthIsFaithful(contact, event);
    case Touch(id, event) =>
      TouchKeepsFaithful(s.rows[id], s.logs[id], event);
    case Fold(primary, secondary, at) =>
      forall i | 0 <= i < |s.rows|
        ensures Faithful(Step(s, op).rows[i], Step(s, op).logs[i])
      {
        FoldKeepsFaithful(s.rows[i], s.logs[i], primary, secondary, at);
      }
  }

  /**
    In every run of messages, resolutions, snoozes, reopenings, marks and merges:
    a contact has at most one live conversation, and each row's columns are what
    its own history says.
   */
  lemma {:induction false} EveryRunIsSound(s: State, ops: seq<Op>)
    requires Sound(s)
    ensures Sound(Run(s, ops))
    decreases |ops|
  {
    if ops != [] {
      StepKeepsSound(s, ops[0]);
      EveryRunIsSound(Step(s, ops[0]), ops[1..]);
    }
  }

  /** In particular, every history that starts with no conversations. */
  lemma FromNothing(ops: seq<Op>)
    ensures Sound(Run(State([], []), ops))
  {
    EveryRunIsSound(State([], []), ops);
  }

  lemma {:induction false} FirstResponseStays(rows: seq<Conversation>, op: Op, i: Id)
    requires i < |rows|
    ensures i < |Next(rows, op)|
    ensures rows[i].firstResponseAt.Some? ==> Next(rows, op)[i].firstResponseAt == rows[i].firstResponseAt
  {
    DecideFits(rows, op);
    var effect := Decide(rows, op);
    assert effect.Touch? && effect.id == i && rows[i].firstResponseAt.Some? ==>
        Changed(rows[i], effect.event).firstResponseAt == rows[i].firstResponseAt;
  }

  /** The first agent reply's time, once written, is never written again, and no conversation disappears. */
  lemma {:induction false} FirstResponseIsFinal(s: State, ops: seq<Op>, i: Id)
    requires |s.rows| == |s.logs| && i < |s.rows|
    ensures i < |Run(s, ops).rows|
    ensures s.rows[i].firstResponseAt.Some? ==> Run(s, ops).rows[i].firstResponseAt == s.rows[i].firstResponseAt
    decreases |ops|
  {
    if ops != [] {
      FirstResponseStays(s.rows, ops[0], i);
      FirstResponseIsFinal(Step(s, ops[0]), ops[1..], i);
    }
  }

  // Reopenings, counted --------------------------------------------------------

  ghost predicate AllCounted(s: State)
  {
    |s.rows| == |s.logs| && forall i :: 0 <= i < |s.rows| ==> Counted(s.rows[i], s.logs[i])
  }

  /** A reopening whose early read is out of date does not find the conversation live again. */
  predicate FreshRead(rows: seq<Conversation>, op: Op)
  {
    op.Reopen? && op.id < |rows| && rows[op.id].Active() ==> ActiveOf(rows, op.seen).Some?
  }

  lemma {:induction false} TouchCounts(c: Conversation, log: Log, e: Event)
    requires Faithful(c, log) && Allowed(c, e) && Counted(c, log)
    ensures Counted(Changed(c, e), log + [Entry(e, Changed(c, e).status)]) <==> !(e.PutBack? && c.Active())
  {
    ColumnsStep(log, Entry(e, Changed(c, e).status));
  }

  lemma {:induction false} FoldCounts(c: Conversation, log: Log, primary: ContactId, secondary: ContactId, at: Time)
    requires Faithful(c, log) && Counted(c, log)
    ensures Counted(Folded(c, primary, secondary, at), FoldedLog(c, log, primary, secondary, at))
  {
    if c.contact == secondary {
      if c.Active() {
        TouchKeepsFaithful(c, log, ResolvedByMerge(at));
        TouchCounts(c, log, ResolvedByMerge(at));
        TouchCounts(Changed(c, ResolvedByMerge(at)), log + [Entry(ResolvedByMerge(at), Resolved)], MovedTo(primary));
      } else {
        TouchCounts(c, log, MovedTo(primary));
      }
    }
  }

  lemma {:induction false} MergeKeepsCount(s: State, primary: ContactId, secondary: ContactId, at: Time)
    requires Sound(s) && AllCounted(s) && primary != secondary
    ensures AllCounted(Step(s, Merge(primary, secondary, at)))
  {
    var after := Step(s, Merge(primary, secondary, at));
    forall i | 0 <= i < |s.rows|
      ensures Counted(after.rows[i], after.logs[i])
    {
      FoldCounts(s.rows[i], s.logs[i], primary, secondary, at);
    }
  }

  lemma {:induction false} EffectKeepsCount(s: State, effect: Effect, after: State)
    requires Sound(s) && AllCounted(s) && Fits(s.rows, effect) && !effect.Fold?
    requires effect.Touch? ==> Allowed(s.rows[effect.id], effect.event)
    requires after == State(Applied(s.rows, effect), Logged(s.rows, s.logs, effect))
    ensures AllCounted(after) <==> !(effect.Touch? && effect.event.PutBack? && s.rows[effect.id].Active())
  {
    if effect.Touch? {
      TouchCounts(s.rows[effect.id], s.logs[effect.id], effect.event);
      assert AllCounted(after) ==> Counted(after.rows[effect.id], after.logs[effect.id]);
    }
  }

  /** A live row is put back exactly when the contact read before the lock has no live row. */
  lemma PutBackWhileLive(rows: seq<Conversation>, op: Op)
    requires OneActive(rows)
    ensures var effect := Decide(rows, op);
      effect.Touch? && effect.event.PutBack? && effect.id < |rows| && rows[effect.id].Active() <==> !FreshRead(rows, op)
  {
    if op.Reopen? && op.id < |rows| && rows[op.id].Active() {
      ActiveIsUnique(rows, op.id);
    }
  }

  /**
    The counter of reopenings stays exact through an operation unless `Reopen`
    read its row before a merge moved it and the survivor's customer then brought
    it back: that adds one to a conversation that was already live.
   */
  lemma {:induction false} StepKeepsCount(s: State, op: Op)
    requires Sound(s) && AllCounted(s)
    ensures AllCounted(Step(s, op)) <==> FreshRead(s.rows, op)
  {
    if op.Merge? && op.primary != op.secondary {
      MergeKeepsCount(s, op.primary, op.secondary, op.at);
    } else {
      DecideFits(s.rows, op);
      DecideIsAllowed(s.rows, op);
      EffectKeepsCount(s, Decide(s.rows, op), Step(s, op));
      PutBackWhileLive(s.rows, op);
    }
  }

  predicate FreshReads(s: State, ops: seq<Op>)
    requires |s.rows| == |s.logs|
    decreases |ops|
  {
    ops == [] || (FreshRead(s.rows, ops[0]) && FreshReads(Step(s, ops[0]), ops[1..]))
  }

  lemma {:induction false} EveryRunCounts(s: State, ops: seq<Op>)
    requires Sound(s) && AllCounted(s) && FreshReads(s, ops)
    ensures AllCounted(Run(s, ops))
    decreases |ops|
  {
    if ops != [] {
      StepKeepsSound(s, ops[0]);
      StepKeepsCount(s, ops[0]);
      EveryRunCounts(Step(s, ops[0]), ops[1..]);
    }
  }

  // Resolving ends the wait, except by a merge -----------------------------------

  /** Every row's `waitingSince` is what the log says when any resolution ends the wait. */
  ghost predicate WaitsAsDocumented(s: State)
  {
    |s.rows| == |s.logs| && forall i :: 0 <= i < |s.rows| ==> WaitingIs(s.rows[i].waitingSince, s.logs[i], true)
  }

  /** A merge that finds nobody waiting on the secondary. */
  predicate QuietMerge(rows: seq<Conversation>, op: Op)
  {
    op.Merge? && op.primary != op.secondary ==>
      forall i :: 0 <= i < |rows| && rows[i].Active() && rows[i].contact == op.secondary ==> rows[i].waitingSince.None?
  }

  lemma {:induction false} FoldWaits(c: Conversation, log: Log, primary: ContactId, secondary: ContactId, at: Time)
    requires Faithful(c, log) && WaitingIs(c.waitingSince, log, true)
    ensures WaitingIs(Folded(c, primary, secondary, at).waitingSince, FoldedLog(c, log, primary, secondary, at), true) <==>
            !(c.contact == secondary && c.Active() && c.waitingSince.Some?)
  {
    if c.contact == secondary {
      var moved := Entry(MovedTo(primary), Resolved);
      if c.Active() {
        var closed := log + [Entry(ResolvedByMerge(at), Resolved)];
        AnsweredNow(log, Entry(ResolvedByMerge(at), Resolved), true);
        StillAnswered(closed, moved, true);
        assert forall k: nat :: !FirstUnanswered(closed + [moved], k, true);
      } else {
        WaitingStep(c.waitingSince, log, moved, true);
      }
    }
  }

  lemma {:induction false} BirthWaits(contact: ContactId, e: Event)
    requires e.Opens()
    ensures WaitingIs(Born(contact, e).waitingSince, [Entry(e, Born(contact, e).status)], true)
  {
    var x := Entry(e, Born(contact, e).status);
    assert [] + [x] == [x];
    if e.OpenedByCustomer? {
      FirstNow([], x, true);
      assert [x][0].event.at == e.at;
    } else {
      AnsweredNow([], x, true);
    }
  }

  lemma {:induction false} TouchWaits(c: Conversation, log: Log, e: Event)
    requires !e.Opens() && !e.ResolvedByMerge?
    requires WaitingIs(c.waitingSince, log, true)
    ensures WaitingIs(Changed(c, e).waitingSince, log + [Entry(e, Changed(c, e).status)], true)
  {
    WaitingStep(c.waitingSince, log, Entry(e, Changed(c, e).status), true);
    assert Changed(c, e).waitingSince == NextWaiting(c.waitingSince, e, true);
  }

  lemma {:induction false} MergeKeepsDocumentedWait(s: State, primary: ContactId, secondary: ContactId, at: Time)
    requires Sound(s) && WaitsAsDocumented(s) && primary != secondary
    ensures WaitsAsDocumented(Step(s, Merge(primary, secondary, at))) <==> QuietMerge(s.rows, Merge(primary, secondary, at))
  {
    var after := Step(s, Merge(primary, secondary, at));
    forall i | 0 <= i < |s.rows|
      ensures WaitingIs(after.rows[i].waitingSince, after.logs[i], true) <==>
              !(s.rows[i].contact == secondary && s.rows[i].Active() && s.rows[i].waitingSince.Some?)
    {
      FoldWaits(s.rows[i], s.logs[i], primary, secondary, at);
    }
  }

  lemma {:induction false} EffectKeepsDocumentedWait(s: State, effect: Effect, after: State)
    requires WaitsAsDocumented(s) && Fits(s.rows, effect) && !effect.Fold?
    requires effect.Touch? ==> !effect.event.ResolvedByMerge?
    requires after == State(Applied(s.rows, effect), Logged(s.rows, s.logs, effect))
    ensures WaitsAsDocumented(after)
  {
    match effect
    case Nothing =>
    case Begin(contact, event) => BirthWaits(contact, event);
    case Touch(id, event) => TouchWaits(s.rows[id], s.logs[id], event);
  }

  /**
    A resolution is meant to end the wait, but a merge leaves the secondary's
    `waitingSince` as it was. The documented meaning survives an operation
    exactly when it is not a merge that resolves a waiting conversation.
   */
  lemma {:induction false} StepKeepsDocumentedWait(s: State, op: Op)
    requires Sound(s) && WaitsAsDocumented(s)
    ensures WaitsAsDocumented(Step(s, op)) <==> QuietMerge(s.rows, op)
  {
    if op.Merge? && op.primary != op.secondary {
      MergeKeepsDocumentedWait(s, op.primary, op.secondary, op.at);
    } else {
      DecideFits(s.rows, op);
      DecideIsAllowed(s.rows, op);
      EffectKeepsDocumentedWait(s, Decide(s.rows, op), Step(s, op));
    }
  }

  predicate QuietMerges(s: State, ops: seq<Op>)
    requires |s.rows| == |s.logs|
    decreases |ops|
  {
    ops == [] || (QuietMerge(s.rows, ops[0]) && QuietMerges(Step(s, ops[0]), ops[1..]))
  }

  lemma {:induction false} EveryQuietRunWaitsAsDocumented(s: State, ops: seq<Op>)
    requires Sound(s) && WaitsAsDocumented(s) && QuietMerges(s, ops)
    ensures WaitsAsDocumented(Run(s, ops))
    decreases |ops|
  {
    if ops != [] {
      StepKeepsSound(s, ops[0]);
      StepKeepsDocumentedWait(s, ops[0]);
      EveryQuietRunWaitsAsDocumented(Step(s, ops[0]), ops[1..]);
    }
  }

  lemma FirstMessage(contact: ContactId, at: Time, handling: Handling, window: int)
    ensures Next([], TouchInbound(contact, at, handling, window)) == [Created(contact, at, handling)]
  {
    assert ActiveOf([], contact) == None;
    assert LatestResolved([], contact, Since(at, window), 0) == None;
    assert Decide([], TouchInbound(contact, at, handling, window)) == Begin(contact, OpenedByCustomer(at, handling));
  }

  /** After that one message, one merge: the conversation is resolved and still says somebody is waiting. */
  lemma MergeLeavesAWaitBehind(at: Time, handling: Handling, now: Time)
    ensures var merged := Next([Created(1, at, handling)], Merge(0, 1, now));
      |merged| == 1 && merged[0].status == Resolved && merged[0].waitingSince == Some(at)
  {
    var written := [Created(1, at, handling)];
    var merged := Applied(written, Fold(0, 1, now));
    assert merged[0] == Folded(written[0], 0, 1, now);
  }

  // A stale reopening, in full ----------------------------------------------------------------

  lemma OnlyRow(c: Conversation, contact: ContactId, since: Time)
    ensures ActiveOf([c], contact) == if c.Active() && c.contact == contact then Some(0) else None
    ensures LatestResolved([c], contact, since, 1) == if RecentlyResolved(c, contact, since) then Some(0) else None
  {
    assert ActiveFrom([c], contact, 1) == None;
    assert LatestResolved([c], contact, since, 0) == None;
  }

  lemma TouchOnly(c: Conversation, log: Log, op: Op, e: Event)
    requires Decide([c], op) == Touch(0, e) && !e.Opens()
    ensures Step(State([c], [log]), op) == State([Changed(c, e)], [log + [Entry(e, Changed(c, e).status)]])
  {
    assert [c][0 := Changed(c, e)] == [Changed(c, e)];
  }

  /** The conversation after its first message, resolved, and moved to contact 0 by a merge. */
  function MovedAway(at: Time): Conversation
  {
    Changed(Changed(Created(1, at, HandledByNone), MarkedResolved(at + 1, "", None)), MovedTo(0))
  }

  function MovedLog(at: Time): Log
  {
    [Entry(OpenedByCustomer(at, HandledByNone), Open), Entry(MarkedResolved(at + 1, "", None), Resolved),
     Entry(MovedTo(0), Resolved)]
  }

  function MergedOps(at: Time): seq<Op>
  {
    [TouchInbound(1, at, HandledByNone, 0), Resolve(1, "", None, at + 1), Merge(0, 1, at + 2)]
  }

  ghost predicate Reached(ops: seq<Op>, s: State)
  {
    Run(State([], []), ops) == s
  }

  lemma {:induction false} RunOneMore(s: State, ops: seq<Op>, op: Op)
    requires |s.rows| == |s.logs|
    ensures Run(s, ops + [op]) == Step(Run(s, ops), op)
    decreases |ops|
  {
    if ops == [] {
      assert [] + [op] == [op] && [op][1..] == [];
    } else {
      assert (ops + [op])[1..] == ops[1..] + [op];
      RunOneMore(Step(s, ops[0]), ops[1..], op);
    }
  }

  lemma MovedAwayIsReached(at: Time)
    ensures Reached(MergedOps(at), State([MovedAway(at)], [MovedLog(at)]))
  {
    var first := Entry(OpenedByCustomer(at, HandledByNone), Open);
    var begun := Created(1, at, HandledByNone);
    var ended := MarkedResolved(at + 1, "", None);
    FirstMessage(1, at, HandledByNone, 0);
    var s1 := Step(State([], []), TouchInbound(1, at, HandledByNone, 0));
    assert ActiveOf([], 1) == None && LatestResolved([], 1, Since(at, 0), 0) == None;
    assert s1 == State([begun], [[first]]);
    OnlyRow(begun, 1, 0);
    TouchOnly(begun, [first], Resolve(1, "", None, at + 1), ended);
    var resolved := Changed(begun, ended);
    var s2 := State([resolved], [[first] + [Entry(ended, Resolved)]]);
    assert Folded(resolved, 0, 1, at + 2) == MovedAway(at);
    assert Step(s2, Merge(0, 1, at + 2)).rows == [MovedAway(at)];
    assert [first] + [Entry(ended, Resolved)] + [Entry(MovedTo(0), Resolved)] == MovedLog(at);
    assert Step(s2, Merge(0, 1, at + 2)).logs[0] == MovedLog(at);
    RunThree(State([], []), TouchInbound(1, at, HandledByNone, 0), Resolve(1, "", None, at + 1), Merge(0, 1, at + 2));
  }

  lemma RunThree(s: State, a: Op, b: Op, c: Op)
    requires |s.rows| == |s.logs|
    ensures Run(s, [a, b, c]) == Step(Step(Step(s, a), b), c)
  {
    assert [a, b, c][1..] == [b, c] && [b, c][1..] == [c] && [c][1..] == [];
    var s1 := Step(s, a);
    var s2 := Step(s1, b);
    assert Run(s, [a, b, c]) == Run(s1, [b, c]) == Run(s2, [c]) == Run(Step(s2, c), []);
  }

  function BackOp(at: Time): Op
  {
    TouchInbound(0, at + 3, HandledByNone, 0)
  }

  function Back(at: Time): Conversation
  {
    Changed(MovedAway(at), CustomerCameBack(at + 3))
  }

  function BackLog(at: Time): Log
  {
    MovedLog(at) + [Entry(CustomerCameBack(at + 3), Open)]
  }

  /** The survivor's customer writes, and the conversation is live again. */
  lemma CustomerBringsItBack(at: Time)
    ensures Reached(MergedOps(at) + [BackOp(at)], State([Back(at)], [BackLog(at)]))
  {
    MovedAwayIsReached(at);
    RunOneMore(State([], []), MergedOps(at), BackOp(at));
    OnlyRow(MovedAway(at), 0, Since(at + 3, 0));
    assert RecentlyResolved(MovedAway(at), 0, Since(at + 3, 0));
    TouchOnly(MovedAway(at), MovedLog(at), BackOp(at), CustomerCameBack(at + 3));
  }

  /** A `Reopen` that read another contact puts a live row back once more. */
  lemma StaleReopen(ops: seq<Op>, live: Conversation, log: Log)
    requires live.Active() && live.contact == 0 && Reached(ops, State([live], [log]))
    ensures Reached(ops + [Reopen(0, 1)], State([Changed(live, PutBack)], [log + [Entry(PutBack, Open)]]))
  {
    RunOneMore(State([], []), ops, Reopen(0, 1));
    OnlyRow(live, 0, 0);
    OnlyRow(live, 1, 0);
    TouchOnly(live, log, Reopen(0, 1), PutBack);
  }

  lemma ReopenedOnce(at: Time)
    ensures Reopenings(BackLog(at) + [Entry(PutBack, Open)]) == 1
  {
    var first, second, third := MovedLog(at)[0], MovedLog(at)[1], MovedLog(at)[2];
    assert [first] + [second] + [third] == MovedLog(at);
    ColumnsStep([first], second);
    ColumnsStep([first] + [second], third);
    ColumnsStep(MovedLog(at), Entry(CustomerCameBack(at + 3), Open));
    ColumnsStep(BackLog(at), Entry(PutBack, Open));
  }

  /**
    From nothing: a message, a resolution, a merge, a message that brings the
    conversation back, and a `Reopen` that read the row before the merge. It was
    reopened once and its counter says twice.
   */
  lemma StaleReopenOvercounts(at: Time)
    ensures var s := Run(State([], []), MergedOps(at) + [BackOp(at)] + [Reopen(0, 1)]);
      |s.rows| == 1 && s.rows[0].reopenedCount == 2 && Reopenings(s.logs[0]) == 1
  {
    CustomerBringsItBack(at);
    StaleReopen(MergedOps(at) + [BackOp(at)], Back(at), BackLog(at));
    ReopenedOnce(at);
    assert Run(State([], []), MergedOps(at) + [BackOp(at)] + [Reopen(0, 1)]) ==
           State([Changed(Back(at), PutBack)], [BackLog(at) + [Entry(PutBack, Open)]]);
  }
}
