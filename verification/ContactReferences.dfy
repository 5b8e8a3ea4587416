/**
  What a merge does with everything that refers to the secondary: nothing is lost,
  nothing is counted twice, and nothing stays behind.
 */
module ContactReferences {
  import opened Wrappers

  type ContactId = nat
  type Time = int

  // Tables with a contact column ------------------------------------------------------

  datatype Table = Table(name: string, contacts: seq<ContactId>)

  function Repoint(contact: ContactId, from: ContactId, to: ContactId): ContactId
  {
    if contact == from then to else contact
  }

  function RepointAll(contacts: seq<ContactId>, from: ContactId, to: ContactId): seq<ContactId>
  {
    seq(|contacts|, i requires 0 <= i < |contacts| => Repoint(contacts[i], from, to))
  }

  function Count(contacts: seq<ContactId>, c: ContactId): nat
  {
    if contacts == [] then 0
    else Count(contacts[..|contacts| - 1], c) + if contacts[|contacts| - 1] == c then 1 else 0
  }

  /** No reference is lost: the survivor has both contacts' rows, the merged contact none, everybody else the same. */
  lemma {:induction false} ReferencesAreConserved(contacts: seq<ContactId>, from: ContactId, to: ContactId, c: ContactId)
    requires from != to
    ensures var after := RepointAll(contacts, from, to);
      Count(after, c) ==
      if c == from then 0
      else if c == to then Count(contacts, to) + Count(contacts, from)
      else Count(contacts, c)
  {
    if contacts != [] {
      ReferencesAreConserved(contacts[..|contacts| - 1], from, to, c);
      var after := RepointAll(contacts, from, to);
      assert after[..|after| - 1] == RepointAll(contacts[..|contacts| - 1], from, to);
    }
  }

  // Automation state --------------------------------------------------------------------

  datatype StateKey = StateKey(rule: nat, contact: ContactId, subject: string)

  datatype RunState = RunState(lastRun: Time, runs: nat)

  type AutomationState = map<StateKey, RunState>

  function Max(a: Time, b: Time): Time
  {
    if a < b then b else a
  }

  /** The row for a key after the secondary's rows have been folded in. */
  function Joined(state: AutomationState, key: StateKey, from: ContactId): RunState
    requires key in state || key.(contact := from) in state
  {
    var other := key.(contact := from);
    if other !in state then state[key]
    else if key !in state then state[other]
    else RunState(Max(state[key].lastRun, state[other].lastRun), state[key].runs + state[other].runs)
  }

  ghost predicate FoldedIn(before: AutomationState, after: AutomationState, from: ContactId, to: ContactId)
  {
    && (forall k :: k in after <==>
          k.contact != from && (k in before || (k.contact == to && k.(contact := from) in before)))
    && (forall k :: k in after ==>
          after[k] == if k.contact == to then Joined(before, k, from) else before[k])
  }

  function Runs(state: AutomationState, key: StateKey): nat
  {
    if key in state then state[key].runs else 0
  }

  /** A rule set to run once per contact has run for the survivor if it had for either. */
  predicate HasRun(state: AutomationState, key: StateKey)
  {
    key in state
  }

  /** A rule with a cooldown may run again. */
  predicate CooledDown(state: AutomationState, key: StateKey, now: Time, cooldown: int)
  {
    key in state ==> now - state[key].lastRun >= cooldown
  }

  /** Run counts add up, once-per-contact stays used up, and a cooldown ends only when both had. */
  lemma RunsAreConserved(before: AutomationState, after: AutomationState, from: ContactId, to: ContactId, key: StateKey)
    requires from != to && FoldedIn(before, after, from, to)
    ensures Runs(after, key.(contact := to)) == Runs(before, key.(contact := to)) + Runs(before, key.(contact := from))
    ensures Runs(after, key.(contact := from)) == 0
    ensures key.contact != from && key.contact != to ==> Runs(after, key) == Runs(before, key)
    ensures HasRun(after, key.(contact := to)) <==>
            HasRun(before, key.(contact := to)) || HasRun(before, key.(contact := from))
    ensures forall now, cooldown ::
      CooledDown(after, key.(contact := to), now, cooldown) <==>
      CooledDown(before, key.(contact := to), now, cooldown) && CooledDown(before, key.(contact := from), now, cooldown)
  {
    var kept, gone := key.(contact := to), key.(contact := from);
    assert kept.(contact := from) == gone;
    assert kept in after <==> kept in before || gone in before;
    assert gone !in after;
  }

  /** One row inserted for the survivor, or folded into the one it has. */
  function Upserted(state: AutomationState, row: StateKey, to: ContactId): AutomationState
    requires row in state
  {
    var target := row.(contact := to);
    if target in state then
      state[target := RunState(Max(state[target].lastRun, state[row].lastRun), state[target].runs + state[row].runs)]
    else state[target := state[row]]
  }

  predicate Takes(k: StateKey, done: set<StateKey>, from: ContactId, to: ContactId)
  {
    k.contact == to && k.(contact := from) in done
  }

  ghost predicate FoldedSoFar(before: AutomationState, now: AutomationState, done: set<StateKey>, from: ContactId,
    to: ContactId)
  {
    && (forall k :: k in done ==> k in before && k.contact == from)
    && (forall k :: k in now <==> k in before || Takes(k, done, from, to))
    && (forall k :: k in now ==> now[k] == if Takes(k, done, from, to) then Joined(before, k, from) else before[k])
  }

  lemma UpsertStep(before: AutomationState, now: AutomationState, done: set<StateKey>, row: StateKey,
    from: ContactId, to: ContactId)
    requires from != to && FoldedSoFar(before, now, done, from, to)
    requires row in before && row.contact == from && row !in done
    ensures row in now && FoldedSoFar(before, Upserted(now, row, to), done + {row}, from, to)
  {
    var target := row.(contact := to);
    assert target.(contact := from) == row && !Takes(target, done, from, to) && !Takes(row, done, from, to);
    forall k: StateKey
      ensures Takes(k, done + {row}, from, to) <==> Takes(k, done, from, to) || k == target
    {
      if k.contact == to && k.(contact := from) == row {
        assert k == row.(contact := to);
      }
    }
  }

  function RowsOf(state: AutomationState, contact: ContactId): set<StateKey>
  {
    set k | k in state && k.contact == contact
  }

  function Without(state: AutomationState, from: ContactId): AutomationState
  {
    map k | k in state && k.contact != from :: state[k]
  }

  lemma DeleteStep(before: AutomationState, now: AutomationState, done: set<StateKey>, from: ContactId, to: ContactId)
    requires from != to && FoldedSoFar(before, now, done, from, to)
    requires done == RowsOf(before, from)
    ensures FoldedIn(before, Without(now, from), from, to)
  {
    forall k: StateKey | k.contact == to
      ensures Takes(k, done, from, to) <==> k.(contact := from) in before
    {
    }
  }

  /** The secondary's rows still to fold are `rows`; the `moved` others are in `now`. */
  ghost predicate Folding(before: AutomationState, now: AutomationState, rows: set<StateKey>, moved: nat,
    from: ContactId, to: ContactId)
  {
    var all := RowsOf(before, from);
    rows <= all && moved == |all - rows| && FoldedSoFar(before, now, all - rows, from, to)
  }

  lemma FoldNone(before: AutomationState, from: ContactId, to: ContactId)
    ensures Folding(before, before, RowsOf(before, from), 0, from, to)
  {
    assert RowsOf(before, from) - RowsOf(before, from) == {};
  }

  lemma FoldOne(before: AutomationState, now: AutomationState, rows: set<StateKey>, moved: nat, row: StateKey,
    from: ContactId, to: ContactId)
    requires from != to && Folding(before, now, rows, moved, from, to) && row in rows
    ensures row in now && Folding(before, Upserted(now, row, to), rows - {row}, moved + 1, from, to)
  {
    var done := RowsOf(before, from) - rows;
    UpsertStep(before, now, done, row, from, to);
    assert RowsOf(before, from) - (rows - {row}) == done + {row};
  }

  lemma FoldAll(before: AutomationState, now: AutomationState, moved: nat, from: ContactId, to: ContactId)
    requires from != to && Folding(before, now, {}, moved, from, to)
    ensures moved == |RowsOf(before, from)| && FoldedIn(before, Without(now, from), from, to)
  {
    assert RowsOf(before, from) - {} == RowsOf(before, from);
    DeleteStep(before, now, RowsOf(before, from), from, to);
  }

  // Field values and tags -----------------------------------------------------------------

  datatype FieldKey = FieldKey(contact: ContactId, field: nat)

  type FieldValues = map<FieldKey, string>

  function ValueOf(values: FieldValues, contact: ContactId, field: nat): Option<string>
  {
    var k := FieldKey(contact, field);
    if k in values then Some(values[k]) else None
  }

  function ValuesOf(values: FieldValues, contact: ContactId): set<FieldKey>
  {
    set k | k in values && k.contact == contact
  }

  /** The rows the update rewrites: the secondary's, of fields the primary has no value for. */
  function Movable(values: FieldValues, primary: ContactId, secondary: ContactId): set<FieldKey>
  {
    set k | k in values && k.contact == secondary && k.(contact := primary) !in values
  }

  /** One row rewritten to the primary. */
  function Moved(values: FieldValues, row: FieldKey, primary: ContactId): FieldValues
    requires row in values
  {
    (values - {row})[row.(contact := primary) := values[row]]
  }

  /** The update with only the rows in `rows` still to rewrite. */
  ghost predicate MovedSoFar(before: FieldValues, now: FieldValues, rows: set<FieldKey>, primary: ContactId,
    secondary: ContactId)
  {
    && rows <= Movable(before, primary, secondary)
    && forall k: FieldKey :: (if k in now then Some(now[k]) else None) == MovedAt(before, k, rows, primary, secondary)
  }

  /** What a key holds by then. */
  function MovedAt(before: FieldValues, k: FieldKey, rows: set<FieldKey>, primary: ContactId, secondary: ContactId):
    Option<string>
  {
    var source := k.(contact := secondary);
    if k.contact == primary && source in Movable(before, primary, secondary) - rows then Some(before[source])
    else if k in Movable(before, primary, secondary) - rows || k !in before then None
    else Some(before[k])
  }

  lemma MoveStep(before: FieldValues, now: FieldValues, rows: set<FieldKey>, row: FieldKey, primary: ContactId,
    secondary: ContactId)
    requires primary != secondary && MovedSoFar(before, now, rows, primary, secondary) && row in rows
    ensures row in now && MovedSoFar(before, Moved(now, row, primary), rows - {row}, primary, secondary)
  {
    var target := row.(contact := primary);
    assert MovedAt(before, row, rows, primary, secondary) == Some(before[row]);
    assert target.(contact := secondary) == row;
    forall k: FieldKey
      ensures MovedAt(before, k, rows - {row}, primary, secondary) ==
        if k == target then Some(before[row]) else if k == row then None else MovedAt(before, k, rows, primary, secondary)
    {
      assert k.contact == primary && k.(contact := secondary) == row ==> k == target;
    }
  }

  /** The survivor has the secondary's values overlaid by its own; nothing is left behind. */
  ghost predicate Overlaid(before: FieldValues, after: FieldValues, primary: ContactId, secondary: ContactId)
  {
    forall contact, field :: ValueOf(after, contact, field) ==
      if contact == secondary then None
      else if contact == primary && ValueOf(before, primary, field).None? then ValueOf(before, secondary, field)
      else ValueOf(before, contact, field)
  }

  /** Once every row is rewritten, deleting what the secondary still has leaves the overlay. */
  lemma ValuesAreOverlaid(before: FieldValues, now: FieldValues, primary: ContactId, secondary: ContactId)
    requires primary != secondary && MovedSoFar(before, now, {}, primary, secondary)
    ensures Overlaid(before, now - ValuesOf(now, secondary), primary, secondary)
  {
    var after := now - ValuesOf(now, secondary);
    forall contact: ContactId, field: nat
      ensures ValueOf(after, contact, field) ==
        if contact == secondary then None
        else if contact == primary && ValueOf(before, primary, field).None? then ValueOf(before, secondary, field)
        else ValueOf(before, contact, field)
    {
      var k := FieldKey(contact, field);
      var source := k.(contact := secondary);
      assert source == FieldKey(secondary, field) && source.(contact := primary) == FieldKey(primary, field);
      assert contact != secondary ==> ValueOf(after, contact, field) == MovedAt(before, k, {}, primary, secondary);
    }
  }

  /** A tag list may hold values that are not strings; they are dropped. */
  datatype Tag = Text(tag: string) | Other

  /** Two tag lists as one: each string once, in the order first seen. */
  method MergeTags(a: seq<Tag>, b: seq<Tag>) returns (merged: seq<string>)
    ensures forall t :: t in merged <==> Text(t) in a + b
    ensures forall i, j :: 0 <= i < j < |merged| ==> merged[i] != merged[j]
    ensures InOrder(merged, a + b)
  {
    merged := [];
    var lists := a + b;
    ghost var firsts: seq<nat> := [];
    for i := 0 to |lists|
      invariant forall t :: t in merged <==> Text(t) in lists[..i]
      invariant forall k, l :: 0 <= k < l < |merged| ==> merged[k] != merged[l]
      invariant |firsts| == |merged|
      invariant forall k :: 0 <= k < |firsts| ==> firsts[k] < i && FirstAt(lists, firsts[k], merged[k])
      invariant forall k, l :: 0 <= k < l < |firsts| ==> firsts[k] < firsts[l]
    {
      var tag := lists[i];
      assert lists[..i + 1] == lists[..i] + [tag];
      if tag.Text? && tag.tag !in merged {
        assert forall k :: 0 <= k < i ==> lists[k] in lists[..i];
        firsts := firsts + [i];
        merged := merged + [tag.tag];
      }
    }
    assert lists[..|lists|] == lists;
    assert Places(firsts, merged, lists);
  }

  predicate FirstAt(list: seq<Tag>, i: nat, tag: string)
  {
    i < |list| && list[i] == Text(tag) && forall k :: 0 <= k < i ==> list[k] != Text(tag)
  }

  predicate Places(firsts: seq<nat>, merged: seq<string>, list: seq<Tag>)
  {
    && |firsts| == |merged|
    && (forall k :: 0 <= k < |firsts| ==> FirstAt(list, firsts[k], merged[k]))
    && (forall k, l :: 0 <= k < l < |firsts| ==> firsts[k] < firsts[l])
  }

  /** The merged tags come in the order of their first places in the list. */
  ghost predicate InOrder(merged: seq<string>, list: seq<Tag>)
  {
    exists firsts :: Places(firsts, merged, list)
  }

  // Work in flight --------------------------------------------------------------------------

  /** A handoff or a chatbot session. */
  datatype Work = Work(contact: ContactId, active: bool)

  predicate OneActive(work: seq<Work>)
  {
    forall i, j :: 0 <= i < j < |work| && work[i].active && work[j].active ==> work[i].contact != work[j].contact
  }

  predicate HasActive(work: seq<Work>, contact: ContactId)
  {
    exists i :: 0 <= i < |work| && work[i].active && work[i].contact == contact
  }

  /** Ends the secondary's work when the primary has its own, then moves everything. */
  function Consolidated(work: seq<Work>, primary: ContactId, secondary: ContactId): seq<Work>
  {
    var both := HasActive(work, primary);
    seq(|work|, i requires 0 <= i < |work| =>
      if work[i].contact != secondary then work[i]
      else Work(primary, work[i].active && !both))
  }

  /**
    At most one active handoff or session per contact is kept; the survivor has
    one exactly when either had; and work ends only when both did.
   */
  lemma OneActiveIsKept(work: seq<Work>, primary: ContactId, secondary: ContactId)
    requires primary != secondary && OneActive(work)
    ensures var after := Consolidated(work, primary, secondary);
      && OneActive(after)
      && !HasActive(after, secondary)
      && (HasActive(after, primary) <==> HasActive(work, primary) || HasActive(work, secondary))
      && forall i :: 0 <= i < |work| && work[i].active && !after[i].active ==>
           work[i].contact == secondary && HasActive(work, primary)
  {
    var after := Consolidated(work, primary, secondary);
    if i :| 0 <= i < |work| && work[i].active && work[i].contact == primary {
      assert after[i].active && after[i].contact == primary;
    }
    if !HasActive(work, primary) {
      if i :| 0 <= i < |work| && work[i].active && work[i].contact == secondary {
        assert after[i].active && after[i].contact == primary;
      }
    }
  }

  // The merge's own loops ---------------------------------------------------------------------

  class References {
    var tables: seq<Table>
    var automation: AutomationState
    var values: FieldValues
    var work: seq<Work>

    constructor (tables: seq<Table>, automation: AutomationState, values: FieldValues, work: seq<Work>)
      ensures this.tables == tables && this.automation == automation && this.values == values && this.work == work
    {
      this.tables, this.automation, this.values, this.work := tables, automation, values, work;
    }

    /** Repoints every table, and says how many rows of each it moved. */
    method RepointContact(from: ContactId, to: ContactId) returns (moved: map<nat, nat>)
      requires from != to
      modifies `tables
      ensures |tables| == |old(tables)|
      ensures forall t :: 0 <= t < |tables| ==>
        && tables[t].name == old(tables)[t].name
        && tables[t].contacts == RepointAll(old(tables)[t].contacts, from, to)
      ensures forall t :: t in moved <==> 0 <= t < |tables| && Count(old(tables)[t].contacts, from) > 0
      ensures forall t :: t in moved ==> moved[t] == Count(old(tables)[t].contacts, from)
    {
      moved := map[];
      for t := 0 to |tables|
        invariant |tables| == |old(tables)|
        invariant forall u :: t <= u < |tables| ==> tables[u] == old(tables)[u]
        invariant forall u :: 0 <= u < t ==>
          && tables[u].name == old(tables)[u].name
          && tables[u].contacts == RepointAll(old(tables)[u].contacts, from, to)
        invariant forall u :: u in moved <==> 0 <= u < t && Count(old(tables)[u].contacts, from) > 0
        invariant forall u :: u in moved ==> moved[u] == Count(old(tables)[u].contacts, from)
      {
        var contacts, affected := UpdateContacts(tables[t].contacts, from, to);
        tables := tables[t := tables[t].(contacts := contacts)];
        if affected > 0 {
          moved := moved[t := affected];
        }
      }
    }

    /** Folds the secondary's automation state into the primary's, row by row, then deletes the secondary's. */
    method RepointAutomationState(from: ContactId, to: ContactId) returns (moved: nat)
      requires from != to
      modifies `automation
      ensures FoldedIn(old(automation), automation, from, to)
      ensures moved == |RowsOf(old(automation), from)|
    {
      var rows := RowsOf(automation, from);
      var state := automation;
      moved := 0;
      FoldNone(state, from, to);
      while rows != {}
        invariant Folding(old(automation), state, rows, moved, from, to)
        decreases |rows|
      {
        var row: StateKey :| row in rows;
        FoldOne(old(automation), state, rows, moved, row, from, to);
        state := Upserted(state, row, to);
        moved := moved + 1;
        rows := rows - {row};
      }
      FoldAll(old(automation), state, moved, from, to);
      automation := Without(state, from);
    }

    /** Rewrites the secondary's values of fields the primary has none for, then deletes the secondary's others. */
    method MoveValues(primary: ContactId, secondary: ContactId)
      requires primary != secondary
      modifies `values
      ensures Overlaid(old(values), values, primary, secondary)
    {
      var rows := Movable(values, primary, secondary);
      ghost var before := values;
      while rows != {}
        invariant MovedSoFar(before, values, rows, primary, secondary)
        decreases |rows|
      {
        var row: FieldKey :| row in rows;
        MoveStep(before, values, rows, row, primary, secondary);
        values := Moved(values, row, primary);
        rows := rows - {row};
      }
      ValuesAreOverlaid(before, values, primary, secondary);
      values := values - ValuesOf(values, secondary);
    }

    /** Ends the secondary's active work when the primary has its own, then moves the secondary's. */
    method MoveWork(primary: ContactId, secondary: ContactId)
      requires primary != secondary
      modifies `work
      ensures work == Consolidated(old(work), primary, secondary)
    {
      var primaryActive := 0;
      for i := 0 to |work|
        invariant work == old(work)
        invariant primaryActive > 0 <==> HasActive(work[..i], primary)
        invariant 0 <= primaryActive
      {
        assert work[..i + 1] == work[..i] + [work[i]];
        ActiveAppend(work[..i], work[i], primary);
        if work[i].contact == primary && work[i].active {
          primaryActive := primaryActive + 1;
        }
      }
      assert work[..|work|] == work;
      for i := 0 to |work|
        invariant |work| == |old(work)|
        invariant forall k :: i <= k < |work| ==> work[k] == old(work)[k]
        invariant forall k :: 0 <= k < i ==> work[k] == Consolidated(old(work), primary, secondary)[k]
      {
        if work[i].contact == secondary {
          if primaryActive > 0 && work[i].active {
            work := work[i := work[i].(active := false)];
          }
          work := work[i := work[i].(contact := primary)];
        }
      }
    }
  }

  lemma ActiveAppend(work: seq<Work>, w: Work, contact: ContactId)
    ensures HasActive(work + [w], contact) <==> HasActive(work, contact) || (w.active && w.contact == contact)
  {
    if i :| 0 <= i < |work| && work[i].active && work[i].contact == contact {
      assert (work + [w])[i] == work[i];
    }
    if w.active && w.contact == contact {
      assert (work + [w])[|work|] == w;
    }
  }

  /** One table's update: the new contact column and the number of rows affected. */
  method UpdateContacts(contacts: seq<ContactId>, from: ContactId, to: ContactId)
    returns (updated: seq<ContactId>, affected: nat)
    ensures updated == RepointAll(contacts, from, to)
    ensures affected == Count(contacts, from)
  {
    updated, affected := [], 0;
    for i := 0 to |contacts|
      invariant updated == RepointAll(contacts[..i], from, to)
      invariant affected == Count(contacts[..i], from)
    {
      assert contacts[..i + 1][..i] == contacts[..i];
      if contacts[i] == from {
        updated := updated + [to];
        affected := affected + 1;
      } else {
        updated := updated + [contacts[i]];
      }
    }
    assert contacts[..|contacts|] == contacts;
  }
}
