/**
  Merging contacts: the secondary keeps its row, deleted, with a pointer to the
  primary, and everything that named it names the primary from then on. Deletion,
  restoration and merges mix freely.
 */
module ContactMerge {
  import opened Wrappers

  type Id = nat

  datatype Reason = NoReason | ByUser | ByAddressBookSync | ByMerge

  /** An identifier's type and normalised value, the unique key of the identity table. */
  datatype IdentityKey = PhoneKey(digits: string) | BsuidKey(value: string)

  /** `mergeNo` numbers the merge that set the pointer; no operation reads it. */
  datatype Contact = Contact(
    phone: string,
    bsuid: string,
    deleted: bool,
    reason: Reason,
    mergedInto: Option<Id>,
    mergeNo: nat)

  datatype State = State(rows: seq<Contact>, identities: map<IdentityKey, Id>, merges: nat)

  datatype MergeError = SameContact | NotFound | AlreadyMerged | SecondaryDeleted

  datatype Op =
    | Create(phone: string, bsuid: string)
    | Delete(id: Id, reason: Reason)
    | Merge(primary: Id, secondary: Id)
    | Restore(id: Id, seen: Contact)               // by a person; `seen`: the row when it was read
    | RestoreOnMessage(id: Id, seen: Contact)      // by an inbound message that may restore

  predicate Live(s: State, id: Id)
  {
    id < |s.rows| && !s.rows[id].deleted
  }

  predicate Merged(s: State, id: Id)
  {
    id < |s.rows| && s.rows[id].mergedInto.Some?
  }

  /** The checks of a merge, in the order they are made. */
  function Refusal(s: State, primary: Id, secondary: Id): Option<MergeError>
  {
    if primary == secondary then Some(SameContact)
    else if !Live(s, primary) then Some(NotFound)
    else if secondary >= |s.rows| then Some(NotFound)
    else if Merged(s, secondary) then Some(AlreadyMerged)
    else if !Live(s, secondary) then Some(SecondaryDeleted)
    else None
  }

  function Repointed(identities: map<IdentityKey, Id>, from: Id, to: Id): map<IdentityKey, Id>
  {
    map k | k in identities :: if identities[k] == from then to else identities[k]
  }

  /** An identity that is taken stays with whoever has it; an empty one is not recorded. */
  function Added(identities: map<IdentityKey, Id>, key: IdentityKey, id: Id): map<IdentityKey, Id>
  {
    if key in identities || key == PhoneKey("") || key == BsuidKey("") then identities else identities[key := id]
  }

  function Restored(s: State, id: Id): State
  {
    if id < |s.rows| then s.(rows := s.rows[id := s.rows[id].(deleted := false, reason := NoReason)]) else s
  }

  function Next(s: State, op: Op): State
  {
    match op
    case Create(phone, bsuid) => s.(rows := s.rows + [Contact(phone, bsuid, false, NoReason, None, 0)])
    case Delete(id, reason) =>
      if !Live(s, id) then s else s.(rows := s.rows[id := s.rows[id].(deleted := true, reason := reason)])
    case Merge(primary, secondary) =>
      if Refusal(s, primary, secondary).Some? then s
      else
        var gone := s.rows[secondary];
        State(
          s.rows[secondary := gone.(deleted := true, reason := ByMerge, mergedInto := Some(primary), mergeNo := s.merges)],
          Added(Added(Repointed(s.identities, secondary, primary), PhoneKey(gone.phone), primary),
                BsuidKey(gone.bsuid), primary),
          s.merges + 1)
    case Restore(id, seen) => if seen.mergedInto.Some? then s else Restored(s, id)
    case RestoreOnMessage(id, seen) =>
      if !seen.deleted || seen.reason == ByUser || seen.reason == ByMerge then s else Restored(s, id)
  }

  function Run(s: State, ops: seq<Op>): State
    decreases |ops|
  {
    if ops == [] then s else Run(Next(s, ops[0]), ops[1..])
  }

  // What a merge does -------------------------------------------------------------------

  /** Two different contacts, neither deleted nor merged. */
  predicate MayMerge(s: State, primary: Id, secondary: Id)
  {
    && primary != secondary && primary < |s.rows| && secondary < |s.rows|
    && !s.rows[primary].deleted && !s.rows[secondary].deleted && s.rows[secondary].mergedInto == None
  }

  /** A phone number or a BSUID the contact has. */
  predicate Names(c: Contact, key: IdentityKey)
  {
    match key
    case PhoneKey(digits) => digits == c.phone && digits != ""
    case BsuidKey(value) => value == c.bsuid && value != ""
  }

  /**
    A merge happens exactly between two such contacts. Only the secondary's row
    changes: deleted, and pointing at the primary. Whatever named the secondary,
    and its own number and BSUID too, names the primary, unless a third contact has
    it already; every other identity stays as it was.
   */
  lemma MergeExactly(s: State, primary: Id, secondary: Id)
    ensures var after := Next(s, Merge(primary, secondary));
      if !MayMerge(s, primary, secondary) then after == s
      else
        && |after.rows| == |s.rows|
        && (forall id :: 0 <= id < |s.rows| && id != secondary ==> after.rows[id] == s.rows[id])
        && after.rows[secondary].deleted && after.rows[secondary].reason == ByMerge
        && after.rows[secondary].mergedInto == Some(primary)
        && after.rows[secondary].phone == s.rows[secondary].phone && after.rows[secondary].bsuid == s.rows[secondary].bsuid
        && (forall k :: k in after.identities <==> k in s.identities || Names(s.rows[secondary], k))
        && (forall k :: k in after.identities ==>
              after.identities[k] ==
                if k in s.identities && s.identities[k] != secondary then s.identities[k] else primary)
  {
  }

  /**
    A restore brings a deleted contact back, and changes nothing else, exactly when
    the row it had read was not merged; one for an inbound message, exactly when
    that row was deleted, and neither by a person nor by a merge.
   */
  lemma RestoresExactly(s: State, id: Id, seen: Contact)
    requires id < |s.rows|
    ensures Next(s, Restore(id, seen)) ==
      if seen.mergedInto == None then s.(rows := s.rows[id := s.rows[id].(deleted := false, reason := NoReason)]) else s
    ensures Next(s, RestoreOnMessage(id, seen)) ==
      if seen.deleted && (seen.reason == NoReason || seen.reason == ByAddressBookSync)
      then s.(rows := s.rows[id := s.rows[id].(deleted := false, reason := NoReason)]) else s
  {
  }

  // What every operation keeps --------------------------------------------------------

  /** A contact merged later than `no`, or not merged. */
  predicate MergedAfter(s: State, id: Id, no: nat)
  {
    id < |s.rows| && (s.rows[id].mergedInto.Some? ==> no < s.rows[id].mergeNo)
  }

  predicate SoundRow(s: State, id: Id)
    requires id < |s.rows|
  {
    var c := s.rows[id];
    c.mergedInto.Some? ==>
      && c.deleted && c.reason == ByMerge
      && c.mergeNo < s.merges
      && MergedAfter(s, c.mergedInto.value, c.mergeNo)
  }

  ghost predicate Sound(s: State)
  {
    && (forall id :: 0 <= id < |s.rows| ==> SoundRow(s, id))
    && (forall k :: k in s.identities ==> s.identities[k] < |s.rows| && !Merged(s, s.identities[k]))
  }

  /**
    A restore writes the row whatever has become of it since it was read. Fresh:
    it has not been merged meanwhile, or the check refuses to restore anyway.
   */
  predicate Fresh(s: State, op: Op)
  {
    match op
    case Restore(id, seen) => seen.mergedInto.None? ==> !Merged(s, id)
    case RestoreOnMessage(id, seen) => seen.deleted && seen.reason != ByUser && seen.reason != ByMerge ==> !Merged(s, id)
    case _ => true
  }

  lemma MergeKeepsSound(s: State, primary: Id, secondary: Id)
    requires Sound(s)
    ensures Sound(Next(s, Merge(primary, secondary)))
  {
    var after := Next(s, Merge(primary, secondary));
    if Refusal(s, primary, secondary).None? {
      assert SoundRow(s, primary);
      forall id | 0 <= id < |s.rows|
        ensures SoundRow(after, id)
      {
        assert SoundRow(s, id);
      }
    }
  }

  /** Merged contacts stay deleted, in a forest, and lose their identities, exactly as long as restores are fresh. */
  lemma StepKeepsSound(s: State, op: Op)
    requires Sound(s)
    ensures Sound(Next(s, op)) <==> Fresh(s, op)
  {
    var after := Next(s, op);
    match op
    case Create(_, _) => PlainStepKeepsRows(s, op);
    case Delete(_, _) => PlainStepKeepsRows(s, op);
    case Merge(primary, secondary) => MergeKeepsSound(s, primary, secondary);
    case Restore(id, _) => RestoreKeepsSound(s, id);
    case RestoreOnMessage(id, _) => RestoreKeepsSound(s, id);
  }

  lemma PlainStepKeepsRows(s: State, op: Op)
    requires Sound(s) && (op.Create? || op.Delete?)
    ensures Sound(Next(s, op))
  {
    var after := Next(s, op);
    forall id | 0 <= id < |after.rows|
      ensures SoundRow(after, id)
    {
      if id < |s.rows| {
        assert SoundRow(s, id);
      }
    }
  }

  lemma RestoreKeepsSound(s: State, id: Id)
    requires Sound(s)
    ensures Sound(Restored(s, id)) <==> !Merged(s, id)
  {
    var after := Restored(s, id);
    if Merged(s, id) {
      assert !SoundRow(after, id);
    } else {
      forall i | 0 <= i < |s.rows|
        ensures SoundRow(after, i)
      {
        assert SoundRow(s, i);
      }
    }
  }

  predicate FreshRun(s: State, ops: seq<Op>)
    decreases |ops|
  {
    ops == [] || (Fresh(s, ops[0]) && FreshRun(Next(s, ops[0]), ops[1..]))
  }

  lemma {:induction false} EveryRunIsSound(s: State, ops: seq<Op>)
    requires Sound(s) && FreshRun(s, ops)
    ensures Sound(Run(s, ops))
    decreases |ops|
  {
    if ops != [] {
      StepKeepsSound(s, ops[0]);
      EveryRunIsSound(Next(s, ops[0]), ops[1..]);
    }
  }

  /** In particular, every history that starts with no contacts. */
  lemma FromNothing(ops: seq<Op>)
    requires FreshRun(State([], map[], 0), ops)
    ensures Sound(Run(State([], map[], 0), ops))
  {
    EveryRunIsSound(State([], map[], 0), ops);
  }

  /** A merge pointer, once written, is never written again, fresh restores or not. */
  lemma {:induction false} PointersAreFinal(s: State, ops: seq<Op>, id: Id)
    requires Merged(s, id)
    ensures Merged(Run(s, ops), id) && Run(s, ops).rows[id].mergedInto == s.rows[id].mergedInto
    ensures Run(s, ops).rows[id].mergeNo == s.rows[id].mergeNo
    decreases |ops|
  {
    if ops != [] {
      PointersAreFinal(Next(s, ops[0]), ops[1..], id);
    }
  }

  // The forest ------------------------------------------------------------------------

  /** The contact that stands for `id` today: the end of its chain of pointers. */
  function Survivor(s: State, id: Id): (root: Id)
    requires Sound(s) && id < |s.rows|
    ensures root < |s.rows| && !Merged(s, root)
    decreases if Merged(s, id) then s.merges - s.rows[id].mergeNo else 0
  {
    if Merged(s, id) then
      assert SoundRow(s, id);
      var next := s.rows[id].mergedInto.value;
      assert Merged(s, next) ==> SoundRow(s, next);
      Survivor(s, next)
    else id
  }

  /** `k` pointers on from `id`, if there are that many. */
  function Follow(s: State, id: Id, k: nat): Option<Id>
    requires Sound(s) && id < |s.rows|
    ensures Follow(s, id, k).Some? ==> Follow(s, id, k).value < |s.rows|
  {
    if k == 0 then Some(id)
    else
      match Follow(s, id, k - 1)
      case None => None
      case Some(at) => assert SoundRow(s, at); s.rows[at].mergedInto
  }

  /** Pointers lead to contacts merged later, so no chain comes back to where it started. */
  lemma {:induction false} NoCycle(s: State, id: Id, k: nat)
    requires Sound(s) && id < |s.rows| && k > 0 && Follow(s, id, k).Some?
    ensures Merged(s, id) && MergedAfter(s, Follow(s, id, k).value, s.rows[id].mergeNo)
    ensures Follow(s, id, k).value != id
  {
    if k == 1 {
      assert Follow(s, id, 0) == Some(id);
      assert SoundRow(s, id);
    } else {
      NoCycle(s, id, k - 1);
      assert SoundRow(s, Follow(s, id, k - 1).value);
    }
  }

  lemma {:induction false} SurvivorStep(s: State, op: Op, id: Id)
    requires Sound(s) && Fresh(s, op) && Sound(Next(s, op)) && id < |s.rows|
    ensures |Next(s, op).rows| >= |s.rows|
    ensures Survivor(Next(s, op), id) == Survivor(Next(s, op), Survivor(s, id))
    decreases if Merged(s, id) then s.merges - s.rows[id].mergeNo else 0
  {
    if Merged(s, id) {
      assert SoundRow(s, id);
      var next := s.rows[id].mergedInto.value;
      assert Merged(s, next) ==> SoundRow(s, next);
      SurvivorStep(s, op, next);
      assert Next(s, op).rows[id].mergedInto == Some(next);
    }
  }

  /** Where an identity points after one operation: at the survivor of the contact it named. */
  lemma {:induction false} IdentityStep(s: State, op: Op, key: IdentityKey)
    requires Sound(s) && Fresh(s, op) && Sound(Next(s, op)) && key in s.identities
    ensures key in Next(s, op).identities
    ensures Next(s, op).identities[key] == Survivor(Next(s, op), s.identities[key])
  {
  }

  /**
    However many merges chain, an identity that once named a contact always names
    that contact's survivor, and so never a merged one.
   */
  lemma {:induction false} IdentityFollowsMerges(s: State, ops: seq<Op>, key: IdentityKey)
    requires Sound(s) && FreshRun(s, ops) && Sound(Run(s, ops)) && key in s.identities
    ensures |Run(s, ops).rows| >= |s.rows|
    ensures key in Run(s, ops).identities
    ensures Run(s, ops).identities[key] == Survivor(Run(s, ops), s.identities[key])
    decreases |ops|
  {
    if ops != [] {
      var next := Next(s, ops[0]);
      StepKeepsSound(s, ops[0]);
      IdentityStep(s, ops[0], key);
      IdentityFollowsMerges(next, ops[1..], key);
      SurvivorRun(next, ops[1..], s.identities[key]);
    }
  }

  lemma {:induction false} SurvivorRun(s: State, ops: seq<Op>, id: Id)
    requires Sound(s) && FreshRun(s, ops) && Sound(Run(s, ops)) && id < |s.rows|
    ensures |Run(s, ops).rows| >= |s.rows|
    ensures Survivor(Run(s, ops), id) == Survivor(Run(s, ops), Survivor(s, id))
    decreases |ops|
  {
    if ops != [] {
      var next := Next(s, ops[0]);
      StepKeepsSound(s, ops[0]);
      SurvivorStep(s, ops[0], id);
      SurvivorRun(next, ops[1..], id);
      SurvivorRun(next, ops[1..], Survivor(s, id));
    }
  }

  // Finding a contact by its own number -------------------------------------------------

  datatype Resolution = FollowedMerge(survivor: Id) | Found | MayRestore | NeverRestored

  /** What an inbound message does with the row its number matched: at most one pointer is followed. */
  function ResolveExisting(s: State, id: Id): Resolution
    requires id < |s.rows|
  {
    var c := s.rows[id];
    if c.mergedInto.Some? && Live(s, c.mergedInto.value) then FollowedMerge(c.mergedInto.value)
    else if !c.deleted then Found
    else if c.reason == ByUser || c.reason == ByMerge then NeverRestored
    else MayRestore
  }

  /**
    A merged contact is never found nor restored. Its survivor is found exactly
    when the contact it was merged into is still live; one merge further on, the
    message gets a new contact instead.
   */
  lemma MergedIsNeverFound(s: State, id: Id)
    requires Sound(s) && Merged(s, id)
    ensures ResolveExisting(s, id) ==
      if Live(s, s.rows[id].mergedInto.value) then FollowedMerge(Survivor(s, id)) else NeverRestored
  {
    assert SoundRow(s, id);
    var next := s.rows[id].mergedInto.value;
    assert SoundRow(s, next);
  }

  /** A contact that is not merged is found while it is live; deleted, it may come back unless a person or a merge deleted it. */
  lemma UnmergedIsFound(s: State, id: Id)
    requires id < |s.rows| && !Merged(s, id)
    ensures ResolveExisting(s, id) == Found <==> Live(s, id)
    ensures ResolveExisting(s, id) == MayRestore <==>
      !Live(s, id) && s.rows[id].reason != ByUser && s.rows[id].reason != ByMerge
  {
  }

  // The service -------------------------------------------------------------------------

  class Service {
    var rows: seq<Contact>
    var identities: map<IdentityKey, Id>
    var merges: nat

    constructor ()
      ensures Contents() == State([], map[], 0)
    {
      rows, identities, merges := [], map[], 0;
    }

    ghost function Contents(): State
      reads this
    {
      State(rows, identities, merges)
    }

    method Merge(primary: Id, secondary: Id) returns (error: Option<MergeError>)
      modifies this
      ensures error == Refusal(old(Contents()), primary, secondary)
      ensures error == None <==> MayMerge(old(Contents()), primary, secondary)
      ensures error == Some(SameContact) <==> primary == secondary
      ensures error == Some(AlreadyMerged) ==> old(rows)[secondary].mergedInto.Some?
      ensures error == Some(SecondaryDeleted) ==> old(rows)[secondary].deleted && old(rows)[secondary].mergedInto.None?
      ensures Contents() == Next(old(Contents()), Op.Merge(primary, secondary))
    {
      if primary == secondary {
        return Some(SameContact);
      }
      if primary >= |rows| || rows[primary].deleted {
        return Some(NotFound);
      }
      if secondary >= |rows| {
        return Some(NotFound);
      }
      var gone := rows[secondary];
      if gone.mergedInto.Some? {
        return Some(AlreadyMerged);
      }
      if gone.deleted {
        return Some(SecondaryDeleted);
      }
      identities := map k | k in identities :: if identities[k] == secondary then primary else identities[k];
      AddIdentity(PhoneKey(gone.phone), primary);
      if gone.bsuid != "" {
        AddIdentity(BsuidKey(gone.bsuid), primary);
      }
      rows := rows[secondary :=
        gone.(mergedInto := Some(primary), reason := ByMerge, deleted := true, mergeNo := merges)];
      merges := merges + 1;
      return None;
    }

    method AddIdentity(key: IdentityKey, id: Id)
      modifies `identities
      ensures identities == Added(old(identities), key, id)
    {
      if key == PhoneKey("") || key == BsuidKey("") {
        return;
      }
      if key !in identities {
        identities := identities[key := id];
      }
    }

    method Delete(id: Id, reason: Reason) returns (found: bool)
      modifies this
      ensures found == Live(old(Contents()), id)
      ensures Contents() == Next(old(Contents()), Op.Delete(id, reason))
    {
      found := id < |rows| && !rows[id].deleted;
      if found {
        rows := rows[id := rows[id].(deleted := true, reason := reason)];
      }
    }

    /** `seen` is the row as it was read; the write clears the deletion of whatever the row has become. */
    method Restore(id: Id, seen: Contact) returns (restored: bool)
      requires id < |rows|
      modifies this
      ensures Contents() == Next(old(Contents()), Op.Restore(id, seen))
      ensures restored <==> seen.mergedInto.None?
      ensures seen == old(rows)[id] ==> Fresh(old(Contents()), Op.Restore(id, seen))
    {
      restored := seen.mergedInto.None?;
      if restored {
        rows := rows[id := rows[id].(deleted := false, reason := NoReason)];
      }
    }
  }

  // Where it fails ------------------------------------------------------------------------

  function Plain(phone: string): Contact
  {
    Contact(phone, "", false, NoReason, None, 0)
  }

  /** Two contacts; somebody's restore of the second has read its row; it is merged away; the restore writes. */
  function StaleRestore(): seq<Op>
  {
    [Create("1", ""), Create("2", ""), Merge(0, 1), Restore(1, Plain("2"))]
  }

  lemma RestoreRevivesAMergedContact()
    ensures var s := Run(State([], map[], 0), StaleRestore());
      |s.rows| == 2 && Merged(s, 1) && Live(s, 1) && !Sound(s)
  {
    var start := State([], map[], 0);
    var two := State([Plain("1"), Plain("2")], map[], 0);
    TwoContacts();
    var merged := Next(two, Merge(0, 1));
    var revived := Next(merged, Restore(1, Plain("2")));
    var ops := StaleRestore();
    assert ops == [Create("1", ""), Create("2", "")] + [Merge(0, 1), Restore(1, Plain("2"))];
    RunConcat(start, [Create("1", ""), Create("2", "")], [Merge(0, 1), Restore(1, Plain("2"))]);
    TwoOps(two, Merge(0, 1), Restore(1, Plain("2")));
    assert !SoundRow(revived, 1);
  }

  lemma TwoOps(s: State, first: Op, second: Op)
    ensures Run(s, [first, second]) == Next(Next(s, first), second)
  {
    assert [first, second][1..] == [second] && [second][1..] == [];
    var next := Next(s, first);
    assert Run(s, [first, second]) == Run(next, [second]) == Run(Next(next, second), []);
  }

  lemma TwoContacts()
    ensures Run(State([], map[], 0), [Create("1", ""), Create("2", "")]) == State([Plain("1"), Plain("2")], map[], 0)
  {
    TwoOps(State([], map[], 0), Create("1", ""), Create("2", ""));
    var one := Next(State([], map[], 0), Create("1", ""));
    assert one.rows == [Plain("1")];
    assert Next(one, Create("2", "")).rows == [Plain("1"), Plain("2")];
  }

  lemma {:induction false} RunConcat(s: State, a: seq<Op>, b: seq<Op>)
    ensures Run(s, a + b) == Run(Run(s, a), b)
    decreases |a|
  {
    if a == [] {
      assert a + b == b;
    } else {
      assert (a + b)[0] == a[0] && (a + b)[1..] == a[1..] + b;
      RunConcat(Next(s, a[0]), a[1..], b);
    }
  }

  function ThreeContacts(): seq<Op>
  {
    [Create("1", ""), Create("2", "")] + [Create("3", "")]
  }

  function TwoMerges(): seq<Op>
  {
    [Merge(1, 0), Merge(2, 1)]
  }

  lemma {:induction false} ThreeAreThere()
    ensures Run(State([], map[], 0), ThreeContacts()) == State([Plain("1"), Plain("2"), Plain("3")], map[], 0)
  {
    var two := State([Plain("1"), Plain("2")], map[], 0);
    TwoContacts();
    RunConcat(State([], map[], 0), [Create("1", ""), Create("2", "")], [Create("3", "")]);
    assert [Create("3", "")][1..] == [];
    assert Run(two, [Create("3", "")]) == Next(two, Create("3", ""));
    assert Next(two, Create("3", "")).rows == [Plain("1"), Plain("2"), Plain("3")];
  }

  /** The first merged into the second, and that into the third, which is live. */
  lemma ChainedMerges(three: State)
    requires three.rows == [Plain("1"), Plain("2"), Plain("3")] && Sound(three)
    ensures var s := Next(Next(three, Merge(1, 0)), Merge(2, 1));
      && |s.rows| == 3 && Sound(s) && Live(s, 2)
      && Survivor(s, 0) == 2 && ResolveExisting(s, 0) == NeverRestored
  {
    MergeKeepsSound(three, 1, 0);
    var one := Next(three, Merge(1, 0));
    MergeKeepsSound(one, 2, 1);
    var two := Next(one, Merge(2, 1));
    assert two.rows[0].mergedInto == Some(1) && two.rows[1].mergedInto == Some(2) && two.rows[2].mergedInto == None;
    assert Survivor(two, 2) == 2;
    assert Survivor(two, 1) == 2;
    assert Survivor(two, 0) == 2;
  }

  /**
    From no contacts: three are created, the first merged into the second and that
    into the third. The third is the first one's survivor and live, and a message
    for the first finds neither.
   */
  lemma SecondHopIsNotFollowed()
    ensures var s := Run(State([], map[], 0), ThreeContacts() + TwoMerges());
      && |s.rows| == 3 && Sound(s) && Live(s, 2)
      && Survivor(s, 0) == 2 && ResolveExisting(s, 0) == NeverRestored
  {
    var three := State([Plain("1"), Plain("2"), Plain("3")], map[], 0);
    ThreeAreThere();
    RunConcat(State([], map[], 0), ThreeContacts(), TwoMerges());
    TwoOps(three, Merge(1, 0), Merge(2, 1));
    ChainedMerges(three);
  }
}
