/**
  Team assignment: round robin by the oldest assignment, load balancing by the
  smallest count, and the rotation that offers a call to one agent after another.
  Which agents are active and available is read afresh each time, so it is an
  argument; the cached member list is the member table's.
 */
module Assignment {
  import opened Wrappers

  type UserId = nat
  type Time = int

  datatype Member = Member(user: UserId, lastAssigned: Option<Time>)

  datatype Strategy = RoundRobin | LoadBalanced | Manual

  ghost predicate DistinctUsers(members: seq<Member>)
  {
    forall i, j :: 0 <= i < j < |members| ==> members[i].user != members[j].user
  }

  predicate IsMember(members: seq<Member>, user: UserId)
  {
    exists i :: 0 <= i < |members| && members[i].user == user
  }

  /** Oldest assignment first, never assigned before that. */
  predicate Earlier(a: Option<Time>, b: Option<Time>)
  {
    b.Some? && (a.None? || a.value < b.value)
  }

  predicate Candidate(members: seq<Member>, i: nat, available: set<UserId>)
  {
    i < |members| && members[i].user in available
  }

  /** The first of the longest-unassigned candidates among the first `n` members. */
  function Oldest(members: seq<Member>, available: set<UserId>, n: nat): (pick: Option<nat>)
    requires n <= |members|
    ensures pick.Some? ==> pick.value < n && Candidate(members, pick.value, available)
    ensures pick.Some? ==> (
      forall i :: 0 <= i < n && Candidate(members, i, available) ==>
        !Earlier(members[i].lastAssigned, members[pick.value].lastAssigned))
    ensures pick.None? ==> forall i :: 0 <= i < n ==> !Candidate(members, i, available)
  {
    if n == 0 then None
    else
      var best := Oldest(members, available, n - 1);
      if Candidate(members, n - 1, available)
         && (best.None? || Earlier(members[n - 1].lastAssigned, members[best.value].lastAssigned))
      then Some(n - 1) else best
  }

  function Stamped(members: seq<Member>, i: nat, now: Time): seq<Member>
    requires i < |members|
  {
    members[i := members[i].(lastAssigned := Some(now))]
  }

  /**
    Whom the round robin picks: with anyone available, a member who was never
    assigned if there is one, the first of them; otherwise the first of those whose
    last assignment lies furthest back.
   */
  lemma {:induction false} NeverAssignedFirst(members: seq<Member>, available: set<UserId>, n: nat)
    requires n <= |members|
    ensures match Oldest(members, available, n)
      case None => forall i :: 0 <= i < n ==> members[i].user !in available
      case Some(pick) =>
        && pick < n && members[pick].user in available
        && (members[pick].lastAssigned.Some? ==>
              forall i :: 0 <= i < n && members[i].user in available ==>
                && members[i].lastAssigned.Some?
                && members[pick].lastAssigned.value <= members[i].lastAssigned.value
                && (i < pick ==> members[pick].lastAssigned.value < members[i].lastAssigned.value))
        && (members[pick].lastAssigned.None? ==>
              forall i :: 0 <= i < pick && members[i].user in available ==> members[i].lastAssigned.Some?)
  {
    if n > 0 {
      NeverAssignedFirst(members, available, n - 1);
    }
  }

  // Round robin is fair ---------------------------------------------------------------

  /** The users picked at these times, one after the other, while the same agents are available. */
  function Picks(members: seq<Member>, available: set<UserId>, times: seq<Time>): seq<UserId>
    decreases |times|
  {
    if times == [] then []
    else
      var pick := Oldest(members, available, |members|);
      if pick.None? then []
      else [members[pick.value].user] + Picks(Stamped(members, pick.value, times[0]), available, times[1..])
  }

  /** The clock is past every assignment so far and never stands still. */
  predicate Increasing(members: seq<Member>, times: seq<Time>)
  {
    && (forall i, k :: 0 <= i < |members| && 0 <= k < |times| ==> Earlier(members[i].lastAssigned, Some(times[k])))
    && (forall j, k :: 0 <= j < k < |times| ==> times[j] < times[k])
  }

  /** `picked` are the available members assigned since `start`. */
  ghost predicate Window(members: seq<Member>, available: set<UserId>, picked: set<UserId>, start: Time)
  {
    && picked <= available
    && forall i :: 0 <= i < |members| && members[i].user in available ==>
         (members[i].user in picked <==> !Earlier(members[i].lastAssigned, Some(start)))
  }

  /** Different agents, none of them picked before. */
  ghost predicate New(picks: seq<UserId>, available: set<UserId>, picked: set<UserId>)
  {
    && (forall k :: 0 <= k < |picks| ==> picks[k] in available && picks[k] !in picked)
    && (forall j, k :: 0 <= j < k < |picks| ==> picks[j] != picks[k])
  }

  lemma PrependNew(user: UserId, picks: seq<UserId>, available: set<UserId>, picked: set<UserId>)
    requires user in available && user !in picked && New(picks, available, picked + {user})
    ensures New([user] + picks, available, picked)
  {
  }

  lemma {:induction false} PicksAreNew(members: seq<Member>, available: set<UserId>, times: seq<Time>,
    picked: set<UserId>, start: Time)
    requires DistinctUsers(members) && (forall u :: u in available ==> IsMember(members, u))
    requires Increasing(members, times) && (forall k :: 0 <= k < |times| ==> start <= times[k])
    requires Window(members, available, picked, start)
    requires |times| <= |available| - |picked|
    ensures |Picks(members, available, times)| == |times| && New(Picks(members, available, times), available, picked)
    decreases |times|
  {
    if times != [] {
      var pick := PickIsNew(members, available, picked, start);
      var user := members[pick].user;
      StampKeepsWindow(members, available, times, picked, start, pick);
      var rest := Picks(Stamped(members, pick, times[0]), available, times[1..]);
      PicksAreNew(Stamped(members, pick, times[0]), available, times[1..], picked + {user}, start);
      PrependNew(user, rest, available, picked);
    }
  }

  lemma PickIsNew(members: seq<Member>, available: set<UserId>, picked: set<UserId>, start: Time) returns (pick: nat)
    requires forall u :: u in available ==> IsMember(members, u)
    requires Window(members, available, picked, start) && |picked| < |available|
    ensures Oldest(members, available, |members|) == Some(pick)
    ensures pick < |members| && members[pick].user in available && members[pick].user !in picked
  {
    var waiting := SomeoneWaiting(available, picked);
    var at: nat :| at < |members| && members[at].user == waiting;
    assert Candidate(members, at, available);
    pick := Oldest(members, available, |members|).value;
  }

  lemma StampKeepsWindow(members: seq<Member>, available: set<UserId>, times: seq<Time>, picked: set<UserId>,
    start: Time, pick: nat)
    requires DistinctUsers(members) && (forall u :: u in available ==> IsMember(members, u))
    requires times != [] && Increasing(members, times) && start <= times[0]
    requires Window(members, available, picked, start)
    requires Candidate(members, pick, available)
    ensures var after := Stamped(members, pick, times[0]);
      && DistinctUsers(after) && (forall u :: u in available ==> IsMember(after, u))
      && Increasing(after, times[1..])
      && Window(after, available, picked + {members[pick].user}, start)
  {
    var after := Stamped(members, pick, times[0]);
    forall u | u in available
      ensures IsMember(after, u)
    {
      var i: nat :| i < |members| && members[i].user == u;
      assert after[i].user == u;
    }
  }

  lemma SomeoneWaiting(available: set<UserId>, picked: set<UserId>) returns (user: UserId)
    requires picked <= available && |picked| < |available|
    ensures user in available && user !in picked
  {
    assert available * picked == picked;
    assert |available - picked| > 0;
    user :| user in available - picked;
  }

  /**
    While the same `n` agents are available and the clock moves on, any `n`
    consecutive picks are `n` different agents: each of them once.
   */
  lemma {:induction false} RoundRobinIsFair(members: seq<Member>, available: set<UserId>, times: seq<Time>)
    requires DistinctUsers(members) && (forall u :: u in available ==> IsMember(members, u))
    requires Increasing(members, times) && |times| == |available|
    ensures var picks := Picks(members, available, times);
      && |picks| == |available|
      && (forall j, k :: 0 <= j < k < |picks| ==> picks[j] != picks[k])
      && (forall u :: u in available <==> u in picks)
  {
    if times != [] {
      PicksAreNew(members, available, times, {}, times[0]);
      var picks := Picks(members, available, times);
      DistinctCover(picks, available);
    } else {
      assert available == {};
    }
  }

  lemma {:induction false} DistinctCover(picks: seq<UserId>, available: set<UserId>)
    requires |picks| == |available|
    requires forall k :: 0 <= k < |picks| ==> picks[k] in available
    requires forall j, k :: 0 <= j < k < |picks| ==> picks[j] != picks[k]
    ensures forall u :: u in available <==> u in picks
    decreases |picks|
  {
    if picks != [] {
      var last := picks[|picks| - 1];
      DistinctCover(picks[..|picks| - 1], available - {last});
      assert picks == picks[..|picks| - 1] + [last];
    } else {
      assert available == {};
    }
  }

  // Load balancing is even ----------------------------------------------------------------

  /** The first of the least loaded among the first `n` of `available`. */
  function Lightest(available: seq<UserId>, load: map<UserId, nat>, n: nat): (pick: Option<UserId>)
    requires n <= |available|
    ensures pick.None? <==> n == 0
    ensures pick.Some? ==> pick.value in available[..n]
    ensures pick.Some? ==> forall i :: 0 <= i < n ==> LoadOf(load, pick.value) <= LoadOf(load, available[i])
  {
    if n == 0 then None
    else
      var best := Lightest(available, load, n - 1);
      assert available[..n] == available[..n - 1] + [available[n - 1]];
      if best.None? || LoadOf(load, available[n - 1]) < LoadOf(load, best.value) then Some(available[n - 1]) else best
  }

  /** Agents without a row in the count have nothing. */
  function LoadOf(load: map<UserId, nat>, user: UserId): nat
  {
    if user in load then load[user] else 0
  }

  ghost predicate IsLightest(users: set<UserId>, load: map<UserId, nat>, pick: UserId)
  {
    pick in users && forall u :: u in users ==> LoadOf(load, pick) <= LoadOf(load, u)
  }

  ghost predicate Within(users: set<UserId>, load: map<UserId, nat>, spread: nat)
  {
    forall u, v :: u in users && v in users ==> LoadOf(load, u) <= LoadOf(load, v) + spread
  }

  function Times(items: seq<UserId>, user: UserId): nat
  {
    if items == [] then 0
    else Times(items[..|items| - 1], user) + if items[|items| - 1] == user then 1 else 0
  }

  /** The counting query: of the open items, named by their agents, how many each agent has; no row for none. */
  function Counted(items: seq<UserId>): map<UserId, nat>
  {
    map u | u in items :: Times(items, u)
  }

  lemma {:induction false} NoneCounted(items: seq<UserId>, user: UserId)
    ensures LoadOf(Counted(items), user) == Times(items, user)
  {
    if items != [] {
      NoneCounted(items[..|items| - 1], user);
      assert items == items[..|items| - 1] + [items[|items| - 1]];
    }
  }

  lemma OneMoreItem(items: seq<UserId>, pick: UserId, user: UserId)
    ensures LoadOf(Counted(items + [pick]), user) == LoadOf(Counted(items), user) + if user == pick then 1 else 0
  {
    NoneCounted(items, user);
    NoneCounted(items + [pick], user);
    assert (items + [pick])[..|items|] == items;
  }

  /** The agents `n` items in a row go to, counting again before each. */
  function LightPicks(available: seq<UserId>, items: seq<UserId>, n: nat): (picks: seq<UserId>)
    requires available != []
    ensures |picks| == n
    decreases n, |items|
  {
    if n == 0 then []
    else
      var pick := Lightest(available, Counted(items), |available|).value;
      [pick] + LightPicks(available, items + [pick], n - 1)
  }

  lemma PickKeepsWithin(users: set<UserId>, items: seq<UserId>, pick: UserId, spread: nat)
    requires spread >= 1 && Within(users, Counted(items), spread) && IsLightest(users, Counted(items), pick)
    ensures Within(users, Counted(items + [pick]), spread)
  {
    forall u, v | u in users && v in users
      ensures LoadOf(Counted(items + [pick]), u) <= LoadOf(Counted(items + [pick]), v) + spread
    {
      OneMoreItem(items, pick, u);
      OneMoreItem(items, pick, v);
      assert LoadOf(Counted(items), pick) <= LoadOf(Counted(items), v);
    }
  }

  function Agents(available: seq<UserId>): set<UserId>
  {
    set u | u in available
  }

  lemma TheLightest(available: seq<UserId>, load: map<UserId, nat>)
    requires available != []
    ensures IsLightest(Agents(available), load, Lightest(available, load, |available|).value)
  {
    assert available[..|available|] == available;
    forall u | u in available
      ensures LoadOf(load, Lightest(available, load, |available|).value) <= LoadOf(load, u)
    {
      var i: nat :| i < |available| && available[i] == u;
    }
  }

  lemma PutFirst(items: seq<UserId>, pick: UserId, rest: seq<UserId>)
    ensures items + ([pick] + rest) == (items + [pick]) + rest
  {
  }

  /** Loads within any bound of each other stay within it, however many items are assigned: within one once they are. */
  lemma {:induction false} LoadsStayEven(available: seq<UserId>, items: seq<UserId>, n: nat, spread: nat)
    requires available != [] && spread >= 1 && Within(Agents(available), Counted(items), spread)
    ensures Within(Agents(available), Counted(items + LightPicks(available, items, n)), spread)
    decreases n
  {
    if n == 0 {
      assert items + [] == items;
    } else {
      var pick := Lightest(available, Counted(items), |available|).value;
      TheLightest(available, Counted(items));
      PickKeepsWithin(Agents(available), items, pick, spread);
      LoadsStayEven(available, items + [pick], n - 1, spread);
      PutFirst(items, pick, LightPicks(available, items + [pick], n - 1));
    }
  }

  ghost function Eligible(members: seq<Member>, available: set<UserId>, exclude: seq<UserId>): set<UserId>
  {
    set u | u in available && u !in exclude && IsMember(members, u)
  }

  // A team's strategy -------------------------------------------------------------------------

  /** A candidate nobody else among the candidates has been waiting longer than. */
  ghost predicate IsOldest(members: seq<Member>, users: set<UserId>, pick: UserId)
  {
    exists i: nat :: Candidate(members, i, users) && members[i].user == pick && WaitsLongest(members, users, i)
  }

  predicate WaitsLongest(members: seq<Member>, users: set<UserId>, i: nat)
    requires i < |members|
  {
    forall j :: 0 <= j < |members| && Candidate(members, j, users) ==>
      !Earlier(members[j].lastAssigned, members[i].lastAssigned)
  }

  /** The pick the team's strategy allows. */
  ghost predicate PicksBy(strategy: Strategy, members: seq<Member>, available: set<UserId>, exclude: seq<UserId>,
    load: map<UserId, nat>, pick: UserId)
  {
    var users := Eligible(members, available, exclude);
    match strategy
    case RoundRobin => IsOldest(members, users, pick)
    case LoadBalanced => IsLightest(users, load, pick)
    case Manual => false
  }

  /** The member rows after a pick: round robin stamps the one picked. */
  function AfterPick(strategy: Strategy, members: seq<Member>, pick: UserId, now: Time): seq<Member>
  {
    if strategy.RoundRobin? then
      seq(|members|, i requires 0 <= i < |members| =>
        if members[i].user == pick then members[i].(lastAssigned := Some(now)) else members[i])
    else members
  }

  /** The member rows after these offers, the first of them at `start`. */
  function AfterPicks(strategy: Strategy, members: seq<Member>, picks: seq<UserId>, start: Time): seq<Member>
  {
    if picks == [] then members
    else
      var last := |picks| - 1;
      AfterPick(strategy, AfterPicks(strategy, members, picks[..last], start), picks[last], start + last)
  }

  /** What one attempt of the rotation finds: whether the transfer still waits, who is available, and their loads. */
  datatype Round = Round(waiting: bool, available: set<UserId>, load: map<UserId, nat>)

  /** Each offer was made while the transfer waited, to a pick of the team's strategy among those not tried before. */
  ghost predicate OffersBy(strategy: Strategy, members: seq<Member>, view: nat -> Round, tried: seq<UserId>, start: Time)
  {
    forall k :: 0 <= k < |tried| ==> OfferBy(strategy, members, view, tried, start, k)
  }

  ghost predicate OfferBy(strategy: Strategy, members: seq<Member>, view: nat -> Round, tried: seq<UserId>, start: Time,
    k: nat)
    requires k < |tried|
  {
    && view(k).waiting
    && PicksBy(strategy, AfterPicks(strategy, members, tried[..k], start), view(k).available, tried[..k], view(k).load,
               tried[k])
  }

  lemma OneMoreOffer(strategy: Strategy, members: seq<Member>, view: nat -> Round, tried: seq<UserId>, start: Time,
    pick: UserId)
    requires OffersBy(strategy, members, view, tried, start) && view(|tried|).waiting
    requires var now := view(|tried|);
      PicksBy(strategy, AfterPicks(strategy, members, tried, start), now.available, tried, now.load, pick)
    ensures OffersBy(strategy, members, view, tried + [pick], start)
    ensures AfterPicks(strategy, members, tried + [pick], start) ==
            AfterPick(strategy, AfterPicks(strategy, members, tried, start), pick, start + |tried|)
  {
    var more := tried + [pick];
    assert more[..|tried|] == tried;
    forall k | 0 <= k < |more|
      ensures OfferBy(strategy, members, view, more, start, k)
    {
      if k < |tried| {
        assert OfferBy(strategy, members, view, tried, start, k);
        assert more[..k] == tried[..k];
      }
    }
  }

  // The assigner ------------------------------------------------------------------------------

  /** How an agent a call is offered to behaves. */
  datatype Agent = Offline | Accepts | Ignores

  datatype Outcome = AcceptedBy(user: UserId) | NoLongerWaiting | NobodyOnline | Broadcast(users: seq<UserId>)

  /** Why the offers stop; `Deadline` while they go on. */
  datatype Ending = Accepted | Gone | NobodyLeft | Deadline

  /** What the offers found when they stopped. */
  ghost predicate EndedBy(ending: Ending, strategy: Strategy, members: seq<Member>, view: nat -> Round,
    tried: seq<UserId>)
  {
    match ending
    case Accepted => true
    case Deadline => true
    case Gone => !view(|tried|).waiting
    case NobodyLeft =>
      view(|tried|).waiting && (strategy == Manual || Eligible(members, view(|tried|).available, tried) == {})
  }

  /** The transfer was found waiting when the offers ended short of the deadline, and again before the broadcast. */
  predicate StillWaiting(view: nat -> Round, last: Round, tried: nat, rounds: nat)
  {
    (tried < rounds ==> view(tried).waiting) && last.waiting
  }

  class Assigner {
    var members: seq<Member>

    constructor (members: seq<Member>)
      requires DistinctUsers(members)
      ensures this.members == members
    {
      this.members := members;
    }

    ghost predicate Valid()
      reads this
    {
      DistinctUsers(members)
    }

    /** The members neither excluded nor unavailable, in member order. */
    method FilterAvailable(available: set<UserId>, exclude: seq<UserId>) returns (found: seq<UserId>)
      requires Valid()
      ensures forall u :: u in found <==> IsMember(members, u) && u !in exclude && u in available
      ensures forall j, k :: 0 <= j < k < |found| ==> found[j] != found[k]
    {
      found := [];
      for i := 0 to |members|
        invariant forall u :: u in found <==> u !in exclude && u in available && exists k :: 0 <= k < i && members[k].user == u
        invariant forall j, k :: 0 <= j < k < |found| ==> found[j] != found[k]
      {
        if members[i].user !in exclude && members[i].user in available {
          found := found + [members[i].user];
        }
      }
    }

    method AssignRoundRobin(available: set<UserId>, exclude: seq<UserId>, now: Time) returns (picked: Option<UserId>)
      requires Valid()
      modifies this
      ensures Valid()
      ensures var candidates := set u | u in available && u !in exclude;
        var pick := Oldest(old(members), candidates, |old(members)|);
        if pick.None? then picked == None && members == old(members)
        else picked == Some(old(members)[pick.value].user) && members == Stamped(old(members), pick.value, now)
    {
      var found := FilterAvailable(available, exclude);
      ghost var candidates := set u | u in available && u !in exclude;
      var best: Option<nat> := None;
      for i := 0 to |members|
        invariant members == old(members)
        invariant best == Oldest(members, candidates, i)
      {
        assert IsMember(members, members[i].user);
        if members[i].user in found
           && (best.None? || Earlier(members[i].lastAssigned, members[best.value].lastAssigned)) {
          best := Some(i);
        }
      }
      if best.None? {
        return None;
      }
      picked := Some(members[best.value].user);
      members := members[best.value := members[best.value].(lastAssigned := Some(now))];
    }

    method AssignLoadBalanced(available: set<UserId>, exclude: seq<UserId>, load: map<UserId, nat>)
      returns (picked: Option<UserId>)
      requires Valid()
      ensures picked.None? <==> Eligible(members, available, exclude) == {}
      ensures picked.Some? ==> IsLightest(Eligible(members, available, exclude), load, picked.value)
    {
      var found := FilterAvailable(available, exclude);
      picked := None;
      var lowest: int := -1;
      for i := 0 to |found|
        invariant picked == Lightest(found, load, i)
        invariant if picked.None? then lowest == -1 else lowest == LoadOf(load, picked.value)
      {
        var count := if found[i] in load then load[found[i]] else 0;
        if lowest < 0 || count < lowest {
          lowest := count;
          picked := Some(found[i]);
        }
      }
      assert forall u :: u in found <==> u in Eligible(members, available, exclude);
      if found != [] {
        assert found[0] in found;
        assert found[..|found|] == found;
        forall u | u in found
          ensures LoadOf(load, picked.value) <= LoadOf(load, u)
        {
          var i: nat :| i < |found| && found[i] == u;
        }
      }
    }

    /** The pick is the strategy's and only its row is stamped; there is none only when nobody is left or it is manual. */
    method AssignToTeam(strategy: Strategy, available: set<UserId>, exclude: seq<UserId>, load: map<UserId, nat>, now: Time)
      returns (picked: Option<UserId>)
      requires Valid()
      modifies this
      ensures Valid()
      ensures picked.None? <==> strategy == Manual || Eligible(old(members), available, exclude) == {}
      ensures picked.Some? ==> PicksBy(strategy, old(members), available, exclude, load, picked.value)
      ensures members == if picked.Some? then AfterPick(strategy, old(members), picked.value, now) else old(members)
    {
      match strategy
      case RoundRobin =>
        picked := AssignRoundRobin(available, exclude, now);
        PicksTheOldest(old(members), available, exclude, now);
      case LoadBalanced =>
        picked := AssignLoadBalanced(available, exclude, load);
      case Manual =>
        picked := None;
    }

    /**
      Offers the call to one agent after another until one accepts, the transfer
      no longer waits, nobody is left, or the deadline passes after `rounds`
      offers; then, if it still waits, to everybody still untried and online at
      once. Each offer is the strategy's pick among the untried, by what that
      attempt finds. Unless one accepts, the transfer is gone or the deadline
      passes, everybody available at the last attempt is offered the call; nobody
      is offered it twice, so there are at most as many offers as members.
     */
    method Rotate(strategy: Strategy, view: nat -> Round, last: Round, agents: map<UserId, Agent>, rounds: nat, start: Time)
      returns (tried: seq<UserId>, outcome: Outcome)
      requires Valid()
      modifies this
      ensures Valid()
      ensures OffersBy(strategy, old(members), view, tried, start)
      ensures members == AfterPicks(strategy, old(members), tried, start)
      ensures forall j, k :: 0 <= j < k < |tried| ==> tried[j] != tried[k]
      ensures |tried| <= |old(members)| && |tried| <= rounds
      ensures outcome.AcceptedBy? ==>
        tried != [] && outcome.user == tried[|tried| - 1] && Behaviour(agents, outcome.user) == Accepts
      ensures forall k :: 0 <= k < |tried| && !(outcome.AcceptedBy? && k == |tried| - 1) ==>
        Behaviour(agents, tried[k]) != Accepts
      ensures !outcome.AcceptedBy? ==> (outcome.NoLongerWaiting? <==> !StillWaiting(view, last, |tried|, rounds))
      ensures !outcome.AcceptedBy? && !outcome.NoLongerWaiting? && strategy != Manual ==>
        |tried| < rounds || |old(members)| <= rounds ==>
        forall u :: IsMember(old(members), u) && u in view(|tried|).available ==> u in tried
      ensures !outcome.AcceptedBy? && !outcome.NoLongerWaiting? ==>
        forall u :: IsMember(old(members), u) && u in last.available && u !in tried && Behaviour(agents, u) != Offline <==>
          outcome.Broadcast? && u in outcome.users
    {
      var ending;
      tried, ending := OfferInTurn(strategy, view, agents, rounds, start);
      FewEnough(old(members), tried);
      if ending.Accepted? {
        return tried, AcceptedBy(tried[|tried| - 1]);
      }
      if ending.Gone? || !last.waiting {
        return tried, NoLongerWaiting;
      }
      if |tried| == |old(members)| {
        AllTried(old(members), tried);
      }
      var available := view(|tried|).available;
      assert forall u :: IsMember(old(members), u) && u in available && u !in tried ==>
          u in Eligible(old(members), available, tried);
      EligibleAgree(old(members), members, last.available, tried);
      outcome := Fallback(last.available, tried, agents);
    }

    /** The rotation's loop, and why it ended. */
    method OfferInTurn(strategy: Strategy, view: nat -> Round, agents: map<UserId, Agent>, rounds: nat, start: Time)
      returns (tried: seq<UserId>, ending: Ending)
      requires Valid()
      modifies this
      ensures Valid() && Offered(strategy, old(members), members, view, tried, start)
      ensures Asked(agents, tried, ending.Accepted?)
      ensures |tried| <= rounds && (ending.Gone? || ending.NobodyLeft? ==> |tried| < rounds)
      ensures EndedBy(ending, strategy, old(members), view, tried) && (ending.Deadline? ==> |tried| == rounds)
    {
      tried, ending := [], Deadline;
      ghost var was := members;
      while |tried| < rounds && ending.Deadline?
        invariant Valid() && Offered(strategy, was, members, view, tried, start)
        invariant Asked(agents, tried, ending.Accepted?)
        invariant |tried| <= rounds && (ending.Gone? || ending.NobodyLeft? ==> |tried| < rounds)
        invariant EndedBy(ending, strategy, was, view, tried)
        decreases rounds - |tried|, ending.Deadline?
      {
        tried, ending := Attempt(strategy, view, agents, tried, start, was);
      }
    }

    /** One attempt: nothing when the transfer is gone or nobody is left, otherwise one more offer. */
    method Attempt(strategy: Strategy, view: nat -> Round, agents: map<UserId, Agent>, tried: seq<UserId>, start: Time,
      ghost was: seq<Member>)
      returns (more: seq<UserId>, ending: Ending)
      requires Valid() && Offered(strategy, was, members, view, tried, start) && Asked(agents, tried, false)
      modifies this
      ensures Valid() && Offered(strategy, was, members, view, more, start)
      ensures Asked(agents, more, ending.Accepted?) && EndedBy(ending, strategy, was, view, more)
      ensures |more| == |tried| + if ending.Accepted? || ending.Deadline? then 1 else 0
    {
      var now := view(|tried|);
      if !now.waiting {
        return tried, Gone;
      }
      ghost var before := members;
      var agent := AssignToTeam(strategy, now.available, tried, now.load, start + |tried|);
      if agent.None? {
        EligibleAgree(was, before, now.available, tried);
        return tried, NobodyLeft;
      }
      OfferStep(strategy, was, before, view, tried, start, agent.value);
      OneMoreAsked(agents, tried, agent.value);
      more := tried + [agent.value];
      ending := if Behaviour(agents, agent.value) == Accepts then Accepted else Deadline;
    }

    /** What is left is offered to everybody online at once. */
    method Fallback(available: set<UserId>, tried: seq<UserId>, agents: map<UserId, Agent>) returns (outcome: Outcome)
      requires Valid()
      ensures outcome.NobodyOnline? || outcome.Broadcast?
      ensures forall u :: IsMember(members, u) && u in available && u !in tried && Behaviour(agents, u) != Offline <==>
        outcome.Broadcast? && u in outcome.users
    {
      var remaining := FilterAvailable(available, tried);
      var online: seq<UserId> := [];
      for i := 0 to |remaining|
        invariant forall u :: u in online <==> u in remaining[..i] && Behaviour(agents, u) != Offline
      {
        assert remaining[..i + 1] == remaining[..i] + [remaining[i]];
        if Behaviour(agents, remaining[i]) != Offline {
          online := online + [remaining[i]];
        }
      }
      assert remaining[..|remaining|] == remaining;
      outcome := if online == [] then NobodyOnline else Broadcast(online);
    }
  }

  /** Rows may be stamped; who is in the team stays the same. */
  ghost predicate SameUsers(a: seq<Member>, b: seq<Member>)
  {
    |a| == |b| && forall i :: 0 <= i < |a| ==> a[i].user == b[i].user
  }

  /** Different members. */
  ghost predicate Different(members: seq<Member>, tried: seq<UserId>)
  {
    && (forall k :: 0 <= k < |tried| ==> IsMember(members, tried[k]))
    && (forall j, k :: 0 <= j < k < |tried| ==> tried[j] != tried[k])
  }

  /** What the rotation has done so far. */
  ghost predicate Offered(strategy: Strategy, was: seq<Member>, members: seq<Member>, view: nat -> Round,
    tried: seq<UserId>, start: Time)
  {
    && SameUsers(was, members)
    && members == AfterPicks(strategy, was, tried, start)
    && OffersBy(strategy, was, view, tried, start)
    && Different(was, tried)
  }

  predicate NoneAccepts(agents: map<UserId, Agent>, users: seq<UserId>)
  {
    forall k :: 0 <= k < |users| ==> Behaviour(agents, users[k]) != Accepts
  }

  /** Nobody has accepted, but for the last one when `accepted`. */
  predicate Asked(agents: map<UserId, Agent>, tried: seq<UserId>, accepted: bool)
  {
    if accepted then
      tried != [] && Behaviour(agents, tried[|tried| - 1]) == Accepts && NoneAccepts(agents, tried[..|tried| - 1])
    else NoneAccepts(agents, tried)
  }

  lemma OneMoreAsked(agents: map<UserId, Agent>, tried: seq<UserId>, user: UserId)
    requires Asked(agents, tried, false)
    ensures Asked(agents, tried + [user], Behaviour(agents, user) == Accepts)
  {
    assert (tried + [user])[..|tried|] == tried;
  }

  lemma OfferStep(strategy: Strategy, was: seq<Member>, members: seq<Member>, view: nat -> Round, tried: seq<UserId>,
    start: Time, pick: UserId)
    requires Offered(strategy, was, members, view, tried, start) && view(|tried|).waiting
    requires PicksBy(strategy, members, view(|tried|).available, tried, view(|tried|).load, pick)
    ensures Offered(strategy, was, AfterPick(strategy, members, pick, start + |tried|), view, tried + [pick], start)
  {
    OneMoreOffer(strategy, was, view, tried, start, pick);
    PickIsEligible(strategy, members, view(|tried|).available, tried, view(|tried|).load, pick);
    MembersAgree(was, members, pick);
    SameUsersAfter(strategy, members, pick, start + |tried|);
  }

  lemma MembersAgree(a: seq<Member>, b: seq<Member>, user: UserId)
    requires SameUsers(a, b)
    ensures IsMember(a, user) <==> IsMember(b, user)
  {
    if i: nat :| i < |a| && a[i].user == user {
      assert b[i].user == user;
    }
    if i: nat :| i < |b| && b[i].user == user {
      assert a[i].user == user;
    }
  }

  lemma EligibleAgree(a: seq<Member>, b: seq<Member>, available: set<UserId>, exclude: seq<UserId>)
    requires SameUsers(a, b)
    ensures Eligible(a, available, exclude) == Eligible(b, available, exclude)
    ensures forall u :: IsMember(a, u) <==> IsMember(b, u)
  {
    forall u
      ensures IsMember(a, u) <==> IsMember(b, u)
    {
      MembersAgree(a, b, u);
    }
  }

  lemma SameUsersAfter(strategy: Strategy, members: seq<Member>, pick: UserId, now: Time)
    ensures SameUsers(members, AfterPick(strategy, members, pick, now))
  {
  }

  lemma PickIsEligible(strategy: Strategy, members: seq<Member>, available: set<UserId>, exclude: seq<UserId>,
    load: map<UserId, nat>, pick: UserId)
    requires PicksBy(strategy, members, available, exclude, load, pick)
    ensures pick in available && pick !in exclude && IsMember(members, pick)
  {
  }

  /** What round robin does, in the strategy's terms. */
  lemma PicksTheOldest(members: seq<Member>, available: set<UserId>, exclude: seq<UserId>, now: Time)
    requires DistinctUsers(members)
    ensures var pick := Oldest(members, set u | u in available && u !in exclude, |members|);
      if pick.None? then Eligible(members, available, exclude) == {}
      else
        && Eligible(members, available, exclude) != {}
        && IsOldest(members, Eligible(members, available, exclude), members[pick.value].user)
        && Stamped(members, pick.value, now) == AfterPick(RoundRobin, members, members[pick.value].user, now)
  {
    var candidates := set u | u in available && u !in exclude;
    var users := Eligible(members, available, exclude);
    var pick := Oldest(members, candidates, |members|);
    forall i | 0 <= i < |members|
      ensures Candidate(members, i, candidates) <==> Candidate(members, i, users)
    {
      assert IsMember(members, members[i].user);
    }
    if pick.None? {
      forall u | u in users
        ensures false
      {
        var i: nat :| i < |members| && members[i].user == u;
        assert Candidate(members, i, candidates);
      }
    } else {
      assert Candidate(members, pick.value, users) && WaitsLongest(members, users, pick.value);
      assert members[pick.value].user in users;
    }
  }

  function Behaviour(agents: map<UserId, Agent>, user: UserId): Agent
  {
    if user in agents then agents[user] else Offline
  }

  /** Different members are at most as many as there are members. */
  lemma {:induction false} FewEnough(members: seq<Member>, tried: seq<UserId>)
    requires forall k :: 0 <= k < |tried| ==> IsMember(members, tried[k])
    requires forall j, k :: 0 <= j < k < |tried| ==> tried[j] != tried[k]
    ensures |tried| <= |members|
    decreases |tried|
  {
    if tried != [] {
      var last := tried[|tried| - 1];
      var i: nat :| i < |members| && members[i].user == last;
      var others := members[..i] + members[i + 1..];
      forall k | 0 <= k < |tried| - 1
        ensures IsMember(others, tried[k])
      {
        var m: nat :| m < |members| && members[m].user == tried[k];
        assert others[if m < i then m else m - 1] == members[m];
      }
      FewEnough(others, tried[..|tried| - 1]);
    }
  }

  /** As many different members as there are members are all of them. */
  lemma AllTried(members: seq<Member>, tried: seq<UserId>)
    requires forall k :: 0 <= k < |tried| ==> IsMember(members, tried[k])
    requires forall j, k :: 0 <= j < k < |tried| ==> tried[j] != tried[k]
    requires |tried| == |members|
    ensures forall u :: IsMember(members, u) ==> u in tried
  {
    forall u | IsMember(members, u)
      ensures u in tried
    {
      if u !in tried {
        var i: nat :| i < |members| && members[i].user == u;
        var others := members[..i] + members[i + 1..];
        forall k | 0 <= k < |tried|
          ensures IsMember(others, tried[k])
        {
          var m: nat :| m < |members| && members[m].user == tried[k];
          assert others[if m < i then m else m - 1] == members[m];
        }
        FewEnough(others, tried);
      }
    }
  }
}
