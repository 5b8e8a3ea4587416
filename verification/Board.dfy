/**
  The deals board: a card's key is chosen from the cards it was dropped between,
  and no other card is written.
 */
module Board {
  import opened Wrappers
  import opened Ranks

  type DealId = nat
  type StageId = nat

  /** A deleted deal keeps its row; queries no longer see it. */
  datatype Card = Card(stage: StageId, rank: Rank, deleted: bool)

  datatype Op =
    | Create(stage: StageId)
    | Move(deal: DealId, stage: StageId, after: Option<DealId>, before: Option<DealId>)
    | Delete(deal: DealId)

  type Cards = seq<Card>

  predicate Seen(cards: Cards, deal: DealId)
  {
    deal < |cards| && !cards[deal].deleted
  }

  predicate InColumn(cards: Cards, deal: DealId, stage: StageId)
  {
    Seen(cards, deal) && cards[deal].stage == stage
  }

  /** A neighbour's key; one not named, the card itself, or one that has gone counts as no neighbour. */
  function RankOf(cards: Cards, neighbour: Option<DealId>, self: DealId): Rank
  {
    if neighbour.Some? && neighbour.value != self && Seen(cards, neighbour.value)
    then cards[neighbour.value].rank else []
  }

  /** The greatest key among the first `n` cards of a column. */
  function LastRank(cards: Cards, stage: StageId, n: nat): Rank
    requires n <= |cards|
  {
    if n == 0 then []
    else
      var best := LastRank(cards, stage, n - 1);
      if InColumn(cards, n - 1, stage) && Less(best, cards[n - 1].rank) then cards[n - 1].rank else best
  }

  function Between(prev: Rank, next: Rank): Rank
  {
    From(prev, Upper(prev, next), false)
  }

  function RankFor(cards: Cards, op: Op): Rank
    requires op.Move?
  {
    if op.after.None? && op.before.None? then Between(LastRank(cards, op.stage, |cards|), [])
    else Between(RankOf(cards, op.after, op.deal), RankOf(cards, op.before, op.deal))
  }

  function Next(cards: Cards, op: Op): Cards
  {
    match op
    case Create(stage) => cards + [Card(stage, Between(LastRank(cards, stage, |cards|), []), false)]
    case Move(deal, stage, _, _) =>
      if !Seen(cards, deal) then cards
      else cards[deal := cards[deal].(stage := stage, rank := RankFor(cards, op))]
    case Delete(deal) => if !Seen(cards, deal) then cards else cards[deal := cards[deal].(deleted := true)]
  }

  function Run(cards: Cards, ops: seq<Op>): Cards
    decreases |ops|
  {
    if ops == [] then cards else Run(Next(cards, ops[0]), ops[1..])
  }

  /** Every key on the board is one that something sorts below. */
  predicate Keyed(cards: Cards)
  {
    forall d :: 0 <= d < |cards| ==> cards[d].rank != [] && Usable(cards[d].rank)
  }

  // The service -------------------------------------------------------------------

  class Service {
    var cards: Cards

    constructor ()
      ensures cards == []
    {
      cards := [];
    }

    method ReadLastRank(stage: StageId) returns (rank: Rank)
      ensures rank == LastRank(cards, stage, |cards|)
    {
      rank := [];
      for i := 0 to |cards|
        invariant rank == LastRank(cards, stage, i)
      {
        if !cards[i].deleted && cards[i].stage == stage {
          var greater := Compare(rank, cards[i].rank);
          if greater {
            rank := cards[i].rank;
          }
        }
      }
    }

    method Create(stage: StageId) returns (deal: DealId)
      modifies this
      ensures cards == Next(old(cards), Op.Create(stage)) && deal == |old(cards)|
    {
      var last := ReadLastRank(stage);
      var rank := RankBetween(last, []);
      deal := |cards|;
      cards := cards + [Card(stage, rank, false)];
    }

    method Move(deal: DealId, stage: StageId, after: Option<DealId>, before: Option<DealId>) returns (found: bool)
      modifies this
      ensures cards == Next(old(cards), Op.Move(deal, stage, after, before))
      ensures found == Seen(old(cards), deal)
    {
      if deal >= |cards| || cards[deal].deleted {
        return false;
      }
      var low, high: Rank := RankOf(cards, after, deal), RankOf(cards, before, deal);
      if after.None? && before.None? {
        low := ReadLastRank(stage);
        high := [];
      }
      var position := RankBetween(low, high);
      if stage == cards[deal].stage {
        if position == cards[deal].rank {
          return true;
        }
        cards := cards[deal := cards[deal].(rank := position)];
        return true;
      }
      cards := cards[deal := cards[deal].(stage := stage, rank := position)];
      return true;
    }
  }

  // The invariant the keys need -----------------------------------------------------

  lemma {:induction false} LastRankIsUsable(cards: Cards, stage: StageId, n: nat)
    requires n <= |cards| && Keyed(cards)
    ensures Usable(LastRank(cards, stage, n))
  {
    if n > 0 {
      LastRankIsUsable(cards, stage, n - 1);
    }
  }

  lemma {:induction false} LastRankIsGreatest(cards: Cards, stage: StageId, n: nat, d: DealId)
    requires d < n <= |cards| && InColumn(cards, d, stage)
    ensures !Less(LastRank(cards, stage, n), cards[d].rank)
  {
    var best := LastRank(cards, stage, n - 1);
    LessIsTotal(cards[d].rank, cards[d].rank);
    if d < n - 1 {
      LastRankIsGreatest(cards, stage, n - 1, d);
      LessIsTotal(best, cards[d].rank);
      if Less(best, cards[n - 1].rank) && Less(cards[n - 1].rank, cards[d].rank) {
        LessIsTransitive(best, cards[n - 1].rank, cards[d].rank);
      }
    }
  }

  lemma {:induction false} StepKeepsKeyed(cards: Cards, op: Op)
    requires Keyed(cards)
    ensures Keyed(Next(cards, op))
  {
    match op
    case Create(stage) =>
      LastRankIsUsable(cards, stage, |cards|);
      BetweenNeighbours(LastRank(cards, stage, |cards|), []);
    case Move(deal, stage, after, before) =>
      LastRankIsUsable(cards, stage, |cards|);
      BetweenNeighbours(LastRank(cards, stage, |cards|), []);
      BetweenNeighbours(RankOf(cards, after, deal), RankOf(cards, before, deal));
    case Delete(_) =>
  }

  /** Every run of creations, moves and deletions keeps every key usable. */
  lemma {:induction false} EveryRunKeepsKeyed(cards: Cards, ops: seq<Op>)
    requires Keyed(cards)
    ensures Keyed(Run(cards, ops))
    decreases |ops|
  {
    if ops != [] {
      StepKeepsKeyed(cards, ops[0]);
      EveryRunKeepsKeyed(Next(cards, ops[0]), ops[1..]);
    }
  }

  // Where the card lands --------------------------------------------------------------

  /** No other card of the column lies between the two keys, which are in order; an empty one is the column's end. */
  predicate Adjacent(cards: Cards, stage: StageId, self: DealId, low: Rank, high: Rank)
  {
    && (high != [] ==> Less(low, high))
    && forall d :: 0 <= d < |cards| && d != self && InColumn(cards, d, stage) ==>
         Beside(cards[d].rank, low, high)
  }

  predicate Beside(rank: Rank, low: Rank, high: Rank)
  {
    !Less(low, rank) || (high != [] && !Less(rank, high))
  }

  lemma LandsBetween(low: Rank, high: Rank, rank: Rank)
    requires Usable(low) && Usable(high) && (high != [] ==> Less(low, high)) && Beside(rank, low, high)
    ensures var key := Between(low, high);
      && (!Less(low, rank) <==> Less(rank, key))
      && (high != [] && !Less(rank, high) <==> Less(key, rank))
      && key != rank
  {
    var key := Between(low, high);
    BetweenNeighbours(low, high);
    LessIsTotal(low, rank);
    LessIsTotal(rank, high);
    LessIsTotal(key, rank);
    if !Less(low, rank) {
      if Less(rank, low) {
        LessIsTransitive(rank, low, key);
      }
      if high != [] {
        LessIsTransitive(low, key, high);
        if Less(rank, low) {
          LessIsTransitive(rank, low, high);
        }
      }
    } else {
      if Less(high, rank) {
        LessIsTransitive(key, high, rank);
      }
    }
  }

  function Low(cards: Cards, op: Op): Rank
    requires op.Move?
  {
    RankOf(cards, op.after, op.deal)
  }

  function High(cards: Cards, op: Op): Rank
    requires op.Move?
  {
    RankOf(cards, op.before, op.deal)
  }

  /** A card keeps its side: above the new key exactly when at or above the upper neighbour, below when at or below the lower. */
  predicate KeepsSide(rank: Rank, low: Rank, high: Rank, key: Rank)
  {
    && (!Less(low, rank) <==> Less(rank, key))
    && (high != [] && !Less(rank, high) <==> Less(key, rank))
    && key != rank
  }

  /**
    The card lands where it was dropped: above exactly the cards at or below the
    lower neighbour, below exactly those at or above the upper one, and level with
    none.
   */
  predicate LandsThere(cards: Cards, op: Op)
    requires op.Move? && Seen(cards, op.deal)
  {
    forall d :: 0 <= d < |cards| && d != op.deal && InColumn(cards, d, op.stage) ==>
      KeepsSide(cards[d].rank, Low(cards, op), High(cards, op), Next(cards, op)[op.deal].rank)
  }

  /** A card dropped between two adjacent cards lands there, and no other card is written. */
  lemma {:induction false} DroppedBetween(cards: Cards, op: Op)
    requires Keyed(cards) && op.Move? && Seen(cards, op.deal) && (op.after.Some? || op.before.Some?)
    requires Adjacent(cards, op.stage, op.deal, Low(cards, op), High(cards, op))
    ensures var after := Next(cards, op);
      && |after| == |cards|
      && InColumn(after, op.deal, op.stage)
      && LandsThere(cards, op)
      && forall d :: 0 <= d < |cards| && d != op.deal ==> after[d] == cards[d]
  {
    forall d | 0 <= d < |cards| && d != op.deal && InColumn(cards, d, op.stage)
      ensures KeepsSide(cards[d].rank, Low(cards, op), High(cards, op), Between(Low(cards, op), High(cards, op)))
    {
      LandsBetween(Low(cards, op), High(cards, op), cards[d].rank);
    }
  }

  /** What one other card must be like for the new key to land right beside it; neighbours out of order leave no room. */
  predicate Clear(rank: Rank, low: Rank, high: Rank)
  {
    if high == [] || Less(low, high) then Beside(rank, low, high)
    else Less(rank, high) || Less(Between(low, high), rank)
  }

  lemma KeepsSideExactly(low: Rank, high: Rank, rank: Rank)
    requires Usable(low) && Usable(high)
    ensures KeepsSide(rank, low, high, Between(low, high)) <==> Clear(rank, low, high)
  {
    BetweenNeighbours(low, high);
    if high == [] || Less(low, high) {
      if Beside(rank, low, high) {
        LandsBetween(low, high, rank);
      } else {
        LessIsTotal(rank, Between(low, high));
      }
    } else {
      OutOfOrder(low, high, rank);
    }
  }

  lemma OutOfOrder(low: Rank, high: Rank, rank: Rank)
    requires Usable(low) && Usable(high) && high != [] && !Less(low, high)
    ensures KeepsSide(rank, low, high, Between(low, high)) <==> Less(rank, high) || Less(Between(low, high), rank)
  {
    var key := Between(low, high);
    BetweenNeighbours(low, high);
    LessIsTotal(low, high);
    LessIsTotal(low, rank);
    LessIsTotal(rank, high);
    LessIsTotal(rank, key);
    if Less(rank, high) {
      if Less(high, low) {
        LessIsTransitive(rank, high, low);
      }
      LessIsTransitive(rank, low, key);
    }
    if Less(key, rank) {
      LessIsTransitive(low, key, rank);
    }
  }

  /** Exactly when a card lands where it was dropped: every other card of the column is clear of the place. */
  lemma {:induction false} LandsExactly(cards: Cards, op: Op)
    requires Keyed(cards) && op.Move? && Seen(cards, op.deal) && (op.after.Some? || op.before.Some?)
    ensures LandsThere(cards, op) <==>
      forall d :: 0 <= d < |cards| && d != op.deal && InColumn(cards, d, op.stage) ==>
        Clear(cards[d].rank, Low(cards, op), High(cards, op))
  {
    forall d | 0 <= d < |cards| && d != op.deal && InColumn(cards, d, op.stage)
      ensures KeepsSide(cards[d].rank, Low(cards, op), High(cards, op), Next(cards, op)[op.deal].rank) <==>
              Clear(cards[d].rank, Low(cards, op), High(cards, op))
    {
      KeepsSideExactly(Low(cards, op), High(cards, op), cards[d].rank);
    }
  }

  /**
    So with an upper neighbour that is another card of the column, or none, the
    card lands there if and only if the neighbours named are adjacent.
   */
  lemma {:induction false} LandsIffAdjacent(cards: Cards, op: Op)
    requires Keyed(cards) && op.Move? && Seen(cards, op.deal) && (op.after.Some? || op.before.Some?)
    requires op.before.Some? ==> op.before.value != op.deal && InColumn(cards, op.before.value, op.stage)
    ensures LandsThere(cards, op) <==> Adjacent(cards, op.stage, op.deal, Low(cards, op), High(cards, op))
  {
    var low, high := Low(cards, op), High(cards, op);
    LandsExactly(cards, op);
    if high != [] && !Less(low, high) {
      BetweenNeighbours(low, high);
      LessIsTotal(high, high);
      LessIsTotal(low, high);
      if Less(Between(low, high), high) {
        LessIsTransitive(low, Between(low, high), high);
      }
      assert !Clear(cards[op.before.value].rank, low, high);
    }
  }

  /** A named neighbour whose key is looked at: another card, and one that is still there. */
  predicate Counts(cards: Cards, neighbour: Option<DealId>, self: DealId)
  {
    neighbour.Some? && neighbour.value != self && neighbour.value < |cards| && !cards[neighbour.value].deleted
  }

  /**
    Which neighbours a drop takes into account, whichever column they are in. The
    new key is above that of a counting lower neighbour, and below that of a
    counting upper one unless the two are out of order; a neighbour that does not
    count might as well not have been named; and with none that counts the card
    gets the key of a first card.
   */
  lemma {:induction false} NeighboursCount(cards: Cards, op: Op)
    requires Keyed(cards) && op.Move? && Seen(cards, op.deal) && (op.after.Some? || op.before.Some?)
    ensures var key := Next(cards, op)[op.deal].rank;
      var below, above := Counts(cards, op.after, op.deal), Counts(cards, op.before, op.deal);
      && (below ==> Less(cards[op.after.value].rank, key))
      && (above && (below ==> Less(cards[op.after.value].rank, cards[op.before.value].rank)) ==>
            Less(key, cards[op.before.value].rank))
      && (op.before.Some? && !below ==> key == Next(cards, op.(after := None))[op.deal].rank)
      && (op.after.Some? && !above ==> key == Next(cards, op.(before := None))[op.deal].rank)
      && (!below && !above ==> key == [110])
  {
    var low, high := Low(cards, op), High(cards, op);
    BetweenNeighbours(low, high);
    if high != [] {
      LessFromNothing(high);
    }
    var first := FirstKey();
  }

  lemma FirstKey() returns (key: Rank)
    ensures key == [110] && Between([], []) == key
  {
    key := [110];
  }

  lemma LessFromNothing(rank: Rank)
    requires rank != []
    ensures Less([], rank)
  {
  }

  /** A new card, and one moved without neighbours, goes below every card of its column. */
  lemma {:induction false} GoesToTheBottom(cards: Cards, op: Op, d: DealId)
    requires Keyed(cards)
    requires op.Create? || (op.Move? && Seen(cards, op.deal) && op.after.None? && op.before.None?)
    requires d < |cards| && InColumn(cards, d, op.stage)
    ensures var placed := if op.Create? then |cards| else op.deal;
      && placed < |Next(cards, op)| && InColumn(Next(cards, op), placed, op.stage)
      && Less(cards[d].rank, Next(cards, op)[placed].rank)
      && (d != placed ==> Next(cards, op)[d] == cards[d])
  {
    var last := LastRank(cards, op.stage, |cards|);
    LastRankIsUsable(cards, op.stage, |cards|);
    LastRankIsGreatest(cards, op.stage, |cards|, d);
    BetweenNeighbours(last, []);
    LessIsTotal(last, cards[d].rank);
    if Less(cards[d].rank, last) {
      LessIsTransitive(cards[d].rank, last, Between(last, []));
    }
  }

  /** No two cards of a column have the same key. */
  predicate Distinct(cards: Cards)
  {
    forall d, e :: 0 <= d < e < |cards| && Seen(cards, d) && InColumn(cards, e, cards[d].stage) ==>
      cards[d].rank != cards[e].rank
  }

  /** No other card of the column has the key the moved card gets. */
  predicate FreshKey(cards: Cards, op: Op)
  {
    op.Move? && Seen(cards, op.deal) ==>
      forall d :: 0 <= d < |cards| && d != op.deal && InColumn(cards, d, op.stage) ==>
        cards[d].rank != RankFor(cards, op)
  }

  /** Exactly when keys stay distinct: the key of a moved card is fresh. Creations and deletions always keep them. */
  lemma {:induction false} StepKeepsDistinct(cards: Cards, op: Op)
    requires Keyed(cards) && Distinct(cards)
    ensures Distinct(Next(cards, op)) <==> FreshKey(cards, op)
  {
    var after := Next(cards, op);
    match op
    case Create(stage) =>
      forall d | 0 <= d < |cards| && InColumn(cards, d, stage)
        ensures cards[d].rank != after[|cards|].rank
      {
        GoesToTheBottom(cards, op, d);
        LessIsTotal(cards[d].rank, cards[d].rank);
      }
    case Move(deal, stage, _, _) =>
      if Distinct(after) && Seen(cards, deal) {
        forall d | 0 <= d < |cards| && d != deal && InColumn(cards, d, stage)
          ensures cards[d].rank != RankFor(cards, op)
        {
          assert InColumn(after, d, stage) && InColumn(after, deal, stage);
        }
      }
    case Delete(_) =>
  }

  predicate FreshKeys(cards: Cards, ops: seq<Op>)
    decreases |ops|
  {
    ops == [] || (FreshKey(cards, ops[0]) && FreshKeys(Next(cards, ops[0]), ops[1..]))
  }

  lemma {:induction false} EveryRunKeepsDistinct(cards: Cards, ops: seq<Op>)
    requires Keyed(cards) && Distinct(cards) && FreshKeys(cards, ops)
    ensures Distinct(Run(cards, ops))
    decreases |ops|
  {
    if ops != [] {
      StepKeepsDistinct(cards, ops[0]);
      StepKeepsKeyed(cards, ops[0]);
      EveryRunKeepsDistinct(Next(cards, ops[0]), ops[1..]);
    }
  }

  /** What a caller can check before a move: with adjacent neighbours, or with none named, the key is fresh. */
  lemma {:induction false} AdjacentKeyIsFresh(cards: Cards, op: Op)
    requires Keyed(cards) && op.Move? && Seen(cards, op.deal)
    requires op.after.Some? || op.before.Some? ==>
      Adjacent(cards, op.stage, op.deal, Low(cards, op), High(cards, op))
    ensures FreshKey(cards, op)
  {
    if op.after.Some? || op.before.Some? {
      DroppedBetween(cards, op);
    } else {
      forall d | 0 <= d < |cards| && d != op.deal && InColumn(cards, d, op.stage)
        ensures cards[d].rank != RankFor(cards, op)
      {
        GoesToTheBottom(cards, op, d);
        LessIsTotal(cards[d].rank, cards[d].rank);
      }
    }
  }

  /** With adjacent neighbours a move keeps the keys distinct. */
  lemma AdjacentMoveKeepsDistinct(cards: Cards, op: Op)
    requires Keyed(cards) && op.Move? && Seen(cards, op.deal) && (op.after.Some? || op.before.Some?)
    requires Adjacent(cards, op.stage, op.deal, Low(cards, op), High(cards, op))
    requires Distinct(cards)
    ensures Distinct(Next(cards, op))
  {
    AdjacentKeyIsFresh(cards, op);
    StepKeepsDistinct(cards, op);
  }

  lemma OneOp(cards: Cards, ops: seq<Op>, k: nat, next: Cards)
    requires k < |ops| && Next(cards, ops[k]) == next
    ensures Run(cards, ops[k..]) == Run(next, ops[k + 1..])
  {
    assert ops[k..][0] == ops[k] && ops[k..][1..] == ops[k + 1..];
  }

  /** Three cards in a column, the third dropped below the first with no card named below it. */
  function DropBelowFirst(stage: StageId): seq<Op>
  {
    [Create(stage), Create(stage), Create(stage), Move(2, stage, Some(0), None)]
  }

  lemma CreateBelow(cards: Cards, stage: StageId, last: Rank, rank: Rank)
    requires LastRank(cards, stage, |cards|) == last && Between(last, []) == rank
    ensures Next(cards, Create(stage)) == cards + [Card(stage, rank, false)]
  {
  }

  /** Without adjacent neighbours: the third card gets the second one's key. */
  lemma NotAdjacentCanCollide(stage: StageId)
    ensures var cards := Run([], DropBelowFirst(stage));
      |cards| == 3 && InColumn(cards, 1, stage) && InColumn(cards, 2, stage) && cards[1].rank == cards[2].rank == [116]
  {
    assert Between([], []) == [110] && Between([110], []) == [116];
    var ops, key := DropBelowFirst(stage), Between([116], []);
    var one := [Card(stage, [110], false)];
    var two := one + [Card(stage, [116], false)];
    var three := two + [Card(stage, key, false)];
    var moved := three[2 := Card(stage, [116], false)];
    CreateBelow([], stage, [], [110]);
    assert LastRank(one, stage, 0) == [] && LastRank(one, stage, 1) == [110];
    CreateBelow(one, stage, [110], [116]);
    assert LastRank(two, stage, 1) == [110] && LastRank(two, stage, 2) == [116];
    CreateBelow(two, stage, [116], key);
    OneOp([], ops, 0, one);
    OneOp(one, ops, 1, two);
    OneOp(two, ops, 2, three);
    OneOp(three, ops, 3, moved);
    assert ops[0..] == ops && ops[4..] == [];
  }
}
