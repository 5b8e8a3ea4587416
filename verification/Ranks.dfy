/**
  Board keys: strings that sort between their neighbours, so that dropping a card
  rewrites one row. Keys are bytes, compared lexicographically.
 */
module Ranks {
  type Letter = b: int | 0 <= b < 256

  type Rank = seq<Letter>

  const RANK_FIRST: Letter := 97                // 'a', one below every usable letter
  const RANK_LAST: Letter := 122                // 'z'

  predicate Less(a: Rank, b: Rank)
  {
    b != [] && (a == [] || a[0] < b[0] || (a[0] == b[0] && Less(a[1..], b[1..])))
  }

  predicate Letters(r: Rank)
  {
    forall i :: 0 <= i < |r| ==> RANK_FIRST <= r[i] <= RANK_LAST
  }

  /** The keys the board generates: 'a' to 'z', and never an 'a' at the end. */
  predicate Usable(r: Rank)
  {
    Letters(r) && (r != [] ==> r[|r| - 1] != RANK_FIRST)
  }

  function Tail(r: Rank): Rank
  {
    if r == [] then [] else r[1..]
  }

  /** One position of the two neighbours; an absent upper neighbour is one past 'z'. */
  function Low(prev: Rank): Letter
  {
    if prev == [] then RANK_FIRST else prev[0]
  }

  function High(next: Rank, diverged: bool): Letter
  {
    if diverged || next == [] then RANK_LAST + 1 else next[0]
  }

  /** Byte arithmetic wraps. */
  predicate Gap(p: Letter, n: Letter)
  {
    (p + 1) % 256 < n
  }

  function Middle(p: Letter, n: Letter): Letter
  {
    (p + ((n - p) % 256) / 2) % 256
  }

  /** The key from one position on: the neighbours' remaining letters, and whether they already differ. */
  function From(prev: Rank, next: Rank, diverged: bool): Rank
    decreases |prev| + |next|
  {
    var p := Low(prev);
    var n := High(next, diverged);
    if Gap(p, n) then [Middle(p, n)]
    else [p] + From(Tail(prev), Tail(next), diverged || p < n)
  }

  /** An upper neighbour that does not lie above the lower one is ignored. */
  function Upper(prev: Rank, next: Rank): Rank
  {
    if next != [] && !Less(prev, next) then [] else next
  }

  /** The key between two neighbours, letter by letter: it stops at the latest where both have ended. */
  method RankBetween(prev: Rank, next: Rank) returns (key: Rank)
    ensures key == From(prev, Upper(prev, next), false)
  {
    var upper := next;
    var less := Compare(prev, next);
    if next != [] && !less {
      upper := [];
    }
    key := [];
    var diverged := false;
    var i := 0;
    ghost var whole := From(prev, upper, false);
    while true
      invariant key + From(Drop(prev, i), Drop(upper, i), diverged) == whole
      decreases |Drop(prev, i)| + |Drop(upper, i)|
    {
      Unroll(key, prev, upper, diverged, i);
      var p := LetterAt(prev, i, RANK_FIRST);
      var n := if diverged then RANK_LAST + 1 else LetterAt(upper, i, RANK_LAST + 1);
      if Gap(p, n) {
        return key + [Middle(p, n)];
      }
      key := key + [p];
      if p < n {
        diverged := true;
      }
      i := i + 1;
    }
  }

  function LetterAt(r: Rank, i: nat, absent: Letter): Letter
  {
    if i < |r| then r[i] else absent
  }

  /** One letter of the key: the rest of it starts with `p`, unless the middle letter ends it. */
  lemma Unroll(key: Rank, prev: Rank, next: Rank, diverged: bool, i: nat)
    ensures var p := LetterAt(prev, i, RANK_FIRST);
      var n := if diverged then RANK_LAST + 1 else LetterAt(next, i, RANK_LAST + 1);
      && key + From(Drop(prev, i), Drop(next, i), diverged) == (
        if Gap(p, n) then key + [Middle(p, n)]
        else (key + [p]) + From(Drop(prev, i + 1), Drop(next, i + 1), diverged || p < n))
      && (!Gap(p, n) ==> |Drop(prev, i + 1)| + |Drop(next, i + 1)| < |Drop(prev, i)| + |Drop(next, i)|)
  {
    DropStep(prev, i);
    DropStep(next, i);
    var p := LetterAt(prev, i, RANK_FIRST);
    var n := if diverged then RANK_LAST + 1 else LetterAt(next, i, RANK_LAST + 1);
    var rest := From(Drop(prev, i + 1), Drop(next, i + 1), diverged || p < n);
    assert key + ([p] + rest) == (key + [p]) + rest;
  }

  function Drop(r: Rank, i: nat): Rank
  {
    if i < |r| then r[i..] else []
  }

  lemma DropStep(r: Rank, i: nat)
    ensures Tail(Drop(r, i)) == Drop(r, i + 1)
    ensures (Drop(r, i) == [] <==> i >= |r|) && (i < |r| ==> Drop(r, i)[0] == r[i])
  {
  }

  method Compare(a: Rank, b: Rank) returns (less: bool)
    ensures less == Less(a, b)
  {
    var i := 0;
    while i < |a| && i < |b|
      invariant i <= |a| && i <= |b| && Less(a, b) == Less(a[i..], b[i..])
    {
      if a[i] != b[i] {
        return a[i] < b[i];
      }
      i := i + 1;
    }
    return i < |b|;
  }

  // What the key is worth -----------------------------------------------------------

  lemma MiddleIsBetween(p: Letter, n: Letter)
    requires RANK_FIRST <= p <= RANK_LAST && n <= RANK_LAST + 1 && Gap(p, n)
    ensures p < Middle(p, n) < n
  {
  }

  lemma TailLetters(r: Rank)
    requires Letters(r)
    ensures Letters(Tail(r))
  {
    assert forall i :: 0 <= i < |Tail(r)| ==> Tail(r)[i] == r[i + 1];
  }

  lemma UsableLetter(p: Letter)
    requires RANK_FIRST < p <= RANK_LAST
    ensures Usable([p])
  {
  }

  lemma UsablePrepend(p: Letter, rest: Rank)
    requires RANK_FIRST <= p <= RANK_LAST && rest != [] && Usable(rest)
    ensures Usable([p] + rest)
  {
    assert ([p] + rest)[|rest|] == rest[|rest| - 1];
  }

  lemma {:induction false} FromIsUsable(prev: Rank, next: Rank, diverged: bool)
    requires Letters(prev) && Letters(next)
    ensures From(prev, next, diverged) != [] && Usable(From(prev, next, diverged))
    decreases |prev| + |next|
  {
    var p, n := Low(prev), High(next, diverged);
    if Gap(p, n) {
      MiddleIsBetween(p, n);
      UsableLetter(Middle(p, n));
    } else {
      TailLetters(prev);
      TailLetters(next);
      FromIsUsable(Tail(prev), Tail(next), diverged || p < n);
      UsablePrepend(p, From(Tail(prev), Tail(next), diverged || p < n));
    }
  }

  lemma {:induction false} FromIsShort(prev: Rank, next: Rank, diverged: bool)
    ensures |From(prev, next, diverged)| <= 1 + if |prev| > |next| then |prev| else |next|
    decreases |prev| + |next|
  {
    var p := Low(prev);
    var n := High(next, diverged);
    if !Gap(p, n) {
      FromIsShort(Tail(prev), Tail(next), diverged || p < n);
    }
  }

  lemma {:induction false} FromIsAbove(prev: Rank, next: Rank, diverged: bool)
    requires Letters(prev) && Letters(next)
    ensures Less(prev, From(prev, next, diverged))
    decreases |prev| + |next|
  {
    var p := Low(prev);
    var n := High(next, diverged);
    if !Gap(p, n) {
      TailLetters(prev);
      TailLetters(next);
      FromIsAbove(Tail(prev), Tail(next), diverged || p < n);
    }
  }

  lemma {:induction false} FromIsBelow(prev: Rank, next: Rank)
    requires Letters(prev) && Usable(next) && Less(prev, next)
    ensures Less(From(prev, next, false), next)
    decreases |prev| + |next|
  {
    var p := Low(prev);
    var n := High(next, false);
    if Gap(p, n) {
      MiddleIsBetween(p, n);
    } else if p == n {
      assert prev == [] ==> next[|next| - 1] != next[0];
      TailLetters(prev);
      TailLetters(next);
      assert Usable(Tail(next));
      FromIsBelow(Tail(prev), Tail(next));
    }
  }

  /**
    The key is a board key again, above the lower neighbour, below the upper one
    whenever the neighbours are in order, and at most one letter longer than the
    longer of them.
   */
  lemma BetweenNeighbours(prev: Rank, next: Rank)
    requires Usable(prev) && Usable(next)
    ensures var key := From(prev, Upper(prev, next), false);
      && key != [] && Usable(key)
      && Less(prev, key)
      && (Less(prev, next) ==> Less(key, next))
      && |key| <= 1 + if |prev| > |next| then |prev| else |next|
  {
    var upper := Upper(prev, next);
    FromIsUsable(prev, upper, false);
    FromIsShort(prev, upper, false);
    FromIsAbove(prev, upper, false);
    if Less(prev, next) {
      FromIsBelow(prev, next);
    }
  }

  /** Why no key may end in 'a': nothing sorts between "" and "a", and what comes out is not below "a". */
  lemma TrailingFirstLetter()
    ensures Less([], [RANK_FIRST])
    ensures !Less(From([], Upper([], [RANK_FIRST]), false), [RANK_FIRST])
  {
    assert [RANK_FIRST][1..] == [];
    var key := From([], [RANK_FIRST], false);
    assert key == [RANK_FIRST] + From([], [], false);
  }

  // The order ---------------------------------------------------------------------

  lemma {:induction false} LessIsTotal(a: Rank, b: Rank)
    ensures (Less(a, b) && a != b && !Less(b, a)) || (a == b && !Less(a, b)) || (Less(b, a) && a != b && !Less(a, b))
    decreases |a|
  {
    if a != [] && b != [] {
      LessIsTotal(a[1..], b[1..]);
      assert a[0] == b[0] && a[1..] == b[1..] ==> a == [a[0]] + a[1..] == b;
    }
  }

  lemma {:induction false} LessIsTransitive(a: Rank, b: Rank, c: Rank)
    requires Less(a, b) && Less(b, c)
    ensures Less(a, c)
    decreases |a|
  {
    if a != [] && a[0] == b[0] == c[0] {
      LessIsTransitive(a[1..], b[1..], c[1..]);
    }
  }
}
