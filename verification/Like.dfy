/**
  LIKE patterns and the escaping that makes a typed search term literal.
 */
module Like {

  /** Characters compared as ILIKE compares them: after case folding. */
  type Folding = char -> char

  ghost predicate Same(fold: Folding, s: string, t: string)
  {
    |s| == |t| && forall i :: 0 <= i < |s| ==> fold(s[i]) == fold(t[i])
  }

  /**
    LIKE with backslash as the escape character: `%` stands for any text, `_` for
    any one character, an escaped character for itself. A pattern that ends in a
    lone backslash matches nothing.
   */
  predicate Matches(fold: Folding, p: string, t: string)
    decreases |p|, |t|
  {
    if p == "" then t == ""
    else if p[0] == '%' then Matches(fold, p[1..], t) || (t != "" && Matches(fold, p, t[1..]))
    else if p[0] == '_' then t != "" && Matches(fold, p[1..], t[1..])
    else if p[0] == '\\' then
      |p| > 1 && t != "" && fold(p[1]) == fold(t[0]) && Matches(fold, p[2..], t[1..])
    else t != "" && fold(p[0]) == fold(t[0]) && Matches(fold, p[1..], t[1..])
  }

  function EscapeChar(c: char): string
  {
    if c == '\\' || c == '%' || c == '_' then ['\\', c] else [c]
  }

  function EscapeLike(s: string): string
  {
    if s == "" then "" else EscapeChar(s[0]) + EscapeLike(s[1..])
  }

  /** An escaped character matches itself and nothing else. */
  lemma {:induction false} EscapedCharIsLiteral(fold: Folding, c: char, p: string, t: string)
    ensures Matches(fold, EscapeChar(c) + p, t) <==> t != "" && fold(c) == fold(t[0]) && Matches(fold, p, t[1..])
  {
    var whole := EscapeChar(c) + p;
    if |EscapeChar(c)| == 2 {
      assert whole[0] == '\\' && whole[1] == c && whole[2..] == p;
    } else {
      assert whole[0] == c && whole[1..] == p;
    }
  }

  lemma {:induction false} AnyMatchesAll(fold: Folding, t: string)
    ensures Matches(fold, "%", t)
  {
    if t != "" {
      AnyMatchesAll(fold, t[1..]);
    }
  }

  /** An escaped term followed by a pattern: the term is taken literally, the pattern has the rest. */
  lemma {:induction false} EscapedThen(fold: Folding, s: string, p: string, t: string)
    ensures Matches(fold, EscapeLike(s) + p, t) <==>
              |s| <= |t| && Same(fold, s, t[..|s|]) && Matches(fold, p, t[|s|..])
  {
    if s == "" {
      assert EscapeLike(s) + p == p;
      assert t[0..] == t;
    } else {
      assert EscapeLike(s) + p == EscapeChar(s[0]) + (EscapeLike(s[1..]) + p);
      EscapedCharIsLiteral(fold, s[0], EscapeLike(s[1..]) + p, t);
      if t != "" {
        EscapedThen(fold, s[1..], p, t[1..]);
        if |s| <= |t| {
          assert t[1..][..|s| - 1] == t[..|s|][1..];
          assert t[1..][|s| - 1..] == t[|s|..];
          SameStep(fold, s, t[..|s|]);
        }
      }
    }
  }

  lemma SameStep(fold: Folding, s: string, t: string)
    requires |s| == |t| > 0
    ensures Same(fold, s, t) <==> fold(s[0]) == fold(t[0]) && Same(fold, s[1..], t[1..])
  {
    if fold(s[0]) == fold(t[0]) && Same(fold, s[1..], t[1..]) {
      forall i | 0 <= i < |s| ensures fold(s[i]) == fold(t[i]) {
        if i > 0 {
          assert s[1..][i - 1] == s[i] && t[1..][i - 1] == t[i];
        }
      }
    }
  }

  /** "Starts with": exactly the texts that begin with the term, wildcards in it taken literally. */
  lemma StartsWithIsLiteral(fold: Folding, s: string, t: string)
    ensures Matches(fold, EscapeLike(s) + "%", t) <==> |s| <= |t| && Same(fold, s, t[..|s|])
  {
    EscapedThen(fold, s, "%", t);
    if |s| <= |t| {
      AnyMatchesAll(fold, t[|s|..]);
    }
  }

  ghost predicate OccursAt(fold: Folding, s: string, t: string, i: nat)
  {
    i + |s| <= |t| && Same(fold, s, t[i..i + |s|])
  }

  ghost predicate Occurs(fold: Folding, s: string, t: string)
  {
    exists i: nat :: OccursAt(fold, s, t, i)
  }

  /** "Contains": exactly the texts the term occurs in, wildcards in it taken literally. */
  lemma {:induction false} ContainsIsLiteral(fold: Folding, s: string, t: string)
    ensures Matches(fold, "%" + EscapeLike(s) + "%", t) <==> Occurs(fold, s, t)
    decreases |t|
  {
    var p := "%" + EscapeLike(s) + "%";
    assert p[1..] == EscapeLike(s) + "%";
    StartsWithIsLiteral(fold, s, t);
    if |s| <= |t| {
      assert t[0..0 + |s|] == t[..|s|];
      assert Same(fold, s, t[..|s|]) <==> OccursAt(fold, s, t, 0);
    }
    if t != "" {
      ContainsIsLiteral(fold, s, t[1..]);
      forall i: nat ensures OccursAt(fold, s, t[1..], i) <==> OccursAt(fold, s, t, i + 1) {
        if i + 1 + |s| <= |t| {
          assert t[1..][i..i + |s|] == t[i + 1..i + 1 + |s|];
        }
      }
      if Occurs(fold, s, t) {
        var i: nat :| OccursAt(fold, s, t, i);
        assert i > 0 ==> OccursAt(fold, s, t[1..], i - 1);
      }
    }
  }
}
