/**
  The fragment of SQL the filter compiler writes: its text as a list of tokens,
  how a database reads that text, and what it then means on a row.
 */
module Sql {
  import opened Wrappers
  import opened Like

  /** Values of columns and arguments. */
  datatype Val = Null | Text(s: string) | Number(n: int) | Moment(at: int) | Flag(b: bool)
               | Tags(tags: seq<string>) | List(items: seq<Val>)

  datatype Column = OfContact(name: string) | OfValue(name: string) | OfDeal(name: string)

  datatype Comparison = Eq | Ne | Lt | Le | Gt | Ge | DistinctFrom | ILike

  /** The tables an EXISTS ranges over. */
  datatype Source = FieldValues | Deals

  datatype Token =
    | Col(column: Column) | Op(comparison: Comparison) | In | Is | NullWord | Between
    | And | Or | Not | Hole | Open | Close | Comma
    | EmptyText | Word(flag: bool) | Zero
    | TagFunction(all: bool) | TagCount | ArrayOpen | ArrayClose
    | Exists(source: Source)                        // up to and including the link to the contact
    | FieldIs                                       // the comparison of the field id in a value subquery

  type Tokens = seq<Token>

  /** The condition a text stands for; `?` placeholders are bound left to right. */
  datatype Condition =
    | Compare(column: Column, comparison: Comparison)
    | CompareEmpty(column: Column, negated: bool)
    | CompareFlag(column: Column, flag: bool)
    | InList(column: Column, negated: bool)
    | InRange(column: Column)
    | NullTest(column: Column, negated: bool)
    | HasTags(column: Column, all: bool, count: nat)
    | NoTags(column: Column)
    | Negation(inner: Condition)
    | Both(left: Condition, right: Condition)
    | Either(left: Condition, right: Condition)
    | SomeRow(source: Source, inner: Condition)

  // ----- reading

  datatype Parsed = Failed | Done(condition: Condition, rest: Tokens)

  predicate Starts(ts: Tokens, t: Token)
  {
    ts != [] && ts[0] == t
  }

  /** OR binds weakest, then AND, then NOT. */
  function ParseOr(ts: Tokens): (r: Parsed)
    ensures r.Done? ==> |r.rest| < |ts|
    decreases |ts|, 5
  {
    var first := ParseAnd(ts);
    if first.Failed? then Failed else OrTail(first.condition, first.rest)
  }

  function OrTail(acc: Condition, ts: Tokens): (r: Parsed)
    ensures r.Done? ==> |r.rest| <= |ts|
    decreases |ts|, 4
  {
    if Starts(ts, Or) then
      var next := ParseAnd(ts[1..]);
      if next.Failed? then Failed else OrTail(Either(acc, next.condition), next.rest)
    else Done(acc, ts)
  }

  function ParseAnd(ts: Tokens): (r: Parsed)
    ensures r.Done? ==> |r.rest| < |ts|
    decreases |ts|, 3
  {
    var first := ParseFactor(ts);
    if first.Failed? then Failed else AndTail(first.condition, first.rest)
  }

  function AndTail(acc: Condition, ts: Tokens): (r: Parsed)
    ensures r.Done? ==> |r.rest| <= |ts|
    decreases |ts|, 2
  {
    if Starts(ts, And) then
      var next := ParseFactor(ts[1..]);
      if next.Failed? then Failed else AndTail(Both(acc, next.condition), next.rest)
    else Done(acc, ts)
  }

  function ParseFactor(ts: Tokens): (r: Parsed)
    ensures r.Done? ==> |r.rest| < |ts|
    decreases |ts|, 1
  {
    if Starts(ts, Not) then
      var inner := ParseFactor(ts[1..]);
      if inner.Failed? then Failed else Done(Negation(inner.condition), inner.rest)
    else ParsePrimary(ts)
  }

  function ParsePrimary(ts: Tokens): (r: Parsed)
    ensures r.Done? ==> |r.rest| < |ts|
    decreases |ts|, 0
  {
    if ts == [] then Failed
    else match ts[0]
      case Open =>
        var inner := ParseOr(ts[1..]);
        if inner.Done? && Starts(inner.rest, Close) then Done(inner.condition, inner.rest[1..]) else Failed
      case Exists(source) =>
        // The subquery's own conditions are an AND chain: an OR would need parentheses.
        var body := if source.FieldValues? then 4 else 2;
        if |ts| >= body && ts[body - 1] == And && (source.FieldValues? ==> ts[1] == FieldIs && ts[2] == Hole) then
          var inner := ParseAnd(ts[body..]);
          if inner.Done? && Starts(inner.rest, Close) then Done(SomeRow(source, inner.condition), inner.rest[1..]) else Failed
        else Failed
      case Col(c) => ParseAtom(c, ts[1..])
      case TagFunction(all) =>
        if |ts| >= 5 && ts[1] == Open && ts[2].Col? && ts[3] == Comma && ts[4] == ArrayOpen then
          ParseArray(ts[2].column, all, ts[5..])
        else Failed
      case TagCount =>
        if |ts| >= 6 && ts[1] == Open && ts[2].Col? && ts[3] == Close && ts[4] == Op(Eq) && ts[5] == Zero then
          Done(NoTags(ts[2].column), ts[6..])
        else Failed
      case _ => Failed
  }

  /** What follows a column. */
  function ParseAtom(c: Column, ts: Tokens): (r: Parsed)
    ensures r.Done? ==> |r.rest| <= |ts|
  {
    if |ts| >= 2 && ts[0].Op? && ts[1] == Hole then Done(Compare(c, ts[0].comparison), ts[2..])
    else if |ts| >= 2 && ts[0] == Op(Eq) && ts[1] == EmptyText then Done(CompareEmpty(c, false), ts[2..])
    else if |ts| >= 2 && ts[0] == Op(Ne) && ts[1] == EmptyText then Done(CompareEmpty(c, true), ts[2..])
    else if |ts| >= 2 && ts[0] == Op(Eq) && ts[1].Word? then Done(CompareFlag(c, ts[1].flag), ts[2..])
    else if |ts| >= 2 && ts[0] == In && ts[1] == Hole then Done(InList(c, false), ts[2..])
    else if |ts| >= 3 && ts[0] == Not && ts[1] == In && ts[2] == Hole then Done(InList(c, true), ts[3..])
    else if |ts| >= 4 && ts[0] == Between && ts[1] == Hole && ts[2] == And && ts[3] == Hole then Done(InRange(c), ts[4..])
    else if |ts| >= 2 && ts[0] == Is && ts[1] == NullWord then Done(NullTest(c, false), ts[2..])
    else if |ts| >= 3 && ts[0] == Is && ts[1] == Not && ts[2] == NullWord then Done(NullTest(c, true), ts[3..])
    else Failed
  }

  /** `?, ?, …]::text[])`, possibly none. */
  function ParseArray(c: Column, all: bool, ts: Tokens): (r: Parsed)
    ensures r.Done? ==> |r.rest| <= |ts|
  {
    if |ts| >= 2 && ts[0] == ArrayClose && ts[1] == Close then Done(HasTags(c, all, 0), ts[2..])
    else if Starts(ts, Hole) then ParseArrayRest(c, all, 1, ts[1..])
    else Failed
  }

  function ParseArrayRest(c: Column, all: bool, count: nat, ts: Tokens): (r: Parsed)
    ensures r.Done? ==> |r.rest| <= |ts|
    decreases |ts|
  {
    if |ts| >= 2 && ts[0] == ArrayClose && ts[1] == Close then Done(HasTags(c, all, count), ts[2..])
    else if |ts| >= 2 && ts[0] == Comma && ts[1] == Hole then ParseArrayRest(c, all, count + 1, ts[2..])
    else Failed
  }

  /** A whole WHERE fragment: nothing may be left over. */
  function Parse(ts: Tokens): Option<Condition>
  {
    var r := ParseOr(ts);
    if r.Done? && r.rest == [] then Some(r.condition) else None
  }

  // ----- meaning

  datatype Truth = True | False | Unknown

  function Known(b: bool): Truth { if b then True else False }

  function Invert(t: Truth): Truth
  {
    match t case True => False case False => True case Unknown => Unknown
  }

  function Conjoin(a: Truth, b: Truth): Truth
  {
    if a.False? || b.False? then False else if a.True? && b.True? then True else Unknown
  }

  function Disjoin(a: Truth, b: Truth): Truth
  {
    Invert(Conjoin(Invert(a), Invert(b)))
  }

  /** Ordered comparison; values without a common order do not compare. */
  function Less(a: Val, b: Val): Truth
  {
    match (a, b)
    case (Number(x), Number(y)) => Known(x < y)
    case (Moment(x), Moment(y)) => Known(x < y)
    case _ => Unknown
  }

  function Equal(a: Val, b: Val): Truth
  {
    if a.Null? || b.Null? then Unknown else Known(a == b)
  }

  function ComparedWith(fold: Folding, a: Val, comparison: Comparison, b: Val): Truth
  {
    match comparison
    case Eq => Equal(a, b)
    case Ne => Invert(Equal(a, b))
    case Lt => Less(a, b)
    case Gt => Less(b, a)
    case Le => Invert(Less(b, a))
    case Ge => Invert(Less(a, b))
    case DistinctFrom => Known(a != b)
    case ILike => if a.Text? && b.Text? then Known(Matches(fold, b.s, a.s)) else Unknown
  }

  /** Membership in a bound list: a NULL among the values leaves a miss undecided. */
  function Member(a: Val, items: seq<Val>): Truth
  {
    if items == [] then False else Disjoin(Equal(a, items[0]), Member(a, items[1..]))
  }

  /** A stored row of a related table. */
  type Record = string -> Val

  datatype FieldValue = FieldValue(field: Val, columns: Record)

  datatype Deal = Deal(deleted: bool, columns: Record)

  /** A contact as the queries see it: its own columns and its related rows; `row` is the one an EXISTS looks at. */
  datatype Env = Env(fold: Folding, contact: Record, values: seq<FieldValue>, deals: seq<Deal>, row: Record)
  {
    function Cell(c: Column): Val
    {
      match c
      case OfContact(name) => contact(name)
      case OfValue(name) => row(name)
      case OfDeal(name) => row(name)
    }
  }

  function Holes(c: Condition): nat
  {
    match c
    case Compare(_, _) => 1
    case InList(_, _) => 1
    case InRange(_) => 2
    case HasTags(_, _, count) => count
    case Negation(inner) => Holes(inner)
    case Both(l, r) => Holes(l) + Holes(r)
    case Either(l, r) => Holes(l) + Holes(r)
    case SomeRow(source, inner) => (if source.FieldValues? then 1 else 0) + Holes(inner)
    case _ => 0
  }

  predicate HasTag(tags: seq<string>, v: Val)
  {
    v.Text? && v.s in tags
  }

  ghost function Eval(c: Condition, args: seq<Val>, env: Env): Truth
    requires |args| == Holes(c)
  {
    match c
    case Compare(col, comparison) => ComparedWith(env.fold, env.Cell(col), comparison, args[0])
    case CompareEmpty(col, negated) =>
      var t := Equal(env.Cell(col), Text(""));
      if negated then Invert(t) else t
    case CompareFlag(col, flag) => Equal(env.Cell(col), Flag(flag))
    case InList(col, negated) =>
      var t := if args[0].List? then Member(env.Cell(col), args[0].items) else Unknown;
      if negated then Invert(t) else t
    case InRange(col) =>
      Conjoin(ComparedWith(env.fold, env.Cell(col), Ge, args[0]), ComparedWith(env.fold, env.Cell(col), Le, args[1]))
    case NullTest(col, negated) => Known(env.Cell(col).Null? != negated)
    case HasTags(col, all, _) =>
      var cell := env.Cell(col);
      if !cell.Tags? then Unknown
      else if all then Known(forall i :: 0 <= i < |args| ==> HasTag(cell.tags, args[i]))
      else Known(exists i :: 0 <= i < |args| && HasTag(cell.tags, args[i]))
    case NoTags(col) => if env.Cell(col).Tags? then Known(|env.Cell(col).tags| == 0) else Unknown
    case Negation(inner) => Invert(Eval(inner, args, env))
    case Both(l, r) => Conjoin(Eval(l, args[..Holes(l)], env), Eval(r, args[Holes(l)..], env))
    case Either(l, r) => Disjoin(Eval(l, args[..Holes(l)], env), Eval(r, args[Holes(l)..], env))
    case SomeRow(source, inner) =>
      match source
      case FieldValues =>
        Known(exists i :: 0 <= i < |env.values| && env.values[i].field == args[0] && !args[0].Null?
                && Eval(inner, args[1..], env.(row := env.values[i].columns)).True?)
      case Deals =>
        Known(exists i :: 0 <= i < |env.deals| && !env.deals[i].deleted
                && Eval(inner, args, env.(row := env.deals[i].columns)).True?)
  }

  // ----- reading back what was written

  /** A self-delimiting text: read as a factor it gives the condition and leaves the rest. */
  ghost predicate Reads(text: Tokens, c: Condition)
  {
    forall rest: Tokens :: ParseFactor(text + rest) == Done(c, rest)
  }

  function Joined(parts: seq<Tokens>, joiner: Token): Tokens
  {
    if parts == [] then [] else if |parts| == 1 then parts[0]
    else Joined(parts[..|parts| - 1], joiner) + [joiner] + parts[|parts| - 1]
  }

  /** The parts in one text, left to right. */
  function Linked(conditions: seq<Condition>, all: bool): Condition
    requires conditions != []
  {
    if |conditions| == 1 then conditions[0]
    else
      var init, last := Linked(conditions[..|conditions| - 1], all), conditions[|conditions| - 1];
      if all then Both(init, last) else Either(init, last)
  }

  ghost predicate AllRead(parts: seq<Tokens>, conditions: seq<Condition>)
  {
    |parts| == |conditions| && forall i :: 0 <= i < |parts| ==> Reads(parts[i], conditions[i])
  }

  /** An AND chain leaves the reader where more of the chain may follow. */
  lemma {:induction false} AndChain(parts: seq<Tokens>, conditions: seq<Condition>, rest: Tokens)
    requires parts != [] && AllRead(parts, conditions)
    ensures ParseAnd(Joined(parts, And) + rest) == AndTail(Linked(conditions, true), rest)
  {
    var n := |parts| - 1;
    if n == 0 {
      assert Joined(parts, And) == parts[0];
    } else {
      var more := [And] + (parts[n] + rest);
      assert Joined(parts, And) + rest == Joined(parts[..n], And) + more;
      AndChain(parts[..n], conditions[..n], more);
      assert more[1..] == parts[n] + rest;
    }
  }

  lemma SingleAnd(text: Tokens, c: Condition, rest: Tokens)
    requires Reads(text, c) && !Starts(rest, And)
    ensures ParseAnd(text + rest) == Done(c, rest)
  {
  }

  lemma {:induction false} OrChain(parts: seq<Tokens>, conditions: seq<Condition>, rest: Tokens)
    requires parts != [] && AllRead(parts, conditions) && !Starts(rest, And)
    ensures ParseOr(Joined(parts, Or) + rest) == OrTail(Linked(conditions, false), rest)
  {
    var n := |parts| - 1;
    if n == 0 {
      assert Joined(parts, Or) == parts[0];
      SingleAnd(parts[0], conditions[0], rest);
    } else {
      var more := [Or] + (parts[n] + rest);
      assert Joined(parts, Or) + rest == Joined(parts[..n], Or) + more;
      OrChain(parts[..n], conditions[..n], more);
      assert more[1..] == parts[n] + rest;
      SingleAnd(parts[n], conditions[n], rest);
    }
  }

  /** A parenthesised group reads as its parts linked, whatever the joiner and however many parts. */
  lemma GroupReads(parts: seq<Tokens>, conditions: seq<Condition>, all: bool)
    requires parts != [] && AllRead(parts, conditions)
    ensures Reads([Open] + Joined(parts, if all then And else Or) + [Close], Linked(conditions, all))
  {
    var joiner := if all then And else Or;
    var text := [Open] + Joined(parts, joiner) + [Close];
    forall rest: Tokens ensures ParseFactor(text + rest) == Done(Linked(conditions, all), rest) {
      var after := [Close] + rest;
      assert text + rest == [Open] + (Joined(parts, joiner) + after);
      assert (text + rest)[1..] == Joined(parts, joiner) + after;
      if all {
        AndChain(parts, conditions, after);
      } else {
        OrChain(parts, conditions, after);
      }
      assert after[0] == Close && after[1..] == rest;
      assert ParseOr(Joined(parts, joiner) + after) == Done(Linked(conditions, all), after);
    }
  }

  lemma NegationReads(text: Tokens, c: Condition)
    requires Reads(text, c)
    ensures Reads([Not] + text, Negation(c))
  {
    forall rest: Tokens ensures ParseFactor([Not] + text + rest) == Done(Negation(c), rest) {
      assert ([Not] + text + rest)[1..] == text + rest;
    }
  }

  /** The text of an EXISTS over one of the related tables. */
  function ExistsText(source: Source, inner: Tokens): Tokens
  {
    [Exists(source)] + (if source.FieldValues? then [FieldIs, Hole, And] else [And]) + inner + [Close]
  }

  lemma ExistsReads(source: Source, inner: Tokens, c: Condition)
    requires Reads(inner, c)
    ensures Reads(ExistsText(source, inner), SomeRow(source, c))
  {
    var text := ExistsText(source, inner);
    var body := if source.FieldValues? then 4 else 2;
    forall rest: Tokens ensures ParseFactor(text + rest) == Done(SomeRow(source, c), rest) {
      var after := [Close] + rest;
      assert (text + rest)[body..] == inner + after;
      SingleAnd(inner, c, after);
      assert after[1..] == rest;
    }
  }

  lemma Regroup(a: Tokens, b: Tokens, c: Tokens)
    ensures a + b + c == a + (b + c)
  {
  }

  lemma ColumnFirst(col: Column, tail: Tokens)
    ensures ParseFactor([Col(col)] + tail) == ParseAtom(col, tail)
  {
    assert ([Col(col)] + tail)[1..] == tail;
  }

  lemma AtomReads(col: Column, tail: Tokens, c: Condition)
    requires forall rest: Tokens :: ParseAtom(col, tail + rest) == Done(c, rest)
    ensures Reads([Col(col)] + tail, c)
  {
    forall rest: Tokens ensures ParseFactor([Col(col)] + tail + rest) == Done(c, rest) {
      Regroup([Col(col)], tail, rest);
      ColumnFirst(col, tail + rest);
    }
  }

  /** `?, ?, …` as many times as there are values. */
  function Placeholders(n: nat): Tokens
  {
    if n == 0 then [] else if n == 1 then [Hole] else Placeholders(n - 1) + [Comma, Hole]
  }

  function TagsText(col: Column, all: bool, n: nat): Tokens
  {
    [TagFunction(all), Open, Col(col), Comma, ArrayOpen] + Placeholders(n) + [ArrayClose, Close]
  }

  /** After `n` placeholders the reader has counted `n`. */
  lemma {:induction false} PlaceholdersRead(col: Column, all: bool, n: nat, rest: Tokens)
    requires n > 0
    ensures ParseArray(col, all, Placeholders(n) + rest) == ParseArrayRest(col, all, n, rest)
  {
    if n == 1 {
      assert (Placeholders(1) + rest)[1..] == rest;
    } else {
      var more := [Comma, Hole] + rest;
      assert Placeholders(n) + rest == Placeholders(n - 1) + more;
      PlaceholdersRead(col, all, n - 1, more);
      assert more[2..] == rest;
    }
  }

  lemma ArrayReads(col: Column, all: bool, n: nat, rest: Tokens)
    ensures ParseArray(col, all, Placeholders(n) + ([ArrayClose, Close] + rest)) == Done(HasTags(col, all, n), rest)
  {
    var after := [ArrayClose, Close] + rest;
    assert after[2..] == rest;
    if n > 0 {
      PlaceholdersRead(col, all, n, after);
    } else {
      assert Placeholders(0) + after == after;
    }
  }

  lemma TagFunctionReads(col: Column, all: bool, items: Tokens)
    ensures ParseFactor([TagFunction(all), Open, Col(col), Comma, ArrayOpen] + items) == ParseArray(col, all, items)
  {
    var ts := [TagFunction(all), Open, Col(col), Comma, ArrayOpen] + items;
    assert ts[5..] == items;
  }

  lemma TagsReads(col: Column, all: bool, n: nat)
    ensures Reads(TagsText(col, all, n), HasTags(col, all, n))
  {
    var head, close := [TagFunction(all), Open, Col(col), Comma, ArrayOpen], [ArrayClose, Close];
    forall rest: Tokens ensures ParseFactor(head + Placeholders(n) + close + rest) == Done(HasTags(col, all, n), rest) {
      ArrayReads(col, all, n, rest);
      TagFunctionReads(col, all, Placeholders(n) + (close + rest));
      Regroup(head + Placeholders(n), close, rest);
      Regroup(head, Placeholders(n), close + rest);
    }
  }

  /** A self-delimiting text is also a whole fragment. */
  lemma ReadsWhole(text: Tokens, c: Condition)
    requires Reads(text, c)
    ensures Parse(text) == Some(c)
  {
    assert text + [] == text;
    SingleAnd(text, c, []);
    assert ParseAnd(text) == Done(c, []);
    assert OrTail(c, []) == Done(c, []);
  }
}
