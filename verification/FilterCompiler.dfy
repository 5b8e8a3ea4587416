/**
  From a filter tree to a WHERE fragment with bound arguments, and the proof
  that the fragment selects the contacts the tree asks for.
 */
module FilterCompiler {
  import opened Wrappers
  import opened Like
  import opened Sql
  import opened ContactFilter

  /** A WHERE fragment with its bound arguments; an empty text restricts nothing. */
  datatype Compiled = Compiled(text: Tokens, args: seq<Val>)

  datatype Problem = UnknownFieldName | UnsupportedBy(fieldType: FieldType) | BadDate | BadPair

  type Outcome = Result<Compiled, Problem>

  function Parens(text: Tokens): Tokens { [Open] + text + [Close] }

  function CompileText(session: Session, col: Column, n: Node): Outcome
  {
    match n.operator
    case Equals => Ok(Compiled([Col(col), Op(Eq), Hole], [n.value]))
    case NotEquals => Ok(Compiled([Open, Col(col), Op(DistinctFrom), Hole, Close], [n.value]))
    case Contains =>
      Ok(Compiled([Col(col), Op(ILike), Hole], [Text("%" + EscapeLike(session.AsString(n.value)) + "%")]))
    case StartsWith =>
      Ok(Compiled([Col(col), Op(ILike), Hole], [Text(EscapeLike(session.AsString(n.value)) + "%")]))
    case IsEmpty => Ok(Compiled([Open, Col(col), Is, NullWord, Or, Col(col), Op(Eq), EmptyText, Close], []))
    case IsNotEmpty => Ok(Compiled([Open, Col(col), Is, Not, NullWord, And, Col(col), Op(Ne), EmptyText, Close], []))
    case _ => Err(UnsupportedBy(TextType))
  }

  function CompileNumber(col: Column, n: Node): Outcome
  {
    match n.operator
    case NumEq => Ok(Compiled([Col(col), Op(Eq), Hole], [n.value]))
    case NumNeq => Ok(Compiled([Open, Col(col), Op(DistinctFrom), Hole, Close], [n.value]))
    case NumGt => Ok(Compiled([Col(col), Op(Gt), Hole], [n.value]))
    case NumGte => Ok(Compiled([Col(col), Op(Ge), Hole], [n.value]))
    case NumLt => Ok(Compiled([Col(col), Op(Lt), Hole], [n.value]))
    case NumLte => Ok(Compiled([Col(col), Op(Le), Hole], [n.value]))
    case InBetween =>
      if n.value.List? && |n.value.items| == 2
      then Ok(Compiled([Col(col), Between, Hole, And, Hole], [n.value.items[0], n.value.items[1]]))
      else Err(BadPair)
    case IsEmpty => Ok(Compiled([Col(col), Is, NullWord], []))
    case _ => Err(UnsupportedBy(NumberType))
  }

  function CompileDate(session: Session, col: Column, n: Node): Outcome
  {
    match n.operator
    case On =>
      var at := session.parseTime(n.value);
      if at.None? then Err(BadDate)
      else
        var start := session.dayStart(at.value);
        Ok(Compiled([Open, Col(col), Op(Ge), Hole, And, Col(col), Op(Lt), Hole, Close],
                    [Moment(start), Moment(session.nextDay(start))]))
    case BeforeDate =>
      var at := session.parseTime(n.value);
      if at.None? then Err(BadDate) else Ok(Compiled([Col(col), Op(Lt), Hole], [Moment(at.value)]))
    case AfterDate =>
      var at := session.parseTime(n.value);
      if at.None? then Err(BadDate) else Ok(Compiled([Col(col), Op(Gt), Hole], [Moment(at.value)]))
    case InBetween =>
      if !(n.value.List? && |n.value.items| == 2) then Err(BadPair)
      else
        var from, to := session.parseTime(n.value.items[0]), session.parseTime(n.value.items[1]);
        if from.None? || to.None? then Err(BadDate)
        else Ok(Compiled([Open, Col(col), Op(Ge), Hole, And, Col(col), Op(Le), Hole, Close],
                         [Moment(from.value), Moment(to.value)]))
    case WithinLast =>
      var d := session.parseDuration(n.value);
      if d.None? then Err(BadDate) else Ok(Compiled([Col(col), Op(Ge), Hole], [Moment(session.now - d.value)]))
    case MoreThanAgo =>
      var d := session.parseDuration(n.value);
      if d.None? then Err(BadDate) else Ok(Compiled([Col(col), Op(Lt), Hole], [Moment(session.now - d.value)]))
    case IsEmpty => Ok(Compiled([Col(col), Is, NullWord], []))
    case _ => Err(UnsupportedBy(DateType))
  }

  /** A value that is not a list is bound as the empty list. */
  function ToList(v: Val): seq<Val>
  {
    if v.List? then v.items else []
  }

  function CompileOption(col: Column, n: Node): Outcome
  {
    match n.operator
    case AmongOptions => Ok(Compiled([Col(col), In, Hole], [List(ToList(n.value))]))
    case NotAmongOptions =>
      // NOT IN alone would drop rows where the column is NULL.
      Ok(Compiled([Open, Col(col), Is, NullWord, Or, Col(col), Not, In, Hole, Close], [List(ToList(n.value))]))
    case IsEmpty => Ok(Compiled([Open, Col(col), Is, NullWord, Or, Col(col), Op(Eq), EmptyText, Close], []))
    case _ => Err(UnsupportedBy(OptionType))
  }

  function Shown(session: Session, items: seq<Val>): (r: seq<Val>)
    ensures |r| == |items|
  {
    seq(|items|, i requires 0 <= i < |items| => Text(session.AsString(items[i])))
  }

  /** The placeholders of a tag list and their arguments, one for each value. */
  method TextArray(session: Session, value: Val) returns (placeholders: Tokens, args: seq<Val>)
    ensures args == Shown(session, ToList(value))
    ensures placeholders == Placeholders(|args|)
  {
    placeholders, args := [], [];
    var list := ToList(value);
    for i := 0 to |list|
      invariant args == Shown(session, list[..i])
      invariant placeholders == Placeholders(i)
    {
      if i == 0 {
        placeholders := [Hole];
      } else {
        placeholders := placeholders + [Comma, Hole];
      }
      args := args + [Text(session.AsString(list[i]))];
    }
    assert list[..|list|] == list;
  }

  function CompileTags(session: Session, col: Column, n: Node): Outcome
  {
    var args := Shown(session, ToList(n.value));
    match n.operator
    case ContainsAny => Ok(Compiled(TagsText(col, false, |args|), args))
    case ContainsAll => Ok(Compiled(TagsText(col, true, |args|), args))
    case ContainsNone => Ok(Compiled([Not] + TagsText(col, false, |args|), args))
    case IsEmpty =>
      Ok(Compiled([Open, Col(col), Is, NullWord, Or, TagCount, Open, Col(col), Close, Op(Eq), Zero, Close], []))
    case _ => Err(UnsupportedBy(TagsType))
  }

  function CompileBoolean(col: Column, n: Node): Outcome
  {
    match n.operator
    case IsTrue => Ok(Compiled([Col(col), Op(Eq), Word(true)], []))
    case IsFalse => Ok(Compiled([Open, Col(col), Op(Eq), Word(false), Or, Col(col), Is, NullWord, Close], []))
    case _ => Err(UnsupportedBy(BooleanType))
  }

  function CompileUser(session: Session, col: Column, n: Node): Outcome
  {
    match n.operator
    case IsUser => Ok(Compiled([Col(col), Op(Eq), Hole], [n.value]))
    case IsNotUser => Ok(Compiled([Open, Col(col), Is, NullWord, Or, Col(col), Op(Ne), Hole, Close], [n.value]))
    case IsMe => Ok(Compiled([Col(col), Op(Eq), Hole], [session.user]))
    case IsUnassigned => Ok(Compiled([Col(col), Is, NullWord], []))
    case _ => Err(UnsupportedBy(UserType))
  }

  /** One rule against one column, by the field's type. */
  function CompileLeaf(session: Session, t: FieldType, col: Column, n: Node): Outcome
  {
    match t
    case TextType => CompileText(session, col, n)
    case NumberType => CompileNumber(col, n)
    case DateType => CompileDate(session, col, n)
    case OptionType => CompileOption(col, n)
    case TagsType => CompileTags(session, col, n)
    case BooleanType => CompileBoolean(col, n)
    case UserType => CompileUser(session, col, n)
  }

  /** A custom field rule: an EXISTS over the stored values; emptiness is the absence of a row. */
  function BuildCustomValue(session: Session, t: FieldType, id: Val, column: string, n: Node): Outcome
  {
    if n.operator.IsEmpty? then
      Ok(Compiled([Not] + ExistsText(FieldValues, [Col(OfValue(column)), Is, Not, NullWord]), [id]))
    else
      var inner := CompileLeaf(session, t, OfValue(column), n);
      if inner.Err? then inner
      else Ok(Compiled(ExistsText(FieldValues, inner.value.text), [id] + inner.value.args))
  }

  /** A deal rule: "not in" negates the EXISTS, not the condition inside it. */
  function BuildDealColumn(session: Session, column: string, n: Node): Outcome
  {
    var negate := n.operator.NotAmongOptions?;
    var rule := if negate then n.(operator := AmongOptions) else n;
    var inner := CompileLeaf(session, OptionType, OfDeal(column), rule);
    if inner.Err? then inner
    else
      var exist := ExistsText(Deals, inner.value.text);
      Ok(Compiled(if negate then [Not] + exist else exist, inner.value.args))
  }

  function BuildHasOpenDeal(n: Node): Outcome
  {
    var exist := ExistsText(Deals, [Col(OfDeal("status")), Op(Eq), Hole]);
    Ok(Compiled(if n.operator.IsFalse? then [Not] + exist else exist, [OPEN_DEAL]))
  }

  function CompileRule(session: Session, n: Node): Outcome
  {
    var field := session.lookup(n.field);
    if field.None? then Err(UnknownFieldName)
    else
      match field.value.storage
      case Plain(column) => CompileLeaf(session, field.value.fieldType, OfContact(column), n)
      case CustomValue(id, column) => BuildCustomValue(session, field.value.fieldType, id, column, n)
      case DealColumn(column) => BuildDealColumn(session, column, n)
      case HasOpenDeal => BuildHasOpenDeal(n)
  }

  // ----- the tree

  /** The parts a group is joined from, in order, and all their arguments. */
  datatype Gathered = Gathered(parts: seq<Tokens>, args: seq<Val>)

  function Gather(session: Session, nodes: seq<Node>): Result<Gathered, Problem>
    decreases nodes
  {
    if nodes == [] then Ok(Gathered([], []))
    else
      var before := Gather(session, nodes[..|nodes| - 1]);
      if before.Err? then before
      else
        var last := Compile(session, nodes[|nodes| - 1]);
        if last.Err? then Err(last.error)
        else if last.value.text == [] then before
        else Ok(Gathered(before.value.parts + [last.value.text], before.value.args + last.value.args))
  }

  function Compile(session: Session, n: Node): Outcome
    decreases n, 0
  {
    if n.IsGroup() then
      var all := Gather(session, n.rules);
      if all.Err? then Err(all.error)
      else if all.value.parts == [] then Ok(Compiled([], []))
      else Ok(Compiled(Parens(Joined(all.value.parts, if n.op.OrOp? then Or else And)), all.value.args))
    else CompileRule(session, n)
  }

  /** The compiler itself: parts and arguments are appended child by child. */
  method CompileNode(session: Session, n: Node) returns (r: Outcome)
    ensures r == Compile(session, n)
    decreases n
  {
    if n.IsGroup() {
      var joiner := And;
      if n.op.OrOp? {
        joiner := Or;
      }
      var parts: seq<Tokens>, args: seq<Val> := [], [];
      for i := 0 to |n.rules|
        invariant Gather(session, n.rules[..i]) == Ok(Gathered(parts, args))
      {
        assert n.rules[..i + 1][..i] == n.rules[..i];
        var child := CompileNode(session, n.rules[i]);
        if child.Err? {
          GatherStops(session, n.rules, i + 1);
          return Err(child.error);
        }
        if child.value.text == [] {
          continue;
        }
        parts := parts + [child.value.text];
        args := args + child.value.args;
      }
      assert n.rules[..|n.rules|] == n.rules;
      if |parts| == 0 {
        return Ok(Compiled([], []));
      }
      return Ok(Compiled([Open] + Joined(parts, joiner) + [Close], args));
    }
    r := CompileRule(session, n);
  }

  /** The first child that does not compile decides the group. */
  lemma {:induction false} GatherStops(session: Session, nodes: seq<Node>, k: nat)
    requires k <= |nodes| && Gather(session, nodes[..k]).Err?
    ensures Gather(session, nodes) == Gather(session, nodes[..k])
    decreases |nodes|
  {
    if k == |nodes| {
      assert nodes[..k] == nodes;
    } else {
      assert nodes[..|nodes| - 1][..k] == nodes[..k];
      GatherStops(session, nodes[..|nodes| - 1], k);
    }
  }

  // ----- leaves mean what they ask

  /** A fragment reads as `c`, needs as many arguments as it has, and is true exactly when the cell is accepted. */
  ghost predicate CellFaithful(session: Session, t: FieldType, n: Node, col: Column, k: Compiled, c: Condition)
  {
    && k.text != []
    && Reads(k.text, c)
    && Holes(c) == |k.args|
    && forall env: Env :: env.fold == session.fold ==>
         (Eval(c, k.args, env).True? <==> CellAccepts(session, t, n.operator, n.value, env.Cell(col)))
  }

  lemma PairReads(a: Tokens, x: Condition, b: Tokens, y: Condition, all: bool)
    requires Reads(a, x) && Reads(b, y)
    ensures Reads([Open] + a + [if all then And else Or] + b + [Close], if all then Both(x, y) else Either(x, y))
  {
    var parts, conditions := [a, b], [x, y];
    GroupReads(parts, conditions, all);
    assert parts[..1] == [a] && conditions[..1] == [x];
    assert Joined(parts, if all then And else Or) == a + [if all then And else Or] + b;
    assert Linked(conditions, all) == if all then Both(x, y) else Either(x, y);
    assert [Open] + Joined(parts, if all then And else Or) + [Close] == [Open] + a + [if all then And else Or] + b + [Close];
  }

  lemma OneReads(a: Tokens, x: Condition)
    requires Reads(a, x)
    ensures Reads([Open] + a + [Close], x)
  {
    GroupReads([a], [x], true);
  }

  lemma CompareReads(col: Column, op: Comparison)
    ensures Reads([Col(col), Op(op), Hole], Compare(col, op))
  {
    AtomReads(col, [Op(op), Hole], Compare(col, op));
    assert [Col(col)] + [Op(op), Hole] == [Col(col), Op(op), Hole];
  }

  lemma NullReads(col: Column)
    ensures Reads([Col(col), Is, NullWord], NullTest(col, false))
    ensures Reads([Col(col), Is, Not, NullWord], NullTest(col, true))
  {
    AtomReads(col, [Is, NullWord], NullTest(col, false));
    AtomReads(col, [Is, Not, NullWord], NullTest(col, true));
    assert [Col(col)] + [Is, NullWord] == [Col(col), Is, NullWord];
    assert [Col(col)] + [Is, Not, NullWord] == [Col(col), Is, Not, NullWord];
  }

  lemma EmptyReads(col: Column)
    ensures Reads([Open, Col(col), Is, NullWord, Or, Col(col), Op(Eq), EmptyText, Close],
                  Either(NullTest(col, false), CompareEmpty(col, false)))
    ensures Reads([Open, Col(col), Is, Not, NullWord, And, Col(col), Op(Ne), EmptyText, Close],
                  Both(NullTest(col, true), CompareEmpty(col, true)))
  {
    NullReads(col);
    AtomReads(col, [Op(Eq), EmptyText], CompareEmpty(col, false));
    AtomReads(col, [Op(Ne), EmptyText], CompareEmpty(col, true));
    assert [Col(col)] + [Op(Eq), EmptyText] == [Col(col), Op(Eq), EmptyText];
    assert [Col(col)] + [Op(Ne), EmptyText] == [Col(col), Op(Ne), EmptyText];
    PairReads([Col(col), Is, NullWord], NullTest(col, false), [Col(col), Op(Eq), EmptyText], CompareEmpty(col, false), false);
    PairReads([Col(col), Is, Not, NullWord], NullTest(col, true), [Col(col), Op(Ne), EmptyText], CompareEmpty(col, true), true);
    assert [Open] + [Col(col), Is, NullWord] + [Or] + [Col(col), Op(Eq), EmptyText] + [Close]
        == [Open, Col(col), Is, NullWord, Or, Col(col), Op(Eq), EmptyText, Close];
    assert [Open] + [Col(col), Is, Not, NullWord] + [And] + [Col(col), Op(Ne), EmptyText] + [Close]
        == [Open, Col(col), Is, Not, NullWord, And, Col(col), Op(Ne), EmptyText, Close];
  }

  lemma DistinctReads(col: Column)
    ensures Reads([Open, Col(col), Op(DistinctFrom), Hole, Close], Compare(col, DistinctFrom))
  {
    CompareReads(col, DistinctFrom);
    OneReads([Col(col), Op(DistinctFrom), Hole], Compare(col, DistinctFrom));
    assert [Open] + [Col(col), Op(DistinctFrom), Hole] + [Close] == [Open, Col(col), Op(DistinctFrom), Hole, Close];
  }

  lemma TextFaithful(session: Session, col: Column, n: Node) returns (c: Condition)
    requires Supports(TextType, n.operator)
    ensures CompileText(session, col, n).Ok? && CellFaithful(session, TextType, n, col, CompileText(session, col, n).value, c)
  {
    var k := CompileText(session, col, n).value;
    match n.operator
    case Equals => CompareReads(col, Eq); c := Compare(col, Eq);
    case NotEquals => DistinctReads(col); c := Compare(col, DistinctFrom);
    case Contains =>
      CompareReads(col, ILike);
      c := Compare(col, ILike);
      forall env: Env | env.fold == session.fold && env.Cell(col).Text?
        ensures Eval(c, k.args, env).True? <==> Occurs(session.fold, session.AsString(n.value), env.Cell(col).s)
      {
        ContainsIsLiteral(session.fold, session.AsString(n.value), env.Cell(col).s);
      }
    case StartsWith =>
      CompareReads(col, ILike);
      c := Compare(col, ILike);
      forall env: Env | env.fold == session.fold && env.Cell(col).Text?
        ensures Eval(c, k.args, env).True? <==> CellAccepts(session, TextType, StartsWith, n.value, env.Cell(col))
      {
        StartsWithIsLiteral(session.fold, session.AsString(n.value), env.Cell(col).s);
      }
    case IsEmpty => EmptyReads(col); c := Either(NullTest(col, false), CompareEmpty(col, false));
    case IsNotEmpty => EmptyReads(col); c := Both(NullTest(col, true), CompareEmpty(col, true));
  }

  /** A column compared with one bound number. */
  lemma ComparedNumberFaithful(session: Session, col: Column, n: Node, op: Comparison)
    requires n.operator == match op
      case Eq => NumEq case Gt => NumGt case Ge => NumGte case Lt => NumLt case _ => NumLte
    requires op.Eq? || op.Gt? || op.Ge? || op.Lt? || op.Le?
    ensures CellFaithful(session, NumberType, n, col, Compiled([Col(col), Op(op), Hole], [n.value]), Compare(col, op))
  {
    CompareReads(col, op);
  }

  lemma BetweenFaithful(session: Session, col: Column, n: Node)
    requires n.operator.InBetween? && n.value.List? && |n.value.items| == 2
    ensures CellFaithful(session, NumberType, n, col,
              Compiled([Col(col), Between, Hole, And, Hole], [n.value.items[0], n.value.items[1]]), InRange(col))
  {
    AtomReads(col, [Between, Hole, And, Hole], InRange(col));
    assert [Col(col)] + [Between, Hole, And, Hole] == [Col(col), Between, Hole, And, Hole];
  }

  lemma NumberFaithful(session: Session, col: Column, n: Node) returns (c: Condition)
    requires Supports(NumberType, n.operator) && CompileNumber(col, n).Ok?
    ensures CellFaithful(session, NumberType, n, col, CompileNumber(col, n).value, c)
  {
    match n.operator
    case NumEq => ComparedNumberFaithful(session, col, n, Eq); c := Compare(col, Eq);
    case NumGt => ComparedNumberFaithful(session, col, n, Gt); c := Compare(col, Gt);
    case NumGte => ComparedNumberFaithful(session, col, n, Ge); c := Compare(col, Ge);
    case NumLt => ComparedNumberFaithful(session, col, n, Lt); c := Compare(col, Lt);
    case NumLte => ComparedNumberFaithful(session, col, n, Le); c := Compare(col, Le);
    case NumNeq => DistinctReads(col); c := Compare(col, DistinctFrom);
    case InBetween => BetweenFaithful(session, col, n); c := InRange(col);
    case IsEmpty => NullReads(col); c := NullTest(col, false);
  }

  lemma RangeReads(col: Column, upper: Comparison)
    ensures Reads([Open, Col(col), Op(Ge), Hole, And, Col(col), Op(upper), Hole, Close],
                  Both(Compare(col, Ge), Compare(col, upper)))
  {
    CompareReads(col, Ge);
    CompareReads(col, upper);
    PairReads([Col(col), Op(Ge), Hole], Compare(col, Ge), [Col(col), Op(upper), Hole], Compare(col, upper), true);
    assert [Open] + [Col(col), Op(Ge), Hole] + [And] + [Col(col), Op(upper), Hole] + [Close]
        == [Open, Col(col), Op(Ge), Hole, And, Col(col), Op(upper), Hole, Close];
  }

  lemma DateRangeFaithful(session: Session, col: Column, n: Node) returns (c: Condition)
    requires (n.operator.On? || n.operator.InBetween?) && CompileDate(session, col, n).Ok?
    ensures CellFaithful(session, DateType, n, col, CompileDate(session, col, n).value, c)
  {
    var upper := if n.operator.On? then Lt else Le;
    RangeReads(col, upper);
    c := Both(Compare(col, Ge), Compare(col, upper));
  }

  lemma DateFaithful(session: Session, col: Column, n: Node) returns (c: Condition)
    requires Supports(DateType, n.operator) && CompileDate(session, col, n).Ok?
    ensures CellFaithful(session, DateType, n, col, CompileDate(session, col, n).value, c)
  {
    if n.operator.On? || n.operator.InBetween? {
      c := DateRangeFaithful(session, col, n);
    } else if n.operator.IsEmpty? {
      NullReads(col);
      c := NullTest(col, false);
    } else {
      var op := if n.operator.AfterDate? then Gt else if n.operator.WithinLast? then Ge else Lt;
      CompareReads(col, op);
      c := Compare(col, op);
    }
  }

  lemma {:induction false} MemberTruth(a: Val, items: seq<Val>)
    ensures Member(a, items).True? <==> !a.Null? && a in items
    ensures Member(a, items).False? <==> items == [] || (!a.Null? && a !in items && Null !in items)
  {
    if items != [] {
      MemberTruth(a, items[1..]);
      assert forall v :: v in items <==> v == items[0] || v in items[1..];
    }
  }

  lemma OptionFaithful(session: Session, col: Column, n: Node) returns (c: Condition)
    requires Supports(OptionType, n.operator) && ValueFits(session, OptionType, n.operator, n.value)
    ensures CompileOption(col, n).Ok? && CellFaithful(session, OptionType, n, col, CompileOption(col, n).value, c)
  {
    var items := ToList(n.value);
    forall env: Env {
      MemberTruth(env.Cell(col), items);
    }
    match n.operator
    case AmongOptions =>
      AtomReads(col, [In, Hole], InList(col, false));
      assert [Col(col)] + [In, Hole] == [Col(col), In, Hole];
      c := InList(col, false);
    case NotAmongOptions =>
      NotAmongReads(col);
      c := Either(NullTest(col, false), InList(col, true));
    case IsEmpty => EmptyReads(col); c := Either(NullTest(col, false), CompareEmpty(col, false));
  }

  lemma NotAmongReads(col: Column)
    ensures Reads([Open, Col(col), Is, NullWord, Or, Col(col), Not, In, Hole, Close],
                  Either(NullTest(col, false), InList(col, true)))
  {
    AtomReads(col, [Not, In, Hole], InList(col, true));
    assert [Col(col)] + [Not, In, Hole] == [Col(col), Not, In, Hole];
    NullReads(col);
    PairReads([Col(col), Is, NullWord], NullTest(col, false), [Col(col), Not, In, Hole], InList(col, true), false);
    assert [Open] + [Col(col), Is, NullWord] + [Or] + [Col(col), Not, In, Hole] + [Close]
        == [Open, Col(col), Is, NullWord, Or, Col(col), Not, In, Hole, Close];
  }

  lemma NoTagsReads(col: Column)
    ensures Reads([Open, Col(col), Is, NullWord, Or, TagCount, Open, Col(col), Close, Op(Eq), Zero, Close],
                  Either(NullTest(col, false), NoTags(col)))
  {
    NullReads(col);
    var count := [TagCount, Open, Col(col), Close, Op(Eq), Zero];
    forall rest: Tokens ensures ParseFactor(count + rest) == Done(NoTags(col), rest) {
      assert (count + rest)[6..] == rest;
    }
    PairReads([Col(col), Is, NullWord], NullTest(col, false), count, NoTags(col), false);
    assert [Open] + [Col(col), Is, NullWord] + [Or] + count + [Close]
        == [Open, Col(col), Is, NullWord, Or, TagCount, Open, Col(col), Close, Op(Eq), Zero, Close];
  }

  lemma TagTruth(session: Session, items: seq<Val>, tags: seq<string>)
    ensures (exists i :: 0 <= i < |Shown(session, items)| && HasTag(tags, Shown(session, items)[i]))
            <==> exists i :: 0 <= i < |items| && session.AsString(items[i]) in tags
    ensures (forall i :: 0 <= i < |Shown(session, items)| ==> HasTag(tags, Shown(session, items)[i]))
            <==> forall i :: 0 <= i < |items| ==> session.AsString(items[i]) in tags
  {
    var args := Shown(session, items);
    assert forall i :: 0 <= i < |items| ==> (HasTag(tags, args[i]) <==> session.AsString(items[i]) in tags);
  }

  lemma TagsFaithful(session: Session, col: Column, n: Node) returns (c: Condition)
    requires Supports(TagsType, n.operator) && ValueFits(session, TagsType, n.operator, n.value)
    ensures CompileTags(session, col, n).Ok? && CellFaithful(session, TagsType, n, col, CompileTags(session, col, n).value, c)
  {
    var k := CompileTags(session, col, n).value;
    if n.operator.IsEmpty? {
      NoTagsReads(col);
      return Either(NullTest(col, false), NoTags(col));
    }
    var all := n.operator.ContainsAll?;
    TagsReads(col, all, |k.args|);
    if n.operator.ContainsNone? {
      NegationReads(TagsText(col, all, |k.args|), HasTags(col, all, |k.args|));
      c := Negation(HasTags(col, all, |k.args|));
    } else {
      c := HasTags(col, all, |k.args|);
    }
    forall env: Env ensures Eval(c, k.args, env).True? <==> CellAccepts(session, TagsType, n.operator, n.value, env.Cell(col)) {
      if env.Cell(col).Tags? {
        TagTruth(session, n.value.items, env.Cell(col).tags);
      }
    }
  }

  lemma BooleanFaithful(session: Session, col: Column, n: Node) returns (c: Condition)
    requires Supports(BooleanType, n.operator)
    ensures CompileBoolean(col, n).Ok? && CellFaithful(session, BooleanType, n, col, CompileBoolean(col, n).value, c)
  {
    AtomReads(col, [Op(Eq), Word(true)], CompareFlag(col, true));
    AtomReads(col, [Op(Eq), Word(false)], CompareFlag(col, false));
    assert [Col(col)] + [Op(Eq), Word(true)] == [Col(col), Op(Eq), Word(true)];
    assert [Col(col)] + [Op(Eq), Word(false)] == [Col(col), Op(Eq), Word(false)];
    match n.operator
    case IsTrue => c := CompareFlag(col, true);
    case IsFalse =>
      NullReads(col);
      PairReads([Col(col), Op(Eq), Word(false)], CompareFlag(col, false), [Col(col), Is, NullWord], NullTest(col, false), false);
      assert [Open] + [Col(col), Op(Eq), Word(false)] + [Or] + [Col(col), Is, NullWord] + [Close]
          == [Open, Col(col), Op(Eq), Word(false), Or, Col(col), Is, NullWord, Close];
      c := Either(CompareFlag(col, false), NullTest(col, false));
  }

  lemma UserFaithful(session: Session, col: Column, n: Node) returns (c: Condition)
    requires Supports(UserType, n.operator)
    ensures CompileUser(session, col, n).Ok? && CellFaithful(session, UserType, n, col, CompileUser(session, col, n).value, c)
  {
    CompareReads(col, Eq);
    CompareReads(col, Ne);
    NullReads(col);
    match n.operator
    case IsUser => c := Compare(col, Eq);
    case IsNotUser =>
      PairReads([Col(col), Is, NullWord], NullTest(col, false), [Col(col), Op(Ne), Hole], Compare(col, Ne), false);
      assert [Open] + [Col(col), Is, NullWord] + [Or] + [Col(col), Op(Ne), Hole] + [Close]
          == [Open, Col(col), Is, NullWord, Or, Col(col), Op(Ne), Hole, Close];
      c := Either(NullTest(col, false), Compare(col, Ne));
    case IsMe => c := Compare(col, Eq);
    case IsUnassigned => c := NullTest(col, false);
  }

  lemma LeafFaithful(session: Session, t: FieldType, col: Column, n: Node) returns (c: Condition)
    requires Supports(t, n.operator) && ValueFits(session, t, n.operator, n.value)
    requires CompileLeaf(session, t, col, n).Ok?
    ensures CellFaithful(session, t, n, col, CompileLeaf(session, t, col, n).value, c)
  {
    match t
    case TextType => c := TextFaithful(session, col, n);
    case NumberType => c := NumberFaithful(session, col, n);
    case DateType => c := DateFaithful(session, col, n);
    case OptionType => c := OptionFaithful(session, col, n);
    case TagsType => c := TagsFaithful(session, col, n);
    case BooleanType => c := BooleanFaithful(session, col, n);
    case UserType => c := UserFaithful(session, col, n);
  }

  // ----- rules about related rows

  /** A fragment reads as `c`, needs as many arguments as it has, and is true exactly of the accepted contacts. */
  ghost predicate RuleFaithful(session: Session, f: Field, n: Node, k: Compiled, c: Condition)
  {
    && k.text != []
    && Reads(k.text, c)
    && Holes(c) == |k.args|
    && forall contact: Env :: contact.fold == session.fold ==>
         (Eval(c, k.args, contact).True? <==> LeafAccepts(session, f, n, contact))
  }

  lemma CustomValueFaithful(session: Session, f: Field, n: Node) returns (c: Condition)
    requires f.storage.CustomValue?
    requires Supports(f.fieldType, n.operator) && ValueFits(session, f.fieldType, n.operator, n.value)
    requires BuildCustomValue(session, f.fieldType, f.storage.field, f.storage.column, n).Ok?
    ensures RuleFaithful(session, f, n, BuildCustomValue(session, f.fieldType, f.storage.field, f.storage.column, n).value, c)
  {
    var id, column := f.storage.field, f.storage.column;
    var col := OfValue(column);
    var k := BuildCustomValue(session, f.fieldType, id, column, n).value;
    if n.operator.IsEmpty? {
      NullReads(col);
      ExistsReads(FieldValues, [Col(col), Is, Not, NullWord], NullTest(col, true));
      var inner := SomeRow(FieldValues, NullTest(col, true));
      NegationReads(ExistsText(FieldValues, [Col(col), Is, Not, NullWord]), inner);
      c := Negation(inner);
      assert Holes(inner) == 1;
      forall contact: Env ensures Eval(c, k.args, contact).True? <==> LeafAccepts(session, f, n, contact) {
        forall i | 0 <= i < |contact.values|
          ensures Eval(NullTest(col, true), k.args[1..], contact.(row := contact.values[i].columns)).True?
                  <==> !contact.values[i].columns(column).Null?
        {
        }
        assert forall i :: StoredFor(contact, id, i) <==> 0 <= i < |contact.values| && contact.values[i].field == id && !id.Null?;
      }
    } else {
      var d := LeafFaithful(session, f.fieldType, col, n);
      var leaf := CompileLeaf(session, f.fieldType, col, n).value;
      ExistsReads(FieldValues, leaf.text, d);
      c := SomeRow(FieldValues, d);
      assert k.args[1..] == leaf.args;
      forall contact: Env | contact.fold == session.fold
        ensures Eval(c, k.args, contact).True? <==> LeafAccepts(session, f, n, contact)
      {
        forall i | 0 <= i < |contact.values|
          ensures Eval(d, leaf.args, contact.(row := contact.values[i].columns)).True?
                  <==> CellAccepts(session, f.fieldType, n.operator, n.value, contact.values[i].columns(column))
        {
          assert contact.(row := contact.values[i].columns).Cell(col) == contact.values[i].columns(column);
        }
        assert forall i :: StoredFor(contact, id, i) <==> 0 <= i < |contact.values| && contact.values[i].field == id && !id.Null?;
      }
    }
  }

  lemma DealColumnFaithful(session: Session, f: Field, n: Node) returns (c: Condition)
    requires f.storage.DealColumn?
    requires Supports(OptionType, n.operator) && ValueFits(session, OptionType, n.operator, n.value)
    ensures BuildDealColumn(session, f.storage.column, n).Ok?
    ensures RuleFaithful(session, f, n, BuildDealColumn(session, f.storage.column, n).value, c)
  {
    var column := f.storage.column;
    var col := OfDeal(column);
    var negate := n.operator.NotAmongOptions?;
    var rule := if negate then n.(operator := AmongOptions) else n;
    var d := OptionFaithful(session, col, rule);
    var leaf := CompileOption(col, rule).value;
    ExistsReads(Deals, leaf.text, d);
    c := SomeRow(Deals, d);
    if negate {
      NegationReads(ExistsText(Deals, leaf.text), c);
      c := Negation(c);
    }
    forall contact: Env | contact.fold == session.fold
      ensures Eval(c, leaf.args, contact).True? <==> LeafAccepts(session, f, n, contact)
    {
      forall i | 0 <= i < |contact.deals|
        ensures Eval(d, leaf.args, contact.(row := contact.deals[i].columns)).True?
                <==> CellAccepts(session, OptionType, rule.operator, n.value, contact.deals[i].columns(column))
      {
        assert contact.(row := contact.deals[i].columns).Cell(col) == contact.deals[i].columns(column);
      }
      assert forall i :: LiveDeal(contact, i) <==> 0 <= i < |contact.deals| && !contact.deals[i].deleted;
    }
  }

  lemma HasOpenDealFaithful(session: Session, f: Field, n: Node) returns (c: Condition)
    requires f.storage.HasOpenDeal?
    ensures BuildHasOpenDeal(n).Ok? && RuleFaithful(session, f, n, BuildHasOpenDeal(n).value, c)
  {
    var col := OfDeal("status");
    CompareReads(col, Eq);
    ExistsReads(Deals, [Col(col), Op(Eq), Hole], Compare(col, Eq));
    c := SomeRow(Deals, Compare(col, Eq));
    if n.operator.IsFalse? {
      NegationReads(ExistsText(Deals, [Col(col), Op(Eq), Hole]), c);
      c := Negation(c);
    }
    forall contact: Env ensures Eval(c, [OPEN_DEAL], contact).True? <==> LeafAccepts(session, f, n, contact) {
      forall i | 0 <= i < |contact.deals|
        ensures Eval(Compare(col, Eq), [OPEN_DEAL], contact.(row := contact.deals[i].columns)).True?
                <==> contact.deals[i].columns("status") == OPEN_DEAL
      {
        assert contact.(row := contact.deals[i].columns).Cell(col) == contact.deals[i].columns("status");
      }
      assert forall i :: LiveDeal(contact, i) <==> 0 <= i < |contact.deals| && !contact.deals[i].deleted;
    }
  }

  /** Fields are registered with the type their storage compiles as. */
  predicate WellRegistered(f: Field)
  {
    && (f.storage.DealColumn? ==> f.fieldType.OptionType?)
    && (f.storage.HasOpenDeal? ==> f.fieldType.BooleanType?)
  }

  lemma RuleMeaning(session: Session, n: Node) returns (c: Condition)
    requires LeafFits(session, n) && WellRegistered(session.lookup(n.field).value)
    requires CompileRule(session, n).Ok?
    ensures RuleFaithful(session, session.lookup(n.field).value, n, CompileRule(session, n).value, c)
  {
    var f := session.lookup(n.field).value;
    match f.storage
    case Plain(column) =>
      c := LeafFaithful(session, f.fieldType, OfContact(column), n);
    case CustomValue(id, column) => c := CustomValueFaithful(session, f, n);
    case DealColumn(column) => c := DealColumnFaithful(session, f, n);
    case HasOpenDeal => c := HasOpenDealFaithful(session, f, n);
  }

  // ----- the whole tree

  ghost predicate AllRegistered(session: Session)
  {
    forall key :: session.lookup(key).Some? ==> WellRegistered(session.lookup(key).value)
  }

  /** What is compiled of a node: nothing when it vanishes, and otherwise a text that means the node. */
  ghost predicate NodeFaithful(session: Session, n: Node, k: Compiled, c: Condition)
  {
    if Vanishes(n) then k == Compiled([], [])
    else
      && k.text != []
      && Reads(k.text, c)
      && Holes(c) == |k.args|
      && forall contact: Env :: contact.fold == session.fold ==>
           (Eval(c, k.args, contact).True? <==> Accepts(session, n, contact))
  }

  /** The arguments of linked conditions, cut where the last one begins. */
  lemma LinkedEval(conditions: seq<Condition>, all: bool, args: seq<Val>, contact: Env)
    requires |conditions| > 1 && |args| == Holes(Linked(conditions, all))
    ensures var init, last := Linked(conditions[..|conditions| - 1], all), conditions[|conditions| - 1];
            && Holes(Linked(conditions, all)) == Holes(init) + Holes(last)
            && (Eval(Linked(conditions, all), args, contact).True? <==>
                  if all then Eval(init, args[..Holes(init)], contact).True? && Eval(last, args[Holes(init)..], contact).True?
                  else Eval(init, args[..Holes(init)], contact).True? || Eval(last, args[Holes(init)..], contact).True?)
  {
  }

  /** What the parts gathered from a list of nodes mean, joined either way. */
  ghost predicate ListFaithful(session: Session, nodes: seq<Node>, all: bool, g: Gathered, conditions: seq<Condition>)
  {
    && (forall i :: 0 <= i < |g.parts| ==> g.parts[i] != [])
    && AllRead(g.parts, conditions)
    && (conditions == [] <==> forall i :: 0 <= i < |nodes| ==> Vanishes(nodes[i]))
    && (conditions == [] ==> g.args == [])
    && (conditions != [] ==>
          && Holes(Linked(conditions, all)) == |g.args|
          && forall contact: Env :: contact.fold == session.fold ==>
               (Eval(Linked(conditions, all), g.args, contact).True? <==> ListAccepts(session, nodes, all, contact)))
  }

  ghost predicate ListAccepts(session: Session, nodes: seq<Node>, all: bool, contact: Env)
  {
    if all then forall i :: 0 <= i < |nodes| && !Vanishes(nodes[i]) ==> Accepts(session, nodes[i], contact)
    else exists i :: 0 <= i < |nodes| && !Vanishes(nodes[i]) && Accepts(session, nodes[i], contact)
  }

  lemma ListAcceptsSnoc(session: Session, nodes: seq<Node>, all: bool, contact: Env)
    requires nodes != []
    ensures var init, last := nodes[..|nodes| - 1], nodes[|nodes| - 1];
            ListAccepts(session, nodes, all, contact) <==>
              if all then ListAccepts(session, init, all, contact) && (!Vanishes(last) ==> Accepts(session, last, contact))
              else ListAccepts(session, init, all, contact) || (!Vanishes(last) && Accepts(session, last, contact))
  {
    var n := |nodes| - 1;
    assert forall i :: 0 <= i < n ==> nodes[..n][i] == nodes[i];
  }

  lemma {:induction false} GatherFaithful(session: Session, nodes: seq<Node>, all: bool, depth: nat) returns (conditions: seq<Condition>)
    requires AllRegistered(session) && Gather(session, nodes).Ok?
    requires forall i :: 0 <= i < |nodes| ==> TreeFits(session, nodes[i], depth)
    ensures ListFaithful(session, nodes, all, Gather(session, nodes).value, conditions)
    decreases nodes
  {
    if nodes == [] {
      return [];
    }
    var init, last := nodes[..|nodes| - 1], nodes[|nodes| - 1];
    assert forall i :: 0 <= i < |init| ==> init[i] == nodes[i];
    var before := GatherFaithful(session, init, all, depth);
    var c := CompileFaithful(session, last, depth);
    var g, k := Gather(session, init).value, Compile(session, last).value;
    if Vanishes(last) {
      conditions := before;
      forall contact: Env ensures ListAccepts(session, nodes, all, contact) <==> ListAccepts(session, init, all, contact) {
        ListAcceptsSnoc(session, nodes, all, contact);
      }
      assert forall i :: 0 <= i < |nodes| ==> i < |init| || nodes[i] == last;
    } else {
      conditions := before + [c];
      SnocFaithful(session, nodes, all, g, before, k, c);
    }
  }

  lemma {:induction false} SnocFaithful(session: Session, nodes: seq<Node>, all: bool, g: Gathered, before: seq<Condition>,
                                        k: Compiled, c: Condition)
    requires nodes != [] && !Vanishes(nodes[|nodes| - 1])
    requires ListFaithful(session, nodes[..|nodes| - 1], all, g, before)
    requires NodeFaithful(session, nodes[|nodes| - 1], k, c)
    ensures ListFaithful(session, nodes, all, Gathered(g.parts + [k.text], g.args + k.args), before + [c])
  {
    var conditions, args := before + [c], g.args + k.args;
    assert conditions[..|before|] == before;
    if before == [] {
      assert conditions == [c] && args == k.args;
      assert Linked(conditions, all) == c;
    } else {
      assert Linked(conditions, all) == if all then Both(Linked(before, all), c) else Either(Linked(before, all), c);
      assert args[..|g.args|] == g.args && args[|g.args|..] == k.args;
    }
    forall contact: Env | contact.fold == session.fold
      ensures Eval(Linked(conditions, all), args, contact).True? <==> ListAccepts(session, nodes, all, contact)
    {
      ListAcceptsSnoc(session, nodes, all, contact);
      if before != [] {
        LinkedEval(conditions, all, args, contact);
      }
    }
  }

  lemma {:induction false} CompileFaithful(session: Session, n: Node, depth: nat) returns (c: Condition)
    requires AllRegistered(session) && Compile(session, n).Ok?
    requires TreeFits(session, n, depth)
    ensures NodeFaithful(session, n, Compile(session, n).value, c)
    decreases n, 0
  {
    if !n.IsGroup() {
      c := RuleMeaning(session, n);
      return;
    }
    var all := !n.op.OrOp?;
    forall i | 0 <= i < |n.rules| ensures TreeFits(session, n.rules[i], depth + 1) {
      assert n.rules[i] in n.rules;
    }
    var conditions := GatherFaithful(session, n.rules, all, depth + 1);
    var g := Gather(session, n.rules).value;
    assert Vanishes(n) <==> conditions == [] by {
      assert forall child :: child in n.rules ==> exists i :: 0 <= i < |n.rules| && n.rules[i] == child;
    }
    if conditions == [] {
      c := NullTest(OfContact(""), false);
    } else {
      c := Linked(conditions, all);
      GroupReads(g.parts, conditions, all);
      forall contact: Env ensures Accepts(session, n, contact) <==> ListAccepts(session, n.rules, all, contact) {
        assert forall child :: child in n.rules ==> exists i :: 0 <= i < |n.rules| && n.rules[i] == child;
      }
    }
  }

  /** The rows a compiled filter keeps: those its text, read back and evaluated with its arguments, is true of. */
  ghost predicate Keeps(k: Compiled, contact: Env)
  {
    k.text == [] ||
    (Parse(k.text).Some? && Holes(Parse(k.text).value) == |k.args| && Eval(Parse(k.text).value, k.args, contact).True?)
  }

  /** Whether a filter selects a contact, as its author meant it. */
  ghost predicate Selects(session: Session, filter: Node, contact: Env)
  {
    filter.SelectsEverything() || Accepts(session, filter, contact)
  }

  /**
    Main result. For every filter that validates and compiles: the written text
    reads back as one condition with exactly one placeholder per argument, and
    with the arguments bound left to right it keeps precisely the contacts the
    filter tree accepts.
   */
  lemma CompiledFilterMeansTheFilter(session: Session, filter: Node, contact: Env)
    requires AllRegistered(session) && contact.fold == session.fold
    requires TreeFits(session, filter, 1) && Leaves(filter) <= MAX_RULES && Compile(session, filter).Ok?
    ensures var k := Compile(session, filter).value;
            && (k.text != [] ==> Parse(k.text).Some? && Holes(Parse(k.text).value) == |k.args|)
            && (k.text == [] <==> Vanishes(filter))
            && (Keeps(k, contact) <==> Accepts(session, filter, contact))
  {
    var c := CompileFaithful(session, filter, 1);
    var k := Compile(session, filter).value;
    if !Vanishes(filter) {
      ReadsWhole(k.text, c);
    }
  }

  // ----- what compiles

  /** Validation checks that a date range has two ends, but not that they are dates. */
  predicate LeafDatesParse(session: Session, n: Node)
  {
    var f := session.lookup(n.field);
    f.Some? && f.value.fieldType.DateType? && n.operator.InBetween? ==>
      n.value.List? && |n.value.items| == 2
      && session.parseTime(n.value.items[0]).Some? && session.parseTime(n.value.items[1]).Some?
  }

  predicate DateRangesParse(session: Session, n: Node)
    decreases n
  {
    if n.IsGroup() then forall child :: child in n.rules ==> DateRangesParse(session, child)
    else LeafDatesParse(session, n)
  }

  lemma RuleCompilesExactly(session: Session, n: Node)
    requires LeafFits(session, n) && WellRegistered(session.lookup(n.field).value)
    ensures CompileRule(session, n).Ok? <==> LeafDatesParse(session, n)
    ensures CompileRule(session, n).Err? ==> CompileRule(session, n).error.BadDate?
  {
  }

  lemma {:induction false} GatherExactly(session: Session, nodes: seq<Node>, depth: nat)
    requires AllRegistered(session)
    requires forall i :: 0 <= i < |nodes| ==> TreeFits(session, nodes[i], depth)
    ensures Gather(session, nodes).Ok? <==> forall i :: 0 <= i < |nodes| ==> DateRangesParse(session, nodes[i])
    ensures Gather(session, nodes).Err? ==> Gather(session, nodes).error.BadDate?
    decreases nodes
  {
    if nodes != [] {
      var init, last := nodes[..|nodes| - 1], nodes[|nodes| - 1];
      assert forall i :: 0 <= i < |init| ==> init[i] == nodes[i];
      GatherExactly(session, init, depth);
      CompilesExactly(session, last, depth);
      assert forall i :: 0 <= i < |nodes| ==> i < |init| || nodes[i] == last;
    }
  }

  /** A filter that validates compiles exactly when all its date ranges have readable ends. */
  lemma {:induction false} CompilesExactly(session: Session, n: Node, depth: nat)
    requires AllRegistered(session) && TreeFits(session, n, depth)
    ensures Compile(session, n).Ok? <==> DateRangesParse(session, n)
    ensures Compile(session, n).Err? ==> Compile(session, n).error.BadDate?
    decreases n, 0
  {
    if !n.IsGroup() {
      RuleCompilesExactly(session, n);
    } else {
      forall i | 0 <= i < |n.rules| ensures TreeFits(session, n.rules[i], depth + 1) {
        assert n.rules[i] in n.rules;
      }
      GatherExactly(session, n.rules, depth + 1);
      assert forall child :: child in n.rules ==> exists i :: 0 <= i < |n.rules| && n.rules[i] == child;
    }
  }

  datatype Applied = Rejected(refusal: Refusal) | NotCompiled(problem: Problem) | Restricted(where: Compiled)

  /** "Created between soon and later". */
  function SoonToLater(): Node
  {
    Node(NoOp, [], "created_at", InBetween, List([Text("soon"), Text("later")]))
  }

  /** One date field, and dates that are numbers of seconds. */
  function PlainSession(): Session
  {
    Session(Null, key => if key == "created_at" then Some(Field(DateType, Plain("contacts.created_at"))) else None,
            c => c, v => "", 0, (v: Val) => if v.Moment? then Some(v.at) else None, v => None, at => at, at => at + 86400)
  }

  /** It passes validation and is no filter. */
  lemma ValidatesAndDoesNotCompile()
    ensures AllRegistered(PlainSession())
    ensures TreeFits(PlainSession(), SoonToLater(), 1) && Leaves(SoonToLater()) <= MAX_RULES
    ensures Compile(PlainSession(), SoonToLater()) == Err(BadDate)
  {
    assert ValueFits(PlainSession(), DateType, InBetween, SoonToLater().value);
    assert PlainSession().parseTime(Text("soon")).None?;
  }

  /**
    A filter applied to a query: everything when it is empty, an error when it
    does not validate or compile, and otherwise exactly the contacts it selects.
   */
  method Apply(session: Session, filter: Node) returns (r: Applied)
    requires AllRegistered(session)
    ensures r.Restricted? <==>
              (filter.SelectsEverything()
               || (TreeFits(session, filter, 1) && Leaves(filter) <= MAX_RULES && DateRangesParse(session, filter)))
    ensures r.Restricted? ==> forall contact: Env :: contact.fold == session.fold ==>
              (Keeps(r.where, contact) <==> Selects(session, filter, contact))
  {
    if filter.SelectsEverything() {
      return Restricted(Compiled([], []));
    }
    var validator := new FilterValidator(session);
    var refusal := validator.ValidateNode(filter, 1);
    if refusal.Some? {
      return Rejected(refusal.value);
    }
    var compiled := CompileNode(session, filter);
    CompilesExactly(session, filter, 1);
    if compiled.Err? {
      return NotCompiled(compiled.error);
    }
    forall contact: Env | contact.fold == session.fold
      ensures Keeps(compiled.value, contact) <==> Selects(session, filter, contact)
    {
      CompiledFilterMeansTheFilter(session, filter, contact);
    }
    return Restricted(compiled.value);
  }
}
