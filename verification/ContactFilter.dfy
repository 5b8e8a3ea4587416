/**
  Contact filters as they arrive, what makes one acceptable, and which contacts
  it selects.
 */
module ContactFilter {
  import opened Wrappers
  import opened Like
  import opened Sql

  const MAX_DEPTH := 3
  const MAX_RULES := 50
  const MAX_STRING_LEN := 500
  const MAX_LIST_LEN := 200

  datatype GroupOp = NoOp | AndOp | OrOp | OtherOp

  datatype Operator =
    | Equals | NotEquals | Contains | StartsWith | IsEmpty | IsNotEmpty
    | NumEq | NumNeq | NumGt | NumGte | NumLt | NumLte | InBetween
    | On | BeforeDate | AfterDate | WithinLast | MoreThanAgo
    | AmongOptions | NotAmongOptions
    | ContainsAny | ContainsAll | ContainsNone
    | IsTrue | IsFalse
    | IsUser | IsNotUser | IsMe | IsUnassigned
    | OtherOperator

  datatype FieldType = TextType | NumberType | DateType | OptionType | TagsType | BooleanType | UserType

  /** How a field is stored: a column of the contact, a custom field value, or something about its deals. */
  datatype Storage =
    | Plain(column: string)
    | CustomValue(field: Val, column: string)
    | DealColumn(column: string)
    | HasOpenDeal

  datatype Field = Field(fieldType: FieldType, storage: Storage)

  /** A boolean group, or a leaf condition. */
  datatype Node = Node(op: GroupOp, rules: seq<Node>, field: string, operator: Operator, value: Val)
  {
    predicate IsGroup() { op != NoOp || |rules| > 0 }

    predicate SelectsEverything() { field == "" && |rules| == 0 }
  }

  /**
    What a filter is compiled with: who asks, the known fields, the clock and the
    conversions between stored values, dates and text.
   */
  datatype Session = Session(user: Val, lookup: string -> Option<Field>, fold: Folding, show: Val -> string,
                             now: int, parseTime: Val -> Option<int>, parseDuration: Val -> Option<int>,
                             dayStart: int -> int, nextDay: int -> int)
  {
    function AsString(v: Val): string { if v.Text? then v.s else show(v) }
  }

  predicate Supports(t: FieldType, op: Operator)
  {
    match t
    case TextType => op.Equals? || op.NotEquals? || op.Contains? || op.StartsWith? || op.IsEmpty? || op.IsNotEmpty?
    case NumberType => op.NumEq? || op.NumNeq? || op.NumGt? || op.NumGte? || op.NumLt? || op.NumLte? || op.InBetween? || op.IsEmpty?
    case DateType => op.On? || op.BeforeDate? || op.AfterDate? || op.InBetween? || op.WithinLast? || op.MoreThanAgo? || op.IsEmpty?
    case OptionType => op.AmongOptions? || op.NotAmongOptions? || op.IsEmpty?
    case TagsType => op.ContainsAny? || op.ContainsAll? || op.ContainsNone? || op.IsEmpty?
    case BooleanType => op.IsTrue? || op.IsFalse?
    case UserType => op.IsUser? || op.IsNotUser? || op.IsMe? || op.IsUnassigned?
  }

  predicate NeedsValue(op: Operator)
  {
    !(op.IsEmpty? || op.IsNotEmpty? || op.IsTrue? || op.IsFalse? || op.IsMe? || op.IsUnassigned?)
  }

  predicate TooLong(v: Val)
  {
    v.Text? && |v.s| > MAX_STRING_LEN
  }

  /** The shape and size of a rule's value. */
  predicate ValueFits(session: Session, t: FieldType, op: Operator, v: Val)
  {
    NeedsValue(op) ==>
      && !v.Null?
      && (if op.AmongOptions? || op.NotAmongOptions? || op.ContainsAny? || op.ContainsAll? || op.ContainsNone? then
            v.List? && 0 < |v.items| <= MAX_LIST_LEN && forall i :: 0 <= i < |v.items| ==> !TooLong(v.items[i])
          else if op.InBetween? then v.List? && |v.items| == 2
          else if op.WithinLast? || op.MoreThanAgo? then session.parseDuration(v).Some?
          else !TooLong(v) && (t.DateType? ==> session.parseTime(v).Some?))
  }

  predicate LeafFits(session: Session, n: Node)
  {
    var f := session.lookup(n.field);
    f.Some? && Supports(f.value.fieldType, n.operator) && ValueFits(session, f.value.fieldType, n.operator, n.value)
  }

  /** The tree without regard to its number of rules. */
  predicate TreeFits(session: Session, n: Node, depth: nat)
    decreases n
  {
    if n.IsGroup() then
      && depth <= MAX_DEPTH
      && !n.op.OtherOp?
      && forall child :: child in n.rules ==> TreeFits(session, child, depth + 1)
    else LeafFits(session, n)
  }

  function Leaves(n: Node): nat
    decreases n, 0
  {
    if n.IsGroup() then LeavesOf(n.rules) else 1
  }

  function LeavesOf(nodes: seq<Node>): nat
    decreases nodes
  {
    if nodes == [] then 0 else LeavesOf(nodes[..|nodes| - 1]) + Leaves(nodes[|nodes| - 1])
  }

  datatype Refusal = TooDeep | UnknownGroupOp | TooManyRules | UnknownField | UnsupportedOperator | BadValue

  class FilterValidator {
    const session: Session
    var count: nat

    constructor (session: Session)
      ensures this.session == session && count == 0
    {
      this.session := session;
      count := 0;
    }

    /** Passes exactly when the tree fits and there is room for its rules. */
    method ValidateNode(n: Node, depth: nat) returns (r: Option<Refusal>)
      requires count <= MAX_RULES
      modifies this
      ensures r.None? <==> TreeFits(session, n, depth) && old(count) + Leaves(n) <= MAX_RULES
      ensures r.None? ==> count == old(count) + Leaves(n)
      ensures r == Some(TooManyRules) ==> old(count) + Leaves(n) > MAX_RULES
      decreases n
    {
      if n.IsGroup() {
        if depth > MAX_DEPTH {
          return Some(TooDeep);
        }
        if n.op.OtherOp? {
          return Some(UnknownGroupOp);
        }
        for i := 0 to |n.rules|
          invariant count == old(count) + LeavesOf(n.rules[..i]) <= MAX_RULES
          invariant forall j :: 0 <= j < i ==> TreeFits(session, n.rules[j], depth + 1)
        {
          assert n.rules[..i + 1][..i] == n.rules[..i];
          LeavesPrefix(n.rules, i + 1);
          r := ValidateNode(n.rules[i], depth + 1);
          if r.Some? {
            assert n.rules[i] in n.rules;
            return;
          }
        }
        assert n.rules[..|n.rules|] == n.rules;
        return None;
      }
      count := count + 1;
      if count > MAX_RULES {
        return Some(TooManyRules);
      }
      var field := session.lookup(n.field);
      if field.None? {
        return Some(UnknownField);
      }
      if !Supports(field.value.fieldType, n.operator) {
        return Some(UnsupportedOperator);
      }
      if !ValueFits(session, field.value.fieldType, n.operator, n.value) {
        return Some(BadValue);
      }
      return None;
    }
  }

  lemma {:induction false} LeavesPrefix(nodes: seq<Node>, k: nat)
    requires k <= |nodes|
    ensures LeavesOf(nodes[..k]) <= LeavesOf(nodes)
    decreases |nodes|
  {
    if k < |nodes| {
      LeavesPrefix(nodes[..|nodes| - 1], k);
      assert nodes[..|nodes| - 1][..k] == nodes[..k];
    } else {
      assert nodes[..k] == nodes;
    }
  }

  // ----- which contacts a filter selects

  /** A group nothing is left of does not restrict anything. */
  predicate Vanishes(n: Node)
    decreases n
  {
    n.IsGroup() && forall child :: child in n.rules ==> Vanishes(child)
  }

  ghost predicate Earlier(a: Val, b: Val)
  {
    || (a.Number? && b.Number? && a.n < b.n)
    || (a.Moment? && b.Moment? && a.at < b.at)
  }

  predicate Comparable(a: Val, b: Val)
  {
    (a.Number? && b.Number?) || (a.Moment? && b.Moment?)
  }

  ghost predicate AtLeast(a: Val, b: Val)
  {
    Comparable(a, b) && !Earlier(a, b)
  }

  /** What each operator asks of the stored value. */
  ghost predicate CellAccepts(session: Session, t: FieldType, op: Operator, v: Val, cell: Val)
  {
    match t
    case TextType => (match op
      case Equals => !cell.Null? && cell == v
      case NotEquals => cell != v
      case Contains => cell.Text? && Occurs(session.fold, session.AsString(v), cell.s)
      case StartsWith => cell.Text? && |session.AsString(v)| <= |cell.s|
          && Same(session.fold, session.AsString(v), cell.s[..|session.AsString(v)|])
      case IsEmpty => cell.Null? || cell == Text("")
      case IsNotEmpty => !cell.Null? && cell != Text("")
      case _ => false)
    case NumberType => (match op
      case NumEq => !cell.Null? && cell == v
      case NumNeq => cell != v
      case NumGt => Earlier(v, cell)
      case NumGte => AtLeast(cell, v)
      case NumLt => Earlier(cell, v)
      case NumLte => AtLeast(v, cell)
      case InBetween => v.List? && |v.items| == 2 && AtLeast(cell, v.items[0]) && AtLeast(v.items[1], cell)
      case IsEmpty => cell.Null?
      case _ => false)
    case DateType => DateAccepts(session, op, v, cell)
    case OptionType => (match op
      case AmongOptions => v.List? && !cell.Null? && cell in v.items
      case NotAmongOptions => v.List? && (cell.Null? || (cell !in v.items && Null !in v.items))
      case IsEmpty => cell.Null? || cell == Text("")
      case _ => false)
    case TagsType => (match op
      case ContainsAny => v.List? && cell.Tags? && exists i :: 0 <= i < |v.items| && session.AsString(v.items[i]) in cell.tags
      case ContainsAll => v.List? && cell.Tags? && forall i :: 0 <= i < |v.items| ==> session.AsString(v.items[i]) in cell.tags
      case ContainsNone => v.List? && cell.Tags? && forall i :: 0 <= i < |v.items| ==> session.AsString(v.items[i]) !in cell.tags
      case IsEmpty => cell.Null? || cell == Tags([])
      case _ => false)
    case BooleanType => (match op
      case IsTrue => cell == Flag(true)
      case IsFalse => cell == Flag(false) || cell.Null?
      case _ => false)
    case UserType => (match op
      case IsUser => !cell.Null? && cell == v
      case IsNotUser => cell.Null? || (cell != v && !v.Null?)
      case IsMe => !cell.Null? && cell == session.user
      case IsUnassigned => cell.Null?
      case _ => false)
  }

  ghost predicate DateAccepts(session: Session, op: Operator, v: Val, cell: Val)
  {
    match op
    case On => session.parseTime(v).Some? && cell.Moment?
      && (var start := session.dayStart(session.parseTime(v).value);
          start <= cell.at < session.nextDay(start))
    case BeforeDate => session.parseTime(v).Some? && cell.Moment? && cell.at < session.parseTime(v).value
    case AfterDate => session.parseTime(v).Some? && cell.Moment? && cell.at > session.parseTime(v).value
    case InBetween => v.List? && |v.items| == 2 && cell.Moment?
      && session.parseTime(v.items[0]).Some? && session.parseTime(v.items[1]).Some?
      && session.parseTime(v.items[0]).value <= cell.at <= session.parseTime(v.items[1]).value
    case WithinLast => session.parseDuration(v).Some? && cell.Moment?
      && cell.at >= session.now - session.parseDuration(v).value
    case MoreThanAgo => session.parseDuration(v).Some? && cell.Moment?
      && cell.at < session.now - session.parseDuration(v).value
    case IsEmpty => cell.Null?
    case _ => false
  }

  const OPEN_DEAL := Text("open")

  /**
    One rule on one contact. A custom field is empty when no value is stored;
    every other question about it needs a stored value. "Not in" over deals means
    no deal is in the list.
   */
  ghost predicate LeafAccepts(session: Session, f: Field, n: Node, contact: Env)
  {
    match f.storage
    case Plain(column) => CellAccepts(session, f.fieldType, n.operator, n.value, contact.contact(column))
    case CustomValue(id, column) =>
      if n.operator.IsEmpty? then
        !exists i :: StoredFor(contact, id, i) && !contact.values[i].columns(column).Null?
      else
        exists i :: StoredFor(contact, id, i)
          && CellAccepts(session, f.fieldType, n.operator, n.value, contact.values[i].columns(column))
    case DealColumn(column) =>
      if n.operator.NotAmongOptions? then
        !exists i :: LiveDeal(contact, i)
          && CellAccepts(session, OptionType, AmongOptions, n.value, contact.deals[i].columns(column))
      else
        exists i :: LiveDeal(contact, i)
          && CellAccepts(session, OptionType, n.operator, n.value, contact.deals[i].columns(column))
    case HasOpenDeal =>
      n.operator.IsFalse? != exists i :: LiveDeal(contact, i) && contact.deals[i].columns("status") == OPEN_DEAL
  }

  /** A value row of the contact for this field. */
  predicate StoredFor(contact: Env, id: Val, i: int)
  {
    0 <= i < |contact.values| && contact.values[i].field == id && !id.Null?
  }

  predicate LiveDeal(contact: Env, i: int)
  {
    0 <= i < |contact.deals| && !contact.deals[i].deleted
  }

  /** The filter on one contact: the direct reading of the tree, with nothing about SQL in it. */
  ghost predicate Accepts(session: Session, n: Node, contact: Env)
    decreases n
  {
    if n.IsGroup() then
      if n.op.OrOp? then
        Vanishes(n) || exists child :: child in n.rules && !Vanishes(child) && Accepts(session, child, contact)
      else
        forall child :: child in n.rules && !Vanishes(child) ==> Accepts(session, child, contact)
    else
      var f := session.lookup(n.field);
      f.Some? && LeafAccepts(session, f.value, n, contact)
  }
}
