/**
  Which filters validation accepts, read off what the compiler does with them: an
  operator is accepted where it compiles, a value is asked for where it matters,
  and must have the shape its operator works with.
 */
module FilterAcceptance {
  import opened Wrappers
  import opened Like
  import opened Sql
  import opened ContactFilter
  import opened FilterCompiler

  /** A node `level` levels below another one. */
  ghost predicate At(n: Node, m: Node, level: nat)
    decreases level
  {
    if level == 0 then m == n
    else exists child :: child in n.rules && At(child, m, level - 1)
  }

  /** Texts are at most 500 characters. */
  predicate Short(v: Val)
  {
    v.Text? ==> |v.s| <= 500
  }

  /** The shape and size of a value, by the name of its operator. */
  predicate Shaped(session: Session, op: Operator, v: Val)
  {
    match op
    case IsEmpty | IsNotEmpty | IsTrue | IsFalse | IsMe | IsUnassigned => true
    case AmongOptions | NotAmongOptions | ContainsAny | ContainsAll | ContainsNone =>
      v.List? && 1 <= |v.items| <= 200 && forall i :: 0 <= i < |v.items| ==> Short(v.items[i])
    case InBetween => v.List? && |v.items| == 2
    case WithinLast | MoreThanAgo => !v.Null? && session.parseDuration(v).Some?
    case On | BeforeDate | AfterDate => !v.Null? && Short(v) && session.parseTime(v).Some?
    case _ => !v.Null? && Short(v)
  }

  /** What an operator does for a field type does not depend on whether anybody supports it: it compiles or it does not. */
  lemma OperatorCompiles(session: Session, t: FieldType, col: Column, n: Node)
    ensures Supports(t, n.operator) <==> CompileLeaf(session, t, col, n) != Err(UnsupportedBy(t))
  {
    match t
    case TextType =>
    case NumberType =>
    case DateType =>
    case OptionType =>
    case TagsType =>
    case BooleanType =>
    case UserType =>
  }

  lemma ValueIsShaped(session: Session, t: FieldType, op: Operator, v: Val)
    requires Supports(t, op)
    ensures ValueFits(session, t, op, v) <==> Shaped(session, op, v)
  {
  }

  /** A single rule is accepted exactly when its field is known, its operator compiles for it, and its value has the shape. */
  lemma RuleAcceptedExactly(session: Session, n: Node, depth: nat, col: Column)
    requires !n.IsGroup()
    ensures TreeFits(session, n, depth) <==>
      && session.lookup(n.field).Some?
      && (var t := session.lookup(n.field).value.fieldType; CompileLeaf(session, t, col, n) != Err(UnsupportedBy(t)))
      && Shaped(session, n.operator, n.value)
  {
    if session.lookup(n.field).Some? {
      var t := session.lookup(n.field).value.fieldType;
      OperatorCompiles(session, t, col, n);
      if Supports(t, n.operator) {
        ValueIsShaped(session, t, n.operator, n.value);
      }
    }
  }

  // ----- where a value is asked for

  function Rule(field: string, op: Operator, v: Val): Node
  {
    Node(NoOp, [], field, op, v)
  }

  /** What a rule compiles to does not depend on its value, whoever asks and whatever the clock says. */
  ghost predicate ValueFree(t: FieldType, op: Operator)
  {
    forall session: Session, col: Column, v: Val, w: Val :: SameFragment(session, t, op, col, v, w)
  }

  predicate SameFragment(session: Session, t: FieldType, op: Operator, col: Column, v: Val, w: Val)
  {
    CompileLeaf(session, t, col, Rule("", op, v)) == CompileLeaf(session, t, col, Rule("", op, w))
  }

  /** Accepted whatever the value, by anybody. */
  ghost predicate AlwaysAccepted(t: FieldType, op: Operator)
  {
    forall session: Session, field: string, v: Val ::
      session.lookup(field).Some? && session.lookup(field).value.fieldType == t ==> TreeFits(session, Rule(field, op, v), 1)
  }

  predicate Compiles(session: Session, t: FieldType, op: Operator)
  {
    CompileLeaf(session, t, OfContact(""), Rule("", op, Null)) != Err(UnsupportedBy(t))
  }

  /** A session in which numbers are also dates and durations. */
  function Sample(t: FieldType): Session
  {
    Session(Null, _ => Some(Field(t, Plain(""))), c => c, _ => "", 0, SampleTime, SampleTime, at => at, at => at + 1)
  }

  function SampleTime(v: Val): Option<int>
  {
    if v.Number? then Some(v.n) else None
  }

  /** Two values an operator that takes one tells apart. */
  function Other(op: Operator): Val
  {
    match op
    case AmongOptions | NotAmongOptions | ContainsAny | ContainsAll | ContainsNone => List([Null])
    case InBetween => List([Number(0), Number(1)])
    case Contains | StartsWith => Text("a")
    case _ => Number(1)
  }

  /** An operator's value is left unchecked exactly when it makes no difference to what the rule compiles to. */
  lemma ValueAskedExactly(session: Session, t: FieldType, op: Operator)
    requires Compiles(session, t, op)
    ensures AlwaysAccepted(t, op) <==> ValueFree(t, op)
  {
    OperatorCompiles(session, t, OfContact(""), Rule("", op, Null));
    if op.IsEmpty? || op.IsNotEmpty? || op.IsTrue? || op.IsFalse? || op.IsMe? || op.IsUnassigned? {
      NoValueNeeded(t, op);
    } else {
      ValueNeeded(t, op);
    }
  }

  lemma NoValueNeeded(t: FieldType, op: Operator)
    requires Supports(t, op)
    requires op.IsEmpty? || op.IsNotEmpty? || op.IsTrue? || op.IsFalse? || op.IsMe? || op.IsUnassigned?
    ensures AlwaysAccepted(t, op) && ValueFree(t, op)
  {
    forall session: Session, field: string, v: Val
      | session.lookup(field).Some? && session.lookup(field).value.fieldType == t
      ensures TreeFits(session, Rule(field, op, v), 1)
    {
      ValueIsShaped(session, t, op, v);
    }
    forall session: Session, col: Column, v: Val, w: Val
      ensures SameFragment(session, t, op, col, v, w)
    {
    }
  }

  lemma ValueNeeded(t: FieldType, op: Operator)
    requires Supports(t, op)
    requires !(op.IsEmpty? || op.IsNotEmpty? || op.IsTrue? || op.IsFalse? || op.IsMe? || op.IsUnassigned?)
    ensures !AlwaysAccepted(t, op) && !ValueFree(t, op)
  {
    var session := Sample(t);
    ValueIsShaped(session, t, op, Null);
    assert !TreeFits(session, Rule("", op, Null), 1);
    OtherDiffers(session, t, op);
  }

  lemma OtherDiffers(session: Session, t: FieldType, op: Operator)
    requires Supports(t, op) && session == Sample(t)
    requires !(op.IsEmpty? || op.IsNotEmpty? || op.IsTrue? || op.IsFalse? || op.IsMe? || op.IsUnassigned?)
    ensures !SameFragment(session, t, op, OfContact(""), Null, Other(op))
  {
    match t
    case TextType =>
      assert EscapeLike("") == "" && EscapeLike("a") == "a" by {
        assert "a"[1..] == "";
      }
      assert |"%" + EscapeLike("") + "%"| == 2 && |"%" + EscapeLike("a") + "%"| == 3;
      assert |EscapeLike("") + "%"| == 1 && |EscapeLike("a") + "%"| == 2;
    case NumberType =>
    case DateType =>
    case OptionType =>
    case TagsType =>
    case BooleanType =>
    case UserType =>
  }

  // ----- whole trees

  /** A node at its level: a rule that fits, or a group of a known operator not below level 3. */
  ghost predicate Good(session: Session, m: Node, level: nat)
  {
    if m.IsGroup() then level <= 3 && (m.op.NoOp? || m.op.AndOp? || m.op.OrOp?) else TreeFits(session, m, level)
  }

  ghost predicate AllGood(session: Session, n: Node, depth: nat)
  {
    forall m, k: nat :: At(n, m, k) ==> Good(session, m, depth + k)
  }

  lemma {:induction false} AllGoodParts(session: Session, n: Node, depth: nat)
    ensures AllGood(session, n, depth) <==>
            Good(session, n, depth) && forall child :: child in n.rules ==> AllGood(session, child, depth + 1)
  {
    assert At(n, n, 0);
    if AllGood(session, n, depth) {
      assert Good(session, n, depth + 0);
      forall child, m, k: nat | child in n.rules && At(child, m, k)
        ensures Good(session, m, depth + 1 + k)
      {
        assert At(n, m, k + 1);
        assert Good(session, m, depth + (k + 1));
      }
    }
    if Good(session, n, depth) && forall child :: child in n.rules ==> AllGood(session, child, depth + 1) {
      forall m, k: nat | At(n, m, k)
        ensures Good(session, m, depth + k)
      {
        if k > 0 {
          var child :| child in n.rules && At(child, m, k - 1);
          assert Good(session, m, depth + 1 + (k - 1));
        }
      }
    }
  }

  /** A tree fits exactly when every rule in it does, every group's operator is known, and no group is below level 3. */
  lemma {:induction false} FitsExactly(session: Session, n: Node, depth: nat)
    ensures TreeFits(session, n, depth) <==> AllGood(session, n, depth)
    decreases n
  {
    AllGoodParts(session, n, depth);
    forall child | child in n.rules
      ensures TreeFits(session, child, depth + 1) <==> AllGood(session, child, depth + 1)
    {
      FitsExactly(session, child, depth + 1);
    }
  }

  /** What the validator passes from the top: a good tree of at most 50 rules. */
  lemma FilterAcceptedExactly(session: Session, n: Node)
    ensures TreeFits(session, n, 1) && Leaves(n) <= MAX_RULES <==> AllGood(session, n, 1) && Leaves(n) <= 50
  {
    FitsExactly(session, n, 1);
  }
}
