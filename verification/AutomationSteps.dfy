/**
  The step tree of an automation rule: what a rule's path looks like, where its
  steps are, and what is left of it after a given step.
 */
module AutomationSteps {
  import opened Wrappers
  import opened Sequences

  /** The two flow-control steps, and every action of the shared library by name. */
  datatype Kind = Condition | Wait | Action(name: string)

  /**
    One step on a rule's path. `config` is its settings as stored; `yes` and `no`
    are the two paths out of a question.
   */
  datatype Step = Step(id: string, kind: Kind, config: string, continueOnError: bool,
                       yes: seq<Step>, no: seq<Step>)

  /** Every step id of a tree, in the order the tree is written. */
  function Ids(steps: seq<Step>): seq<string>
  {
    if steps == [] then [] else [steps[0].id] + Ids(steps[0].yes) + Ids(steps[0].no) + Ids(steps[1..])
  }

  function CountSteps(steps: seq<Step>): nat
  {
    if steps == [] then 0
    else 1 + CountSteps(steps[0].yes) + CountSteps(steps[0].no) + CountSteps(steps[1..])
  }

  lemma {:induction false} CountIsIds(steps: seq<Step>)
    ensures CountSteps(steps) == |Ids(steps)|
  {
    if steps != [] {
      CountIsIds(steps[0].yes);
      CountIsIds(steps[0].no);
      CountIsIds(steps[1..]);
    }
  }

  /** A step anywhere in a tree. */
  ghost predicate Within(steps: seq<Step>, s: Step)
  {
    steps != [] &&
      (steps[0] == s || Within(steps[0].yes, s) || Within(steps[0].no, s) || Within(steps[1..], s))
  }

  /** What one step contributes to the ids of its list, and how those ids must differ. */
  lemma DistinctStep(steps: seq<Step>)
    requires steps != [] && Distinct(Ids(steps))
    ensures Distinct(Ids(steps[0].yes)) && Distinct(Ids(steps[0].no)) && Distinct(Ids(steps[1..]))
    ensures Disjoint(Ids(steps[0].yes), Ids(steps[0].no))
    ensures Disjoint(Ids(steps[0].yes), Ids(steps[1..])) && Disjoint(Ids(steps[0].no), Ids(steps[1..]))
    ensures steps[0].id !in Ids(steps[0].yes) && steps[0].id !in Ids(steps[0].no) && steps[0].id !in Ids(steps[1..])
  {
    var a, y, n, r := [steps[0].id], Ids(steps[0].yes), Ids(steps[0].no), Ids(steps[1..]);
    DistinctConcat(a + y + n, r);
    DistinctConcat(a + y, n);
    DistinctConcat(a, y);
    assert forall x :: x in a + y <==> x in a || x in y;
    assert forall x :: x in a + y + n <==> x in a + y || x in n;
    assert steps[0].id in a;
  }

  /** The step carrying an id, anywhere in the tree: first match in written order. */
  function FindStep(steps: seq<Step>, id: string): Option<Step>
  {
    if steps == [] then None
    else if steps[0].id == id then Some(steps[0])
    else
      var inYes := FindStep(steps[0].yes, id);
      if inYes.Some? then inYes
      else
        var inNo := FindStep(steps[0].no, id);
        if inNo.Some? then inNo else FindStep(steps[1..], id)
  }

  /**
    What runs after the step with this id: the rest of its own list, then the
    rest of each enclosing list on the way out.
   */
  function ContinuationAfter(steps: seq<Step>, id: string): Option<seq<seq<Step>>>
  {
    if steps == [] then None
    else if steps[0].id == id then Some([steps[1..]])
    else
      var inYes := ContinuationAfter(steps[0].yes, id);
      if inYes.Some? then Some(inYes.value + [steps[1..]])
      else
        var inNo := ContinuationAfter(steps[0].no, id);
        if inNo.Some? then Some(inNo.value + [steps[1..]])
        else ContinuationAfter(steps[1..], id)
  }

  /** A paused run finds its place exactly when the step still exists in the rule. */
  lemma {:induction false} ContinuationFoundIffStepFound(steps: seq<Step>, id: string)
    ensures ContinuationAfter(steps, id).Some? <==> id in Ids(steps)
    ensures FindStep(steps, id).Some? <==> id in Ids(steps)
    ensures FindStep(steps, id).Some? ==> FindStep(steps, id).value.id == id
  {
    if steps != [] {
      ContinuationFoundIffStepFound(steps[0].yes, id);
      ContinuationFoundIffStepFound(steps[0].no, id);
      ContinuationFoundIffStepFound(steps[1..], id);
    }
  }

  /** All ids of a list of lists. */
  function AllIds(lists: seq<seq<Step>>): seq<string>
  {
    if lists == [] then [] else Ids(lists[0]) + AllIds(lists[1..])
  }

  lemma {:induction false} AllIdsConcat(a: seq<seq<Step>>, b: seq<seq<Step>>)
    ensures AllIds(a + b) == AllIds(a) + AllIds(b)
  {
    if a == [] {
      assert a + b == b;
    } else {
      assert (a + b)[1..] == a[1..] + b;
      AllIdsConcat(a[1..], b);
    }
  }

  lemma AllIdsSnoc(a: seq<seq<Step>>, l: seq<Step>)
    ensures AllIds(a + [l]) == AllIds(a) + Ids(l)
  {
    AllIdsConcat(a, [l]);
    assert AllIds([l]) == Ids(l) + AllIds([]);
  }

  /** A continuation holds only steps of the tree, never the step it starts after, and is strictly smaller. */
  lemma {:induction false} ContinuationIds(steps: seq<Step>, id: string)
    requires Distinct(Ids(steps)) && id in Ids(steps)
    ensures var c := ContinuationAfter(steps, id);
            c.Some? && |c.value| > 0
            && (forall x :: x in AllIds(c.value) ==> x in Ids(steps) && x != id)
            && |AllIds(c.value)| < |Ids(steps)|
            && Distinct(AllIds(c.value))
  {
    var s, rest := steps[0], steps[1..];
    DistinctStep(steps);
    ContinuationFoundIffStepFound(s.yes, id);
    ContinuationFoundIffStepFound(s.no, id);
    if s.id == id {
      assert AllIds([rest]) == Ids(rest) + AllIds([]);
      assert AllIds([rest]) == Ids(rest);
    } else if id in Ids(s.yes) {
      ContinuationIds(s.yes, id);
      AllIdsSnoc(ContinuationAfter(s.yes, id).value, rest);
      DistinctConcat(AllIds(ContinuationAfter(s.yes, id).value), Ids(rest));
    } else if id in Ids(s.no) {
      ContinuationIds(s.no, id);
      AllIdsSnoc(ContinuationAfter(s.no, id).value, rest);
      DistinctConcat(AllIds(ContinuationAfter(s.no, id).value), Ids(rest));
    } else {
      ContinuationIds(rest, id);
    }
  }

  /** Inside a branch, a continuation is the branch's own, then the rest of the list around it. */
  lemma {:induction false} ContinuationInBranch(steps: seq<Step>, yes: bool, id: string)
    requires steps != [] && Distinct(Ids(steps))
    requires id in Ids(if yes then steps[0].yes else steps[0].no)
    ensures var inner := ContinuationAfter(if yes then steps[0].yes else steps[0].no, id);
            inner.Some? && ContinuationAfter(steps, id) == Some(inner.value + [steps[1..]])
  {
    DistinctStep(steps);
    ContinuationFoundIffStepFound(steps[0].yes, id);
    ContinuationFoundIffStepFound(steps[0].no, id);
  }

  lemma {:induction false} NotInBranches(steps: seq<Step>, id: string)
    requires steps != [] && Distinct(Ids(steps)) && id in Ids(steps[1..])
    ensures ContinuationAfter(steps, id) == ContinuationAfter(steps[1..], id)
  {
    DistinctStep(steps);
    ContinuationFoundIffStepFound(steps[0].yes, id);
    ContinuationFoundIffStepFound(steps[0].no, id);
  }

  /** The place `id` has in the whole tree, found from the k-th list of a continuation. */
  ghost predicate Composes(steps: seq<Step>, lists: seq<seq<Step>>, k: nat, id: string)
    requires k < |lists|
  {
    var inner := ContinuationAfter(lists[k], id);
    inner.Some? && ContinuationAfter(steps, id) == Some(inner.value + lists[k + 1..])
  }

  lemma {:induction false} ComposesInLastList(steps: seq<Step>, inside: seq<seq<Step>>, id: string)
    requires steps != [] && Distinct(Ids(steps)) && id in Ids(steps[1..])
    ensures Composes(steps, inside + [steps[1..]], |inside|, id)
  {
    NotInBranches(steps, id);
    ContinuationFoundIffStepFound(steps[1..], id);
    var lists := inside + [steps[1..]];
    var inner := ContinuationAfter(steps[1..], id).value;
    assert lists[|inside| + 1..] == [] && inner + [] == inner;
  }

  lemma {:induction false} ComposesInBranch(steps: seq<Step>, yes: bool, inside: seq<seq<Step>>, k: nat, id: string)
    requires steps != [] && Distinct(Ids(steps)) && k < |inside|
    requires id in Ids(if yes then steps[0].yes else steps[0].no)
    requires Composes(if yes then steps[0].yes else steps[0].no, inside, k, id)
    ensures Composes(steps, inside + [steps[1..]], k, id)
  {
    ContinuationInBranch(steps, yes, id);
    var lists := inside + [steps[1..]];
    var inner := ContinuationAfter(inside[k], id).value;
    assert inside[k + 1..] + [steps[1..]] == lists[k + 1..];
    assert (inner + inside[k + 1..]) + [steps[1..]] == inner + lists[k + 1..];
  }

  /**
    Continuations compose: the place of a step that lies in the k-th list of a
    continuation is found from the whole tree as if that list had been searched
    alone, followed by the lists behind it.
   */
  lemma {:induction false} ContinuationComposes(steps: seq<Step>, first: string, k: nat, id: string)
    requires Distinct(Ids(steps)) && first in Ids(steps)
    requires ContinuationAfter(steps, first).Some?
    requires k < |ContinuationAfter(steps, first).value| && id in Ids(ContinuationAfter(steps, first).value[k])
    ensures Composes(steps, ContinuationAfter(steps, first).value, k, id)
  {
    var s, rest := steps[0], steps[1..];
    var lists := ContinuationAfter(steps, first).value;
    DistinctStep(steps);
    if s.id == first {
      ComposesInLastList(steps, [], id);
      assert lists == [] + [rest];
    } else if first in Ids(s.yes) || first in Ids(s.no) {
      var yes := first in Ids(s.yes);
      var branch := if yes then s.yes else s.no;
      ContinuationInBranch(steps, yes, first);
      var inside := ContinuationAfter(branch, first).value;
      if k == |inside| {
        ComposesInLastList(steps, inside, id);
      } else {
        ContinuationIds(branch, first);
        InAllIds(inside, k, id);
        ContinuationComposes(branch, first, k, id);
        ComposesInBranch(steps, yes, inside, k, id);
      }
    } else {
      NotInBranches(steps, first);
      ContinuationComposes(rest, first, k, id);
      ContinuationIds(rest, first);
      InAllIds(lists, k, id);
      NotInBranches(steps, id);
    }
  }

  lemma {:induction false} InAllIds(lists: seq<seq<Step>>, k: nat, id: string)
    requires k < |lists| && id in Ids(lists[k])
    ensures id in AllIds(lists)
  {
    if k > 0 {
      InAllIds(lists[1..], k - 1, id);
    }
  }
}
