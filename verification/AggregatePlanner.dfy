/**
 The planner's context and the two phases that fill and drain it
 (src/planner/plan_aggregation.cpp, plan_expression.cpp).
 */
module AggregatePlanner {
  import opened Collections
  import opened Expressions
  import opened Plans
  import opened Aggregates

  class Planner {
    var allowAggregation: bool
    /** Calls collected in the first phase. */
    var aggregations: seq<Bound>
    /** The columns that stand for those calls in the second phase. */
    var exprInAgg: seq<Expr>
    var nextAggregation: nat

    constructor ()
      ensures !allowAggregation && aggregations == [] && exprInAgg == [] && nextAggregation == 0
    {
      allowAggregation, aggregations, exprInAgg, nextAggregation := false, [], [], 0;
    }

    /** Moves every call of an expression to the context and leaves a pseudo call in its place. */
    method AddAggCallToContext(e: Bound) returns (r: Result<Bound>)
      modifies this`aggregations
      ensures allowAggregation ==> r == WithPseudoCalls(e, |old(aggregations)|)
      ensures r.Success? ==> aggregations == old(aggregations) + Calls(e)
      ensures !allowAggregation ==> (r.Success? <==> WithPseudoCalls(e, 0).Success? && Calls(e) == [])
      decreases e
    {
      match e
      case AggCall(_, distinct, _) =>
        var pseudo := AggCall("__pseudo_agg#" + Decimal(|aggregations|), distinct, []);
        if !allowAggregation {
          return Failure("AggCall not allowed in this position");
        }
        aggregations := aggregations + [e];
        r := Success(pseudo);
      case ColumnRef(_) => r := Success(e);
      case BinaryOp(op, l, r') =>
        SupportDoesNotDependOnK(r', 0, |Calls(l)|);
        var left :- AddAggCallToContext(l);
        var right :- AddAggCallToContext(r');
        r := Success(BinaryOp(op, left, right));
      case Constant(_) => r := Success(e);
      case Alias(name, c) =>
        var child :- AddAggCallToContext(c);
        r := Success(Alias(name, child));
      case Unsupported => r := Failure("expression type not supported in planner yet");
    }

    /** Plans an expression; each call takes the next column of the context. */
    method PlanExpression(e: Bound, s: Schema) returns (r: Result<Planned>)
      modifies this`nextAggregation
      ensures var spec := PlanBound(e, s, exprInAgg, old(nextAggregation));
              (spec.Failure? ==> r == Failure(spec.error))
              && (spec.Success? ==> r == Success(spec.value.out) && nextAggregation == spec.value.next)
      decreases e
    {
      match e
      case AggCall(_, _, _) =>
        if nextAggregation >= |exprInAgg| {
          return Failure("unexpected agg call");
        }
        r := Success(Planned(UNNAMED_COLUMN, exprInAgg[nextAggregation]));
        nextAggregation := nextAggregation + 1;
      case ColumnRef(name) =>
        var c :- PlanColumnRef(name, s);
        r := Success(Planned(name, c));
      case BinaryOp(op, l, r') =>
        var left :- PlanExpression(l, s);
        var right :- PlanExpression(r', s);
        var x :- BinaryExpression(op, left.expr, right.expr);
        r := Success(Planned(UNNAMED_COLUMN, x));
      case Constant(v) => r := Success(Planned(UNNAMED_COLUMN, Const(v)));
      case Alias(name, c) =>
        var p :- PlanExpression(c, s);
        r := Success(Planned(name, p.expr));
      case Unsupported => r := Failure("expression type not supported in planner yet");
    }

    method PlanExpressions(es: seq<Bound>, s: Schema) returns (r: Result<seq<Planned>>)
      modifies this`nextAggregation
      ensures var spec := PlanAll(es, s, exprInAgg, old(nextAggregation));
              (spec.Failure? ==> r == Failure(spec.error))
              && (spec.Success? ==> r == Success(spec.value.out) && nextAggregation == spec.value.next)
    {
      var out: seq<Planned> := [];
      var i := 0;
      while i < |es|
        invariant 0 <= i <= |es|
        invariant PlanAll(es[..i], s, exprInAgg, old(nextAggregation)) == Success(Step(out, nextAggregation))
      {
        PlanAllStep(es, i, s, exprInAgg, old(nextAggregation));
        var p :- PlanExpression(es[i], s);
        out := out + [p];
        i := i + 1;
      }
      assert es[..i] == es;
      r := Success(out);
    }

    method AddAggCalls(es: seq<Bound>) returns (r: Result<seq<Bound>>)
      requires allowAggregation
      modifies this`aggregations
      ensures r == AllWithPseudoCalls(es, |old(aggregations)|)
      ensures r.Success? ==> aggregations == old(aggregations) + CallsOf(es)
    {
      var out: seq<Bound> := [];
      var i := 0;
      ghost var k := |aggregations|;
      while i < |es|
        invariant 0 <= i <= |es|
        invariant AllWithPseudoCalls(es[..i], k) == Success(out)
        invariant aggregations == old(aggregations) + CallsOf(es[..i])
      {
        AllPseudoStep(es, i, k);
        assert |aggregations| == k + |CallsOf(es[..i])|;
        var e :- AddAggCallToContext(es[i]);
        out := out + [e];
        i := i + 1;
      }
      assert es[..i] == es;
      r := Success(out);
    }

    /** Plans one call against the table; its arguments are planned in a context without calls. */
    method PlanAggCall(call: Bound, s: Schema) returns (r: Result<Term>)
      modifies this
      ensures r == PlanCall(call, s)
      ensures allowAggregation == old(allowAggregation) && aggregations == old(aggregations)
              && exprInAgg == old(exprInAgg) && nextAggregation == old(nextAggregation)
    {
      if !call.AggCall? {
        return Failure("alias for agg call is not supported for now");
      }
      if call.distinct {
        return Failure("distinct agg is not implemented yet");
      }
      var saved := (allowAggregation, aggregations, exprInAgg, nextAggregation);
      allowAggregation, aggregations, exprInAgg, nextAggregation := false, [], [], 0;
      var planned := PlanExpressions(call.args, s);
      allowAggregation, aggregations, exprInAgg, nextAggregation := saved.0, saved.1, saved.2, saved.3;
      var args :- planned;
      if args == [] && call.func == "count_star" {
        return Success(Term(CountStar, Const(Int(1))));
      }
      if |args| == 1 && FunctionOf(call.func).Some? {
        return Success(Term(FunctionOf(call.func).value, args[0].expr));
      }
      r := Failure("unsupported agg_call");
    }

    /** The first phase: one aggregation term per call, and the column that will stand for it. */
    method PlanAggregations(s: Schema, first: nat) returns (r: Result<seq<Term>>)
      requires exprInAgg == []
      modifies this
      ensures r == PlanCalls(aggregations, s)
      ensures allowAggregation == old(allowAggregation) && aggregations == old(aggregations)
              && nextAggregation == old(nextAggregation)
      ensures r.Success? ==> exprInAgg == CallColumns(first, |aggregations|)
    {
      var terms: seq<Term> := [];
      var termIdx := 0;
      while termIdx < |aggregations|
        invariant 0 <= termIdx <= |aggregations|
        invariant allowAggregation == old(allowAggregation) && aggregations == old(aggregations)
                  && nextAggregation == old(nextAggregation)
        invariant PlanCalls(aggregations[..termIdx], s) == Success(terms)
        invariant exprInAgg == CallColumns(first, termIdx)
      {
        PlanCallsStep(aggregations, termIdx, s);
        var t :- PlanAggCall(aggregations[termIdx], s);
        terms := terms + [t];
        exprInAgg := exprInAgg + [Column(0, first + termIdx, INTEGER)];
        termIdx := termIdx + 1;
      }
      assert aggregations[..termIdx] == aggregations;
      r := Success(terms);
    }

    /** Both phases, HAVING before the select list; the caller's context is restored, on failure too. */
    method PlanSelectAggregation(q: Select, s: Schema) returns (r: Result<AggPlan>)
      modifies this
      ensures r == PlanSelectAgg(q, s)
      ensures allowAggregation == old(allowAggregation) && aggregations == old(aggregations)
              && exprInAgg == old(exprInAgg) && nextAggregation == old(nextAggregation)
    {
      var saved := (allowAggregation, aggregations, exprInAgg, nextAggregation);
      allowAggregation, aggregations, exprInAgg, nextAggregation := true, [], [], 0;
      r := PlanInNewContext(q, s);
      allowAggregation, aggregations, exprInAgg, nextAggregation := saved.0, saved.1, saved.2, saved.3;
    }

    method PlanInNewContext(q: Select, s: Schema) returns (r: Result<AggPlan>)
      requires allowAggregation && aggregations == [] && exprInAgg == [] && nextAggregation == 0
      modifies this
      ensures r == PlanSelectAgg(q, s)
    {
      var groups :- PlanExpressions(q.groupBy, s);
      NoColumnsNoCalls(q.groupBy, s, 0);
      var having :- AddAggCalls(HavingOf(q));
      var items :- AddAggCalls(q.items);
      assert aggregations == QueryCalls(q);
      var terms :- PlanAggregations(s, |groups|);
      var scope := AggSchema(groups, |aggregations|);
      var filter :- PlanExpressions(having, scope);
      var outputs :- PlanExpressions(items, scope);
      r := Success(AggPlan(groups, terms, if filter == [] then None else Some(filter[0].expr), outputs));
    }
  }

  // ---- the loops against the recursive definitions

  lemma {:induction false} SupportDoesNotDependOnK(e: Bound, j: nat, k: nat)
    ensures WithPseudoCalls(e, j).Success? <==> WithPseudoCalls(e, k).Success?
  {
    match e
    case BinaryOp(_, l, r) =>
      SupportDoesNotDependOnK(l, j, k);
      SupportDoesNotDependOnK(r, j + |Calls(l)|, k + |Calls(l)|);
    case Alias(_, c) => SupportDoesNotDependOnK(c, j, k);
    case _ =>
  }

  lemma {:induction false} PlanAllSnoc(es: seq<Bound>, e: Bound, s: Schema, inAgg: seq<Expr>, next: nat)
    requires PlanAll(es, s, inAgg, next).Success?
    ensures var front := PlanAll(es, s, inAgg, next).value;
            var last := PlanBound(e, s, inAgg, front.next);
            PlanAll(es + [e], s, inAgg, next)
            == if last.Failure? then Failure(last.error)
               else Success(Step(front.out + [last.value.out], last.value.next))
  {
    if es == [] {
      var all := es + [e];
      assert all[0] == e && all[1..] == es;
      var last := PlanBound(e, s, inAgg, next);
      if last.Success? {
        var none := PlanAll(es, s, inAgg, last.value.next).value.out;
        assert [last.value.out] + none == none + [last.value.out];
      }
    } else {
      assert (es + [e])[1..] == es[1..] + [e];
      var p := PlanBound(es[0], s, inAgg, next).value;
      PlanAllSnoc(es[1..], e, s, inAgg, p.next);
      var rest := PlanAll(es[1..], s, inAgg, p.next).value;
      var last := PlanBound(e, s, inAgg, rest.next);
      if last.Success? {
        assert [p.out] + (rest.out + [last.value.out]) == [p.out] + rest.out + [last.value.out];
      }
    }
  }

  /** A failure in a prefix is the failure of the whole. */
  lemma {:induction false} PlanAllPrefix(es: seq<Bound>, i: nat, s: Schema, inAgg: seq<Expr>, next: nat)
    requires i <= |es|
    ensures PlanAll(es[..i], s, inAgg, next).Failure? ==>
              PlanAll(es, s, inAgg, next) == PlanAll(es[..i], s, inAgg, next)
  {
    if i > 0 {
      assert es[..i][1..] == es[1..][..i - 1];
      var p := PlanBound(es[0], s, inAgg, next);
      if p.Success? {
        PlanAllPrefix(es[1..], i - 1, s, inAgg, p.value.next);
      }
    }
  }

  lemma PlanAllStep(es: seq<Bound>, i: nat, s: Schema, inAgg: seq<Expr>, next: nat)
    requires i < |es| && PlanAll(es[..i], s, inAgg, next).Success?
    ensures var front := PlanAll(es[..i], s, inAgg, next).value;
            var last := PlanBound(es[i], s, inAgg, front.next);
            (last.Failure? ==> PlanAll(es, s, inAgg, next) == Failure(last.error))
            && (last.Success? ==>
                  PlanAll(es[..i + 1], s, inAgg, next) == Success(Step(front.out + [last.value.out], last.value.next)))
  {
    PlanAllSnoc(es[..i], es[i], s, inAgg, next);
    assert es[..i + 1] == es[..i] + [es[i]];
    PlanAllPrefix(es, i + 1, s, inAgg, next);
  }

  lemma {:induction false} CallsOfSnoc(es: seq<Bound>, e: Bound)
    ensures CallsOf(es + [e]) == CallsOf(es) + Calls(e)
  {
    if es == [] {
      assert es + [e] == [e] && [e][1..] == [];
    } else {
      assert (es + [e])[1..] == es[1..] + [e];
      CallsOfSnoc(es[1..], e);
    }
  }

  /** A list of results in front of one more, and one result in front of a list: the first failure wins. */
  function Then<T>(front: seq<T>, last: Result<T>): Result<seq<T>> {
    if last.Failure? then Failure(last.error) else Success(front + [last.value])
  }

  function Lead<T>(first: Result<T>, rest: Result<seq<T>>): Result<seq<T>> {
    if first.Failure? then Failure(first.error)
    else if rest.Failure? then Failure(rest.error)
    else Success([first.value] + rest.value)
  }

  lemma LeadThen<T>(first: T, rest: seq<T>, last: Result<T>)
    ensures Lead(Success(first), Then(rest, last)) == Then([first] + rest, last)
    ensures Lead(last, Success([])) == Then([], last)
  {
    if last.Success? {
      assert [first] + (rest + [last.value]) == [first] + rest + [last.value];
      assert [last.value] + [] == [] + [last.value];
    }
  }

  lemma AllPseudoCons(e: Bound, es: seq<Bound>, k: nat)
    ensures AllWithPseudoCalls([e] + es, k) == Lead(WithPseudoCalls(e, k), AllWithPseudoCalls(es, k + |Calls(e)|))
  {
    assert ([e] + es)[1..] == es;
  }

  lemma CallsOfCons(e: Bound, es: seq<Bound>)
    ensures CallsOf([e] + es) == Calls(e) + CallsOf(es)
  {
    assert ([e] + es)[1..] == es;
  }

  lemma AllPseudoOne(e: Bound, k: nat)
    ensures AllWithPseudoCalls([e], k) == Then([], WithPseudoCalls(e, k))
  {
    assert [e] == [e] + [];
    AllPseudoCons(e, [], k);
    LeadThen(e, [], WithPseudoCalls(e, k));
  }

  lemma AllPseudoShift(first: Bound, rest: seq<Bound>, e: Bound, k: nat, last: Result<Bound>)
    requires AllWithPseudoCalls([first] + rest, k).Success?
    requires var front := AllWithPseudoCalls(rest, k + |Calls(first)|);
             front.Success? ==> AllWithPseudoCalls(rest + [e], k + |Calls(first)|) == Then(front.value, last)
    ensures AllWithPseudoCalls([first] + (rest + [e]), k) == Then(AllWithPseudoCalls([first] + rest, k).value, last)
  {
    AllPseudoCons(first, rest, k);
    AllPseudoCons(first, rest + [e], k);
    LeadThen(WithPseudoCalls(first, k).value, AllWithPseudoCalls(rest, k + |Calls(first)|).value, last);
  }

  lemma {:induction false} AllPseudoSnoc(es: seq<Bound>, e: Bound, k: nat, last: nat)
    requires AllWithPseudoCalls(es, k).Success? && last == k + |CallsOf(es)|
    ensures AllWithPseudoCalls(es + [e], k) == Then(AllWithPseudoCalls(es, k).value, WithPseudoCalls(e, last))
  {
    if es == [] {
      assert es + [e] == [e];
      AllPseudoOne(e, k);
    } else {
      var first, rest := es[0], es[1..];
      assert es == [first] + rest && es + [e] == [first] + (rest + [e]);
      CallsOfCons(first, rest);
      AllPseudoSnoc(rest, e, k + |Calls(first)|, last);
      AllPseudoShift(first, rest, e, k, WithPseudoCalls(e, last));
    }
  }

  lemma {:induction false} AllPseudoPrefix(es: seq<Bound>, i: nat, k: nat)
    requires i <= |es|
    ensures AllWithPseudoCalls(es[..i], k).Failure? ==> AllWithPseudoCalls(es, k) == AllWithPseudoCalls(es[..i], k)
  {
    if i > 0 {
      assert es[..i][1..] == es[1..][..i - 1];
      AllPseudoPrefix(es[1..], i - 1, k + |Calls(es[0])|);
    }
  }

  lemma AllPseudoStep(es: seq<Bound>, i: nat, k: nat)
    requires i < |es| && AllWithPseudoCalls(es[..i], k).Success?
    ensures CallsOf(es[..i + 1]) == CallsOf(es[..i]) + Calls(es[i])
    ensures var last := WithPseudoCalls(es[i], k + |CallsOf(es[..i])|);
            (last.Failure? ==> AllWithPseudoCalls(es, k) == Failure(last.error))
            && (last.Success? ==>
                  AllWithPseudoCalls(es[..i + 1], k) == Success(AllWithPseudoCalls(es[..i], k).value + [last.value]))
  {
    AllPseudoSnoc(es[..i], es[i], k, k + |CallsOf(es[..i])|);
    CallsOfSnoc(es[..i], es[i]);
    assert es[..i + 1] == es[..i] + [es[i]];
    AllPseudoPrefix(es, i + 1, k);
  }

  lemma {:induction false} PlanCallsSnoc(calls: seq<Bound>, call: Bound, s: Schema)
    requires PlanCalls(calls, s).Success?
    ensures var last := PlanCall(call, s);
            PlanCalls(calls + [call], s)
            == if last.Failure? then Failure(last.error) else Success(PlanCalls(calls, s).value + [last.value])
  {
    if calls == [] {
      var all := calls + [call];
      assert all[0] == call && all[1..] == calls;
      var last, none := PlanCall(call, s), PlanCalls(calls, s).value;
      if last.Success? {
        assert [last.value] + none == none + [last.value];
      }
    } else {
      assert (calls + [call])[1..] == calls[1..] + [call];
      PlanCallsSnoc(calls[1..], call, s);
      var last := PlanCall(call, s);
      if last.Success? {
        var first, rest := PlanCall(calls[0], s).value, PlanCalls(calls[1..], s).value;
        assert [first] + (rest + [last.value]) == [first] + rest + [last.value];
      }
    }
  }

  lemma {:induction false} PlanCallsPrefix(calls: seq<Bound>, i: nat, s: Schema)
    requires i <= |calls|
    ensures PlanCalls(calls[..i], s).Failure? ==> PlanCalls(calls, s) == PlanCalls(calls[..i], s)
  {
    if i > 0 {
      assert calls[..i][1..] == calls[1..][..i - 1];
      PlanCallsPrefix(calls[1..], i - 1, s);
    }
  }

  lemma PlanCallsStep(calls: seq<Bound>, i: nat, s: Schema)
    requires i < |calls| && PlanCalls(calls[..i], s).Success?
    ensures var last := PlanCall(calls[i], s);
            (last.Failure? ==> PlanCalls(calls, s) == Failure(last.error))
            && (last.Success? ==>
                  PlanCalls(calls[..i + 1], s) == Success(PlanCalls(calls[..i], s).value + [last.value]))
  {
    PlanCallsSnoc(calls[..i], calls[i], s);
    assert calls[..i + 1] == calls[..i] + [calls[i]];
    PlanCallsPrefix(calls, i + 1, s);
  }

  /** Without call columns nothing is consumed. */
  lemma {:induction false} NoColumnsNoCalls(es: seq<Bound>, s: Schema, next: nat)
    requires PlanAll(es, s, [], next).Success?
    ensures PlanAll(es, s, [], next).value.next == next
  {
    if es != [] {
      NoColumnNoCall(es[0], s, next);
      NoColumnsNoCalls(es[1..], s, next);
    }
  }

  lemma {:induction false} NoColumnNoCall(e: Bound, s: Schema, next: nat)
    requires PlanBound(e, s, [], next).Success?
    ensures PlanBound(e, s, [], next).value.next == next
  {
    match e
    case BinaryOp(_, l, r) =>
      NoColumnNoCall(l, s, next);
      NoColumnNoCall(r, s, next);
    case Alias(_, c) => NoColumnNoCall(c, s, next);
    case _ =>
  }
}
