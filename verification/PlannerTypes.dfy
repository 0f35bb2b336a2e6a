/**
 Which aggregate queries can be planned: exactly the well-typed ones, by a
 typing of expressions that knows nothing of the planner's two phases
 (src/planner/plan_aggregation.cpp, plan_expression.cpp, expression_factory.cpp).
 */
module PlannerTypes {
  import opened Collections
  import opened Expressions
  import opened Plans
  import opened Aggregates

  // ---- typing

  const COMPARISONS := {"=", "==", "!=", "<>", "<", "<=", ">", ">="}
  const COMPUTATIONS := {"+", "-"}
  const CONNECTIVES := {"and", "or"}
  const FUNCTIONS := {"min", "max", "sum", "count"}

  function BinaryType(op: string, l: TypeId, r: TypeId): Option<TypeId> {
    if op in COMPARISONS then Some(BOOLEAN)
    else if op in COMPUTATIONS && l == INTEGER && r == INTEGER then Some(INTEGER)
    else if op in CONNECTIVES && l == BOOLEAN && r == BOOLEAN then Some(BOOLEAN)
    else None
  }

  /** The type of an expression over columns of schema `s`; a call is an integer. */
  function TypeIn(e: Bound, s: Schema): Option<TypeId> {
    match e
    case AggCall(_, _, _) => Some(INTEGER)
    case ColumnRef(name) =>
      (match ColumnIndex(Names(s), name)
       case Some(i) => Some(s[i].ty)
       case None => None)
    case BinaryOp(op, l, r) =>
      var a, b := TypeIn(l, s), TypeIn(r, s);
      if a.Some? && b.Some? then BinaryType(op, a.value, b.value) else None
    case Constant(v) => Some(TypeOf(Const(v)))
    case Alias(_, c) => TypeIn(c, s)
    case Unsupported => None
  }

  /** Typed, and without aggregate calls. */
  predicate PlainlyTyped(e: Bound, s: Schema) {
    TypeIn(e, s).Some? && Calls(e) == []
  }

  /** A call the planner has: count(*), or a known function of one plain argument. */
  predicate Callable(call: Bound, s: Schema) {
    && call.AggCall? && !call.distinct
    && ((call.args == [] && call.func == "count_star")
        || (|call.args| == 1 && call.func in FUNCTIONS && PlainlyTyped(call.args[0], s)))
  }

  function GroupColumnDef(e: Bound, s: Schema): ColumnDef {
    ColumnDef(NameOf(e), if TypeIn(e, s).Some? then TypeIn(e, s).value else INVALID)
  }

  /** The columns above the aggregation: the group-by expressions under their names, then one integer per call. */
  function ScopeOf(q: Select, s: Schema): Schema {
    var n := |QueryCalls(q)|;
    seq(|q.groupBy|, i requires 0 <= i < |q.groupBy| => GroupColumnDef(q.groupBy[i], s))
    + seq(n, k requires 0 <= k < n => ColumnDef("agg#" + Decimal(k), INTEGER))
  }

  predicate WellTyped(q: Select, s: Schema) {
    && (forall e :: e in q.groupBy ==> PlainlyTyped(e, s))
    && (forall c :: c in QueryCalls(q) ==> Callable(c, s))
    && (forall e :: e in HavingOf(q) ==> TypeIn(e, ScopeOf(q, s)).Some?)
    && (forall e :: e in q.items ==> TypeIn(e, ScopeOf(q, s)).Some?)
  }

  // ---- planning an expression succeeds exactly when it has a type

  lemma OperatorKinds(op: string)
    ensures op in COMPARISONS <==> OperatorOf(op).Some? && OperatorOf(op).value.Compares?
    ensures op in COMPUTATIONS <==> OperatorOf(op).Some? && OperatorOf(op).value.Computes?
    ensures op in CONNECTIVES <==> OperatorOf(op).Some? && OperatorOf(op).value.Connects?
  {
    assert |"and"| == 3 && |"or"| == 2 && "or"[0] == 'o' && "and"[0] == 'a';
    assert "+"[0] == '+' && "-"[0] == '-' && |"+"| == 1 && |"-"| == 1;
    assert |"=="| == 2 && "=="[0] == '=' && |"!="| == 2 && "!="[0] == '!' && |"<>"| == 2 && "<>"[0] == '<';
    assert |"<="| == 2 && "<="[0] == '<' && |">="| == 2 && ">="[0] == '>';
    assert |"="| == 1 && "="[0] == '=' && |"<"| == 1 && "<"[0] == '<' && |">"| == 1 && ">"[0] == '>';
  }

  lemma BinaryTyped(op: string, l: Expr, r: Expr)
    ensures BinaryExpression(op, l, r).Success? <==> BinaryType(op, TypeOf(l), TypeOf(r)).Some?
    ensures BinaryExpression(op, l, r).Success? ==>
              Some(TypeOf(BinaryExpression(op, l, r).value)) == BinaryType(op, TypeOf(l), TypeOf(r))
  {
    OperatorKinds(op);
  }

  /** The columns that stand for calls are integers. */
  predicate AllIntegers(inAgg: seq<Expr>) {
    forall x :: x in inAgg ==> TypeOf(x) == INTEGER
  }

  /** There are columns for n calls from `next` on. */
  predicate Enough(n: nat, inAgg: seq<Expr>, next: nat) {
    n == 0 || next + n <= |inAgg|
  }

  lemma {:induction false} PlanBoundTyped(e: Bound, s: Schema, inAgg: seq<Expr>, next: nat)
    requires AllIntegers(inAgg)
    ensures PlanBound(e, s, inAgg, next).Success? <==> TypeIn(e, s).Some? && Enough(|Calls(e)|, inAgg, next)
    ensures PlanBound(e, s, inAgg, next).Success? ==>
              var p := PlanBound(e, s, inAgg, next).value;
              p.next == next + |Calls(e)| && Some(TypeOf(p.out.expr)) == TypeIn(e, s) && p.out.name == NameOf(e)
  {
    match e
    case BinaryOp(op, l, r) =>
      PlanBoundTyped(l, s, inAgg, next);
      PlanBoundTyped(r, s, inAgg, next + |Calls(l)|);
      var left, right := PlanBound(l, s, inAgg, next), PlanBound(r, s, inAgg, next + |Calls(l)|);
      if left.Success? && right.Success? {
        BinaryTyped(op, left.value.out.expr, right.value.out.expr);
      }
    case Alias(_, c) => PlanBoundTyped(c, s, inAgg, next);
    case _ =>
  }

  lemma {:induction false} PlanAllTyped(es: seq<Bound>, s: Schema, inAgg: seq<Expr>, next: nat)
    requires AllIntegers(inAgg)
    ensures PlanAll(es, s, inAgg, next).Success?
            <==> (forall e :: e in es ==> TypeIn(e, s).Some?) && Enough(|CallsOf(es)|, inAgg, next)
    ensures PlanAll(es, s, inAgg, next).Success? ==> PlanAll(es, s, inAgg, next).value.next == next + |CallsOf(es)|
  {
    if es != [] {
      var e, rest := es[0], es[1..];
      assert es == [e] + rest;
      assert (forall x :: x in es ==> TypeIn(x, s).Some?)
             <==> TypeIn(e, s).Some? && forall x :: x in rest ==> TypeIn(x, s).Some?;
      PlanBoundTyped(e, s, inAgg, next);
      PlanAllTyped(rest, s, inAgg, next + |Calls(e)|);
      PlanAllCons(e, rest, s, inAgg, next);
      assert |CallsOf(es)| == |Calls(e)| + |CallsOf(rest)|;
    }
  }

  lemma {:induction false} PlanAllTypedAs(es: seq<Bound>, s: Schema, inAgg: seq<Expr>, next: nat)
    requires AllIntegers(inAgg) && PlanAll(es, s, inAgg, next).Success?
    ensures |PlanAll(es, s, inAgg, next).value.out| == |es|
    ensures forall i :: 0 <= i < |es| ==> TypedAs(PlanAll(es, s, inAgg, next).value.out[i], es[i], s)
  {
    if es != [] {
      var e, rest := es[0], es[1..];
      assert es == [e] + rest;
      PlanBoundTyped(e, s, inAgg, next);
      PlanAllCons(e, rest, s, inAgg, next);
      PlanAllTypedAs(rest, s, inAgg, next + |Calls(e)|);
    }
  }

  predicate TypedAs(p: Planned, e: Bound, s: Schema) {
    Some(TypeOf(p.expr)) == TypeIn(e, s) && p.name == NameOf(e)
  }

  lemma {:induction false} NoCallsIff(es: seq<Bound>)
    ensures CallsOf(es) == [] <==> forall e :: e in es ==> Calls(e) == []
  {
    if es != [] {
      assert forall x :: x in es <==> x == es[0] || x in es[1..];
      NoCallsIff(es[1..]);
      assert |CallsOf(es)| == |Calls(es[0])| + |CallsOf(es[1..])|;
    }
  }

  // ---- planning the calls

  lemma FunctionIff(func: string)
    ensures FunctionOf(func).Some? <==> func in FUNCTIONS
  {
  }

  lemma PlanCallTyped(call: Bound, s: Schema)
    ensures PlanCall(call, s).Success? <==> Callable(call, s)
  {
    if call.AggCall? {
      PlanAllTyped(call.args, s, [], 0);
      if PlanAll(call.args, s, [], 0).Success? { PlanAllTypedAs(call.args, s, [], 0); }
      NoCallsIff(call.args);
      FunctionIff(call.func);
      if |call.args| == 1 {
        assert call.args == [call.args[0]];
      }
    }
  }

  lemma {:induction false} PlanCallsTyped(calls: seq<Bound>, s: Schema)
    ensures PlanCalls(calls, s).Success? <==> forall c :: c in calls ==> Callable(c, s)
  {
    if calls != [] {
      assert forall x :: x in calls <==> x == calls[0] || x in calls[1..];
      PlanCallTyped(calls[0], s);
      PlanCallsTyped(calls[1..], s);
    }
  }

  // ---- planning the query

  lemma {:induction false} TypedHasPseudoCalls(e: Bound, s: Schema, k: nat)
    requires TypeIn(e, s).Some?
    ensures WithPseudoCalls(e, k).Success?
  {
    match e
    case BinaryOp(_, l, r) =>
      TypedHasPseudoCalls(l, s, k);
      TypedHasPseudoCalls(r, s, k + |Calls(l)|);
    case Alias(_, c) => TypedHasPseudoCalls(c, s, k);
    case _ =>
  }

  lemma {:induction false} AllTypedHavePseudoCalls(es: seq<Bound>, s: Schema, k: nat)
    requires forall e :: e in es ==> TypeIn(e, s).Some?
    ensures AllWithPseudoCalls(es, k).Success?
  {
    if es != [] {
      assert es[0] in es;
      TypedHasPseudoCalls(es[0], s, k);
      AllTypedHavePseudoCalls(es[1..], s, k + |Calls(es[0])|);
    }
  }

  lemma GroupsTyped(q: Select, s: Schema)
    ensures PlanAll(q.groupBy, s, [], 0).Success? <==> forall e :: e in q.groupBy ==> PlainlyTyped(e, s)
    ensures PlanAll(q.groupBy, s, [], 0).Success? ==>
              AggSchema(PlanAll(q.groupBy, s, [], 0).value.out, |QueryCalls(q)|) == ScopeOf(q, s)
  {
    PlanAllTyped(q.groupBy, s, [], 0);
    NoCallsIff(q.groupBy);
    if PlanAll(q.groupBy, s, [], 0).Success? {
      PlanAllTypedAs(q.groupBy, s, [], 0);
      var groups := PlanAll(q.groupBy, s, [], 0).value.out;
      assert forall i :: 0 <= i < |groups| ==> TypedAs(groups[i], q.groupBy[i], s);
    }
  }

  /** With the calls' columns in place, a list of expressions plans exactly when all of them have a type. */
  lemma SecondPhaseTyped(es: seq<Bound>, k: nat, scope: Schema, first: nat, n: nat, next: nat)
    requires next + |CallsOf(es)| <= n
    ensures (AllWithPseudoCalls(es, k).Success?
             && PlanAll(AllWithPseudoCalls(es, k).value, scope, CallColumns(first, n), next).Success?)
            <==> forall e :: e in es ==> TypeIn(e, scope).Some?
    ensures AllWithPseudoCalls(es, k).Success? ==>
              var p := PlanAll(AllWithPseudoCalls(es, k).value, scope, CallColumns(first, n), next);
              p.Success? ==> p.value.next == next + |CallsOf(es)|
  {
    var inAgg := CallColumns(first, n);
    PlanAllTyped(es, scope, inAgg, next);
    if AllWithPseudoCalls(es, k).Success? {
      AllPseudoCallsPlanAlike(es, k, scope, inAgg, next);
    }
    if forall e :: e in es ==> TypeIn(e, scope).Some? {
      AllTypedHavePseudoCalls(es, scope, k);
    }
  }

  /** A query with aggregates can be planned exactly when it is well typed. */
  lemma PlanSucceedsIff(q: Select, s: Schema)
    ensures PlanSelectAgg(q, s).Success? <==> WellTyped(q, s)
  {
    GroupsTyped(q, s);
    PlanCallsTyped(QueryCalls(q), s);
    if forall e :: e in q.groupBy ==> PlainlyTyped(e, s) {
      var groups := PlanAll(q.groupBy, s, [], 0).value.out;
      var h, n := |CallsOf(HavingOf(q))|, |QueryCalls(q)|;
      SecondPhaseTyped(HavingOf(q), 0, ScopeOf(q, s), |groups|, n, 0);
      SecondPhaseTyped(q.items, h, ScopeOf(q, s), |groups|, n, h);
    }
  }

  // ---- the names of the call columns

  function DigitOf(c: char): nat
    requires c in DIGITS
  {
    if c == '0' then 0 else if c == '1' then 1 else if c == '2' then 2 else if c == '3' then 3
    else if c == '4' then 4 else if c == '5' then 5 else if c == '6' then 6 else if c == '7' then 7
    else if c == '8' then 8 else 9
  }

  /** The number a string of digits writes. */
  function NumberOf(t: string): nat {
    if t == [] then 0
    else NumberOf(t[..|t| - 1]) * 10 + (if t[|t| - 1] in DIGITS then DigitOf(t[|t| - 1]) else 0)
  }

  lemma {:induction false} DecimalWritesNumber(n: nat)
    ensures NumberOf(Decimal(n)) == n
  {
    var d := n % 10;
    assert DIGITS[d] in DIGITS && DigitOf(DIGITS[d]) == d;
    if n >= 10 {
      DecimalWritesNumber(n / 10);
      var t := Decimal(n);
      assert t[..|t| - 1] == Decimal(n / 10) && t[|t| - 1] == DIGITS[d];
    } else {
      assert Decimal(n)[..0] == [];
    }
  }

  /** Different calls get differently named columns. */
  lemma CallNamesDiffer(j: nat, k: nat)
    requires "agg#" + Decimal(j) == "agg#" + Decimal(k)
    ensures j == k
  {
    assert ("agg#" + Decimal(j))[4..] == Decimal(j) && ("agg#" + Decimal(k))[4..] == Decimal(k);
    DecimalWritesNumber(j);
    DecimalWritesNumber(k);
  }
}
