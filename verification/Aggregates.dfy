/** Bound expressions over groups, and the two-phase plan of a query with aggregates (src/planner). */
module Aggregates {
  import opened Collections
  import opened Expressions
  import opened Plans

  /** `Unsupported` stands for the kinds the planner rejects: casts, functions, stars, unary operators. */
  datatype Bound =
    | AggCall(func: string, distinct: bool, args: seq<Bound>)
    | ColumnRef(name: string)
    | BinaryOp(op: string, larg: Bound, rarg: Bound)
    | Constant(val: Value)
    | Alias(alias: string, child: Bound)
    | Unsupported

  datatype AggregationType = CountStar | Count | Sum | Min | Max

  const UNNAMED_COLUMN := "<unnamed>"

  // ---- what a query over groups means, without a plan

  datatype Operator = Compares(comp: Comparison) | Computes(arith: Arithmetic) | Connects(logic: Connective)

  /** The binary operators the planner knows, by name. */
  function OperatorOf(op: string): Option<Operator> {
    if op == "=" || op == "==" then Some(Compares(Equal))
    else if op == "!=" || op == "<>" then Some(Compares(NotEqual))
    else if op == "<" then Some(Compares(LessThan))
    else if op == "<=" then Some(Compares(LessThanOrEqual))
    else if op == ">" then Some(Compares(GreaterThan))
    else if op == ">=" then Some(Compares(GreaterThanOrEqual))
    else if op == "+" then Some(Computes(Plus))
    else if op == "-" then Some(Computes(Minus))
    else if op == "and" then Some(Connects(And))
    else if op == "or" then Some(Connects(Or))
    else None
  }

  function ApplyOp(op: string, a: Value, b: Value): Option<Value> {
    match OperatorOf(op)
    case Some(Compares(c)) => Some(BooleanValue(Compare(c, a, b)))
    case Some(Computes(c)) => Some(Compute(c, a, b))
    case Some(Connects(c)) => Some(BooleanValue(Combine(c, a, b)))
    case None => None
  }

  function Names(s: Schema): seq<string> {
    seq(|s|, i requires 0 <= i < |s| => s[i].name)
  }

  /** The position of the only occurrence of `name`. */
  function ColumnIndex(names: seq<string>, name: string): (r: Option<nat>)
    ensures r.Some? ==> r.value < |names| && names[r.value] == name
    ensures r.Some? ==> forall j :: 0 <= j < |names| && j != r.value ==> names[j] != name
    ensures r.None? && name in names ==> exists i, j :: 0 <= i < j < |names| && names[i] == names[j] == name
  {
    if names == [] then None
    else
      var rest := names[1..];
      assert forall j :: 0 < j < |names| ==> names[j] == rest[j - 1];
      if names[0] == name then
        if name in rest then None else Some(0)
      else
        match ColumnIndex(rest, name)
        case Some(i) => Some(i + 1)
        case None => None
  }

  /**
   * The value of a bound expression, given what its column names and its aggregate calls stand for.
   * None when it names no such column or uses an operator that does not exist.
   */
  function Meaning(e: Bound, column: string -> Option<Value>, call: Bound -> Option<Value>): Option<Value> {
    match e
    case AggCall(_, _, _) => call(e)
    case ColumnRef(name) => column(name)
    case BinaryOp(op, l, r) =>
      var a, b := Meaning(l, column, call), Meaning(r, column, call);
      if a.Some? && b.Some? then ApplyOp(op, a.value, b.value) else None
    case Constant(v) => Some(v)
    case Alias(_, c) => Meaning(c, column, call)
    case Unsupported => None
  }

  function RowColumn(s: Schema, row: Row): string -> Option<Value> {
    name => match ColumnIndex(Names(s), name)
            case Some(i) => if i < |row| then Some(row[i]) else None
            case None => None
  }

  /** The value of an expression on one row; aggregate calls have none. */
  function RowMeaning(e: Bound, s: Schema, row: Row): Option<Value> {
    Meaning(e, RowColumn(s, row), _ => None)
  }

  function Initial(ty: AggregationType): Value {
    if ty == CountStar then Int(0) else Null(INTEGER)
  }

  function CombineValue(ty: AggregationType, acc: Value, v: Value): Value {
    match ty
    case CountStar => Compute(Plus, acc, Int(1))
    case Count => if v.Null? then acc else Compute(Plus, if acc.Null? then Int(0) else acc, Int(1))
    case Sum => if v.Null? then acc else if acc.Null? then v else Compute(Plus, acc, v)
    case Min => if v.Null? then acc else if acc.Null? || Compare(LessThan, v, acc) == True then v else acc
    case Max => if v.Null? then acc else if acc.Null? || Compare(GreaterThan, v, acc) == True then v else acc
  }

  function Aggregate(ty: AggregationType, values: seq<Value>): Value {
    if values == [] then Initial(ty)
    else CombineValue(ty, Aggregate(ty, values[..|values| - 1]), values[|values| - 1])
  }

  function FunctionOf(func: string): Option<AggregationType> {
    if func == "min" then Some(Min)
    else if func == "max" then Some(Max)
    else if func == "sum" then Some(Sum)
    else if func == "count" then Some(Count)
    else None
  }

  /** The value of `arg` on each row of a group; None if it has none on some row. */
  function ArgumentValues(arg: Bound, s: Schema, group: seq<Row>): Option<seq<Value>> {
    if group == [] then Some([])
    else
      var v, rest := RowMeaning(arg, s, group[0]), ArgumentValues(arg, s, group[1..]);
      if v.Some? && rest.Some? then Some([v.value] + rest.value) else None
  }

  /** The value of an aggregate call over a group of rows of schema `s`. */
  function CallValue(call: Bound, s: Schema, group: seq<Row>): Option<Value> {
    if !call.AggCall? || call.distinct then None
    else if call.args == [] then
      if call.func == "count_star" then Some(Aggregate(CountStar, seq(|group|, _ => Int(1)))) else None
    else if |call.args| == 1 then
      match (FunctionOf(call.func), ArgumentValues(call.args[0], s, group))
      case (Some(ty), Some(values)) => Some(Aggregate(ty, values))
      case _ => None
    else None
  }

  // ---- the calls of an expression, and the calls left in their place

  /** The aggregate calls of an expression, left to right; an aggregate's own arguments are not searched. */
  function Calls(e: Bound): seq<Bound> {
    match e
    case AggCall(_, _, _) => [e]
    case BinaryOp(_, l, r) => Calls(l) + Calls(r)
    case Alias(_, c) => Calls(c)
    case _ => []
  }

  function CallsOf(es: seq<Bound>): seq<Bound> {
    if es == [] then [] else Calls(es[0]) + CallsOf(es[1..])
  }

  const DIGITS := "0123456789"

  function Decimal(n: nat): string {
    if n < 10 then [DIGITS[n]] else Decimal(n / 10) + [DIGITS[n % 10]]
  }

  /** The expression after its calls have been moved to the context, where `k` calls were before. */
  function WithPseudoCalls(e: Bound, k: nat): Result<Bound> {
    match e
    case AggCall(_, distinct, _) => Success(AggCall("__pseudo_agg#" + Decimal(k), distinct, []))
    case ColumnRef(_) => Success(e)
    case BinaryOp(op, l, r) =>
      var left :- WithPseudoCalls(l, k);
      var right :- WithPseudoCalls(r, k + |Calls(l)|);
      Success(BinaryOp(op, left, right))
    case Constant(_) => Success(e)
    case Alias(name, c) =>
      var child :- WithPseudoCalls(c, k);
      Success(Alias(name, child))
    case Unsupported => Failure("expression type not supported in planner yet")
  }

  function AllWithPseudoCalls(es: seq<Bound>, k: nat): Result<seq<Bound>> {
    if es == [] then Success([])
    else
      var e :- WithPseudoCalls(es[0], k);
      var rest :- AllWithPseudoCalls(es[1..], k + |Calls(es[0])|);
      Success([e] + rest)
  }

  // ---- planning expressions

  datatype Planned = Planned(name: string, expr: Expr)

  /** A planned expression and the number of calls consumed when it was done. */
  datatype Step<T> = Step(out: T, next: nat)

  function TypeOf(e: Expr): TypeId {
    match e
    case Column(_, _, ty) => ty
    case Const(Int(_)) => INTEGER
    case Const(Bool(_)) => BOOLEAN
    case Const(Null(ty)) => ty
    case Comp(_, _, _) => BOOLEAN
    case Arith(_, _, _) => INTEGER
    case Logic(_, _, _) => BOOLEAN
  }

  function ArithExpression(op: Arithmetic, l: Expr, r: Expr): Result<Expr> {
    if TypeOf(l) == INTEGER && TypeOf(r) == INTEGER then Success(Arith(op, l, r))
    else Failure("only support integer for now")
  }

  function LogicExpression(op: Connective, l: Expr, r: Expr): Result<Expr> {
    if TypeOf(l) == BOOLEAN && TypeOf(r) == BOOLEAN then Success(Logic(op, l, r))
    else Failure("expect boolean from either side")
  }

  function BinaryExpression(op: string, l: Expr, r: Expr): Result<Expr> {
    match OperatorOf(op)
    case Some(Compares(c)) => Success(Comp(c, l, r))
    case Some(Computes(c)) => ArithExpression(c, l, r)
    case Some(Connects(c)) => LogicExpression(c, l, r)
    case None => Failure("binary op not supported in planner yet")
  }

  function PlanColumnRef(name: string, s: Schema): Result<Expr> {
    match ColumnIndex(Names(s), name)
    case Some(i) => Success(Column(0, i, s[i].ty))
    case None => Failure(if name in Names(s) then "duplicated column found in schema" else "Column does not exist")
  }

  /** Planning against schema `s`, where the next call takes `inAgg[next]`. */
  function PlanBound(e: Bound, s: Schema, inAgg: seq<Expr>, next: nat): Result<Step<Planned>> {
    match e
    case AggCall(_, _, _) =>
      if next >= |inAgg| then Failure("unexpected agg call")
      else Success(Step(Planned(UNNAMED_COLUMN, inAgg[next]), next + 1))
    case ColumnRef(name) =>
      var c :- PlanColumnRef(name, s);
      Success(Step(Planned(name, c), next))
    case BinaryOp(op, l, r) =>
      var left :- PlanBound(l, s, inAgg, next);
      var right :- PlanBound(r, s, inAgg, left.next);
      var x :- BinaryExpression(op, left.out.expr, right.out.expr);
      Success(Step(Planned(UNNAMED_COLUMN, x), right.next))
    case Constant(v) => Success(Step(Planned(UNNAMED_COLUMN, Const(v)), next))
    case Alias(name, c) =>
      var p :- PlanBound(c, s, inAgg, next);
      Success(Step(Planned(name, p.out.expr), p.next))
    case Unsupported => Failure("expression type not supported in planner yet")
  }

  function PlanAll(es: seq<Bound>, s: Schema, inAgg: seq<Expr>, next: nat): Result<Step<seq<Planned>>> {
    if es == [] then Success(Step([], next))
    else
      var p :- PlanBound(es[0], s, inAgg, next);
      var rest :- PlanAll(es[1..], s, inAgg, p.next);
      Success(Step([p.out] + rest.out, rest.next))
  }

  // ---- planning the query

  datatype Term = Term(ty: AggregationType, input: Expr)

  function PlanCall(call: Bound, s: Schema): Result<Term> {
    if !call.AggCall? then Failure("alias for agg call is not supported for now")
    else if call.distinct then Failure("distinct agg is not implemented yet")
    else
      var args :- PlanAll(call.args, s, [], 0);
      if args.out == [] && call.func == "count_star" then Success(Term(CountStar, Const(Int(1))))
      else if |args.out| == 1 && FunctionOf(call.func).Some? then
        Success(Term(FunctionOf(call.func).value, args.out[0].expr))
      else Failure("unsupported agg_call")
  }

  function PlanCalls(calls: seq<Bound>, s: Schema): Result<seq<Term>> {
    if calls == [] then Success([])
    else
      var t :- PlanCall(calls[0], s);
      var rest :- PlanCalls(calls[1..], s);
      Success([t] + rest)
  }

  datatype Select = Select(groupBy: seq<Bound>, having: Option<Bound>, items: seq<Bound>)

  /** Projection over an optional filter over an aggregation. */
  datatype AggPlan = AggPlan(groups: seq<Planned>, terms: seq<Term>, filter: Option<Expr>, outputs: seq<Planned>)

  function GroupColumns(groups: seq<Planned>): Schema {
    seq(|groups|, i requires 0 <= i < |groups| => ColumnDef(groups[i].name, TypeOf(groups[i].expr)))
  }

  /** The output of the aggregation: the group-by columns, then one column per call. */
  function AggSchema(groups: seq<Planned>, n: nat): Schema {
    GroupColumns(groups) + seq(n, k requires 0 <= k < n => ColumnDef("agg#" + Decimal(k), INTEGER))
  }

  /** The column that the k-th call reads. */
  function CallColumns(first: nat, n: nat): seq<Expr> {
    seq(n, k requires 0 <= k < n => Column(0, first + k, INTEGER))
  }

  function HavingOf(q: Select): seq<Bound> {
    if q.having.Some? then [q.having.value] else []
  }

  /** The calls of the query in the order they are collected: HAVING first, then the select list. */
  function QueryCalls(q: Select): seq<Bound> {
    CallsOf(HavingOf(q)) + CallsOf(q.items)
  }

  function PlanSelectAgg(q: Select, s: Schema): Result<AggPlan> {
    var groups :- PlanAll(q.groupBy, s, [], 0);
    var having :- AllWithPseudoCalls(HavingOf(q), 0);
    var items :- AllWithPseudoCalls(q.items, |CallsOf(HavingOf(q))|);
    var calls := QueryCalls(q);
    var terms :- PlanCalls(calls, s);
    var scope := AggSchema(groups.out, |calls|);
    var inAgg := CallColumns(|groups.out|, |calls|);
    var filter :- PlanAll(having, scope, inAgg, 0);
    var outputs :- PlanAll(items, scope, inAgg, filter.next);
    Success(AggPlan(groups.out, terms, if filter.out == [] then None else Some(filter.out[0].expr), outputs.out))
  }

  /**
   * What the aggregation node gives for one group: its key, then the aggregates in order. A query
   * without GROUP BY has one group even when there are no rows.
   */
  function GroupRow(groups: seq<Planned>, terms: seq<Term>, group: seq<Row>): Row
    requires group == [] ==> groups == []
  {
    seq(|groups|, i requires 0 <= i < |groups| => Evaluate(groups[i].expr, group[0]))
    + seq(|terms|, k requires 0 <= k < |terms| => TermValue(terms[k], group))
  }

  function TermValue(t: Term, group: seq<Row>): Value {
    Aggregate(t.ty, Inputs(t.input, group))
  }

  function Inputs(x: Expr, group: seq<Row>): seq<Value> {
    seq(|group|, i requires 0 <= i < |group| => Evaluate(x, group[i]))
  }

  // ---- the plan means what the query means

  /** The name a group-by expression gives its column. */
  function NameOf(e: Bound): string {
    match e
    case ColumnRef(name) => name
    case Alias(name, _) => name
    case _ => UNNAMED_COLUMN
  }

  /** The names in scope above the aggregation. */
  function GroupNames(q: Select): seq<string> {
    seq(|q.groupBy|, i requires 0 <= i < |q.groupBy| => NameOf(q.groupBy[i]))
    + seq(|QueryCalls(q)|, k requires 0 <= k < |QueryCalls(q)| => "agg#" + Decimal(k))
  }

  /** What a column name stands for in one group. */
  function GroupColumn(q: Select, s: Schema, group: seq<Row>): string -> Option<Value>
    requires group == [] ==> q.groupBy == []
  {
    name => match ColumnIndex(GroupNames(q), name)
            case Some(i) =>
              if i < |q.groupBy| then RowMeaning(q.groupBy[i], s, group[0])
              else if i - |q.groupBy| < |QueryCalls(q)| then CallValue(QueryCalls(q)[i - |q.groupBy|], s, group)
              else None
            case None => None
  }

  /** The value of an item of the select list, or of HAVING, in one group. */
  function GroupMeaning(q: Select, s: Schema, group: seq<Row>, e: Bound): Option<Value>
    requires group == [] ==> q.groupBy == []
  {
    Meaning(e, GroupColumn(q, s, group), call => CallValue(call, s, group))
  }

  lemma BinaryMeans(op: string, l: Expr, r: Expr, row: Row)
    requires BinaryExpression(op, l, r).Success?
    ensures ApplyOp(op, Evaluate(l, row), Evaluate(r, row)) == Some(Evaluate(BinaryExpression(op, l, r).value, row))
  {
  }

  lemma BinaryPlansAlike(op: string, l: Bound, r: Bound, l': Bound, r': Bound, s: Schema, inAgg: seq<Expr>, next: nat)
    requires PlanBound(l', s, inAgg, next) == PlanBound(l, s, inAgg, next)
    requires PlanBound(l, s, inAgg, next).Success? ==>
               var next' := PlanBound(l, s, inAgg, next).value.next;
               PlanBound(r', s, inAgg, next') == PlanBound(r, s, inAgg, next')
    ensures PlanBound(BinaryOp(op, l', r'), s, inAgg, next) == PlanBound(BinaryOp(op, l, r), s, inAgg, next)
  {
  }

  /** The second phase sees only where a call stood, so the pseudo calls plan like the calls they replaced. */
  lemma {:induction false} PseudoCallsPlanAlike(e: Bound, k: nat, s: Schema, inAgg: seq<Expr>, next: nat)
    requires WithPseudoCalls(e, k).Success?
    ensures PlanBound(WithPseudoCalls(e, k).value, s, inAgg, next) == PlanBound(e, s, inAgg, next)
  {
    match e
    case AggCall(_, _, _) =>
    case ColumnRef(_) =>
    case BinaryOp(_, l, r) =>
      PseudoCallsPlanAlike(l, k, s, inAgg, next);
      var left := PlanBound(l, s, inAgg, next);
      if left.Success? {
        PseudoCallsPlanAlike(r, k + |Calls(l)|, s, inAgg, left.value.next);
      }
      BinaryPlansAlike(e.op, l, r, WithPseudoCalls(l, k).value, WithPseudoCalls(r, k + |Calls(l)|).value,
                       s, inAgg, next);
    case Constant(_) =>
    case Alias(_, c) => PseudoCallsPlanAlike(c, k, s, inAgg, next);
  }

  lemma {:induction false} AllPseudoCallsPlanAlike(es: seq<Bound>, k: nat, s: Schema, inAgg: seq<Expr>, next: nat)
    requires AllWithPseudoCalls(es, k).Success?
    ensures PlanAll(AllWithPseudoCalls(es, k).value, s, inAgg, next) == PlanAll(es, s, inAgg, next)
  {
    if es != [] {
      var first := WithPseudoCalls(es[0], k).value;
      var rest := AllWithPseudoCalls(es[1..], k + |Calls(es[0])|).value;
      PseudoCallsPlanAlike(es[0], k, s, inAgg, next);
      PlanAllCons(first, rest, s, inAgg, next);
      PlanAllCons(es[0], es[1..], s, inAgg, next);
      assert es == [es[0]] + es[1..];
      var p := PlanBound(es[0], s, inAgg, next);
      if p.Success? {
        AllPseudoCallsPlanAlike(es[1..], k + |Calls(es[0])|, s, inAgg, p.value.next);
      }
    }
  }

  lemma PlanAllCons(e: Bound, es: seq<Bound>, s: Schema, inAgg: seq<Expr>, next: nat)
    ensures PlanBound(e, s, inAgg, next).Failure? ==>
              PlanAll([e] + es, s, inAgg, next) == Failure(PlanBound(e, s, inAgg, next).error)
    ensures PlanBound(e, s, inAgg, next).Success? ==>
              var p := PlanBound(e, s, inAgg, next).value;
              var rest := PlanAll(es, s, inAgg, p.next);
              PlanAll([e] + es, s, inAgg, next)
              == if rest.Failure? then Failure(rest.error)
                 else Success(Step([p.out] + rest.value.out, rest.value.next))
  {
    assert ([e] + es)[1..] == es;
  }

  /** Columns of the scope hold what the names mean. */
  ghost predicate ColumnsMean(s: Schema, row: Row, column: string -> Option<Value>) {
    forall name :: PlanColumnRef(name, s).Success? ==>
      column(name) == Some(Evaluate(PlanColumnRef(name, s).value, row))
  }

  /** From position `next` on, the call columns hold the values of `calls`, one by one. */
  ghost predicate CallsMean(calls: seq<Bound>, inAgg: seq<Expr>, next: nat, row: Row, call: Bound -> Option<Value>) {
    forall i :: 0 <= i < |calls| && next + i < |inAgg| ==> call(calls[i]) == Some(Evaluate(inAgg[next + i], row))
  }

  lemma CallsMeanParts(a: seq<Bound>, b: seq<Bound>, inAgg: seq<Expr>, next: nat, row: Row,
                       call: Bound -> Option<Value>)
    requires CallsMean(a + b, inAgg, next, row, call)
    ensures CallsMean(a, inAgg, next, row, call) && CallsMean(b, inAgg, next + |a|, row, call)
  {
    forall i | 0 <= i < |a| && next + i < |inAgg|
      ensures call(a[i]) == Some(Evaluate(inAgg[next + i], row))
    {
      assert (a + b)[i] == a[i];
    }
    forall i | 0 <= i < |b| && next + |a| + i < |inAgg|
      ensures call(b[i]) == Some(Evaluate(inAgg[next + |a| + i], row))
    {
      assert (a + b)[|a| + i] == b[i];
    }
  }

  /** A planned expression consumes its own calls in order and evaluates to what it means. */
  lemma {:induction false} PlanBoundMeans(e: Bound, s: Schema, inAgg: seq<Expr>, next: nat, row: Row,
                                          column: string -> Option<Value>, call: Bound -> Option<Value>)
    requires PlanBound(e, s, inAgg, next).Success?
    requires ColumnsMean(s, row, column) && CallsMean(Calls(e), inAgg, next, row, call)
    ensures var p := PlanBound(e, s, inAgg, next).value;
            p.next == next + |Calls(e)| && Meaning(e, column, call) == Some(Evaluate(p.out.expr, row))
  {
    match e
    case AggCall(_, _, _) => assert Calls(e)[0] == e;
    case ColumnRef(_) =>
    case BinaryOp(op, l, r) =>
      CallsMeanParts(Calls(l), Calls(r), inAgg, next, row, call);
      PlanBoundMeans(l, s, inAgg, next, row, column, call);
      var left := PlanBound(l, s, inAgg, next).value;
      PlanBoundMeans(r, s, inAgg, left.next, row, column, call);
      var right := PlanBound(r, s, inAgg, left.next).value;
      BinaryMeans(op, left.out.expr, right.out.expr, row);
    case Constant(_) =>
    case Alias(_, c) => PlanBoundMeans(c, s, inAgg, next, row, column, call);
  }

  lemma {:induction false} PlanAllMeans(es: seq<Bound>, s: Schema, inAgg: seq<Expr>, next: nat, row: Row,
                                        column: string -> Option<Value>, call: Bound -> Option<Value>)
    requires PlanAll(es, s, inAgg, next).Success?
    requires ColumnsMean(s, row, column) && CallsMean(CallsOf(es), inAgg, next, row, call)
    ensures var p := PlanAll(es, s, inAgg, next).value;
            p.next == next + |CallsOf(es)| && |p.out| == |es|
            && forall i :: 0 <= i < |es| ==> Meaning(es[i], column, call) == Some(Evaluate(p.out[i].expr, row))
  {
    if es != [] {
      CallsMeanParts(Calls(es[0]), CallsOf(es[1..]), inAgg, next, row, call);
      PlanBoundMeans(es[0], s, inAgg, next, row, column, call);
      var p := PlanBound(es[0], s, inAgg, next).value;
      PlanAllMeans(es[1..], s, inAgg, p.next, row, column, call);
      var rest := PlanAll(es[1..], s, inAgg, p.next).value.out;
      var out := PlanAll(es, s, inAgg, next).value.out;
      assert out == [p.out] + rest;
      forall i | 0 <= i < |es|
        ensures Meaning(es[i], column, call) == Some(Evaluate(out[i].expr, row))
      {
        if i > 0 {
          assert es[i] == es[1..][i - 1] && out[i] == rest[i - 1];
        }
      }
    }
  }

  lemma RowColumnsMean(s: Schema, row: Row)
    requires |row| == |s|
    ensures ColumnsMean(s, row, RowColumn(s, row))
  {
    assert |Names(s)| == |s|;
  }

  /** An expression planned against the table has the same value as the bound expression on every row. */
  lemma RowPlanMeans(e: Bound, s: Schema, row: Row)
    requires |row| == |s| && PlanBound(e, s, [], 0).Success?
    ensures RowMeaning(e, s, row) == Some(Evaluate(PlanBound(e, s, [], 0).value.out.expr, row))
  {
    RowColumnsMean(s, row);
    PlanBoundMeans(e, s, [], 0, row, RowColumn(s, row), _ => None);
  }

  ghost predicate GroupFits(group: seq<Row>, s: Schema) {
    forall i :: 0 <= i < |group| ==> |group[i]| == |s|
  }

  lemma {:induction false} ArgumentMeans(arg: Bound, s: Schema, group: seq<Row>)
    requires GroupFits(group, s) && PlanBound(arg, s, [], 0).Success?
    ensures var x := PlanBound(arg, s, [], 0).value.out.expr;
            ArgumentValues(arg, s, group) == Some(Inputs(x, group))
  {
    var x := PlanBound(arg, s, [], 0).value.out.expr;
    if group == [] {
      assert Inputs(x, group) == [];
    } else {
      RowPlanMeans(arg, s, group[0]);
      ArgumentMeans(arg, s, group[1..]);
      assert [Evaluate(x, group[0])] + Inputs(x, group[1..]) == Inputs(x, group);
    }
  }

  lemma {:induction false} PlanAllLength(es: seq<Bound>, s: Schema, inAgg: seq<Expr>, next: nat)
    requires PlanAll(es, s, inAgg, next).Success?
    ensures |PlanAll(es, s, inAgg, next).value.out| == |es|
    ensures forall i :: 0 <= i < |es| ==> PlanAll(es, s, inAgg, next).value.out[i].name == NameOf(es[i])
  {
    if es != [] {
      var p := PlanBound(es[0], s, inAgg, next).value;
      PlanAllLength(es[1..], s, inAgg, p.next);
    }
  }

  /** The aggregation term of a call computes the call. */
  lemma TermMeans(call: Bound, s: Schema, group: seq<Row>)
    requires GroupFits(group, s) && PlanCall(call, s).Success?
    ensures CallValue(call, s, group) == Some(TermValue(PlanCall(call, s).value, group))
  {
    PlanAllLength(call.args, s, [], 0);
    if call.args == [] {
      assert Inputs(Const(Int(1)), group) == seq(|group|, _ => Int(1));
    } else {
      assert call.args[1..] == [];
      ArgumentMeans(call.args[0], s, group);
    }
  }

  lemma {:induction false} TermsMean(calls: seq<Bound>, s: Schema, group: seq<Row>)
    requires GroupFits(group, s) && PlanCalls(calls, s).Success?
    ensures var terms := PlanCalls(calls, s).value;
            |terms| == |calls|
            && forall k :: 0 <= k < |calls| ==> CallValue(calls[k], s, group) == Some(TermValue(terms[k], group))
  {
    if calls != [] {
      TermMeans(calls[0], s, group);
      TermsMean(calls[1..], s, group);
      var terms, rest := PlanCalls(calls, s).value, PlanCalls(calls[1..], s).value;
      forall k | 0 <= k < |calls|
        ensures CallValue(calls[k], s, group) == Some(TermValue(terms[k], group))
      {
        if k > 0 {
          assert calls[k] == calls[1..][k - 1] && terms[k] == rest[k - 1];
        }
      }
    }
  }

  lemma NamesInScope(q: Select, s: Schema, groups: seq<Planned>)
    requires PlanAll(q.groupBy, s, [], 0).Success? && groups == PlanAll(q.groupBy, s, [], 0).value.out
    ensures |groups| == |q.groupBy|
    ensures Names(AggSchema(groups, |QueryCalls(q)|)) == GroupNames(q)
  {
    PlanAllLength(q.groupBy, s, [], 0);
  }

  lemma OneGroupColumn(q: Select, s: Schema, groups: seq<Planned>, terms: seq<Term>, group: seq<Row>, i: nat)
    requires group == [] ==> q.groupBy == []
    requires |groups| == |q.groupBy| && |terms| == |QueryCalls(q)| && i < |groups| + |terms|
    requires forall j :: 0 <= j < |groups| ==>
               RowMeaning(q.groupBy[j], s, group[0]) == Some(Evaluate(groups[j].expr, group[0]))
    requires forall k :: 0 <= k < |terms| ==> CallValue(QueryCalls(q)[k], s, group) == Some(TermValue(terms[k], group))
    ensures Some(GroupRow(groups, terms, group)[i])
         == if i < |q.groupBy| then RowMeaning(q.groupBy[i], s, group[0])
            else CallValue(QueryCalls(q)[i - |q.groupBy|], s, group)
  {
    var row := GroupRow(groups, terms, group);
    if i < |groups| {
      assert row[i] == Evaluate(groups[i].expr, group[0]);
    } else {
      assert row[i] == TermValue(terms[i - |groups|], group);
    }
  }

  /** The row of a group holds, under each name in scope, what that name means in the group. */
  lemma GroupColumnsMean(q: Select, s: Schema, groups: seq<Planned>, terms: seq<Term>, group: seq<Row>)
    requires (group == [] ==> q.groupBy == []) && GroupFits(group, s)
    requires PlanAll(q.groupBy, s, [], 0).Success? && groups == PlanAll(q.groupBy, s, [], 0).value.out
    requires PlanCalls(QueryCalls(q), s) == Success(terms)
    ensures group == [] ==> groups == []
    ensures ColumnsMean(AggSchema(groups, |terms|), GroupRow(groups, terms, group), GroupColumn(q, s, group))
  {
    var scope := AggSchema(groups, |terms|);
    TermsMean(QueryCalls(q), s, group);
    NamesInScope(q, s, groups);
    GroupKeysMean(q, s, groups, group);
    var row := GroupRow(groups, terms, group);
    forall name | PlanColumnRef(name, scope).Success?
      ensures GroupColumn(q, s, group)(name) == Some(Evaluate(PlanColumnRef(name, scope).value, row))
    {
      var i := ColumnIndex(GroupNames(q), name).value;
      OneGroupColumn(q, s, groups, terms, group, i);
    }
  }

  lemma GroupKeysMean(q: Select, s: Schema, groups: seq<Planned>, group: seq<Row>)
    requires (group == [] ==> q.groupBy == []) && GroupFits(group, s)
    requires PlanAll(q.groupBy, s, [], 0).Success? && groups == PlanAll(q.groupBy, s, [], 0).value.out
    ensures |groups| == |q.groupBy|
    ensures forall i :: 0 <= i < |groups| ==>
              RowMeaning(q.groupBy[i], s, group[0]) == Some(Evaluate(groups[i].expr, group[0]))
  {
    PlanAllLength(q.groupBy, s, [], 0);
    if group != [] {
      RowColumnsMean(s, group[0]);
      PlanAllMeans(q.groupBy, s, [], 0, group[0], RowColumn(s, group[0]), _ => None);
    }
  }

  /** Column |group-by| + k holds the value of the k-th call. */
  lemma CallColumnsMean(calls: seq<Bound>, s: Schema, groups: seq<Planned>, terms: seq<Term>, group: seq<Row>)
    requires (group == [] ==> groups == []) && GroupFits(group, s) && PlanCalls(calls, s) == Success(terms)
    ensures |terms| == |calls|
    ensures CallsMean(calls, CallColumns(|groups|, |calls|), 0, GroupRow(groups, terms, group),
              call => CallValue(call, s, group))
  {
    TermsMean(calls, s, group);
    var row, inAgg := GroupRow(groups, terms, group), CallColumns(|groups|, |calls|);
    forall k | 0 <= k < |calls|
      ensures CallValue(calls[k], s, group) == Some(Evaluate(inAgg[k], row))
    {
      assert row[|groups| + k] == TermValue(terms[k], group);
    }
  }

  /** The second phase: HAVING and then the select list, planned above the aggregation. */
  lemma SecondPhaseMeans(q: Select, s: Schema, groups: seq<Planned>, terms: seq<Term>, group: seq<Row>)
    requires (group == [] ==> q.groupBy == []) && GroupFits(group, s)
    requires PlanAll(q.groupBy, s, [], 0).Success? && groups == PlanAll(q.groupBy, s, [], 0).value.out
    requires PlanCalls(QueryCalls(q), s) == Success(terms)
    requires |groups| == |q.groupBy|
    requires PlanAll(HavingOf(q), AggSchema(groups, |terms|), CallColumns(|groups|, |terms|), 0).Success?
    requires PlanAll(q.items, AggSchema(groups, |terms|), CallColumns(|groups|, |terms|),
               PlanAll(HavingOf(q), AggSchema(groups, |terms|), CallColumns(|groups|, |terms|), 0).value.next).Success?
    ensures var scope, inAgg, row :=
              AggSchema(groups, |terms|), CallColumns(|groups|, |terms|), GroupRow(groups, terms, group);
            var having := PlanAll(HavingOf(q), scope, inAgg, 0).value;
            var outputs := PlanAll(q.items, scope, inAgg, having.next).value;
            |having.out| == |HavingOf(q)| && |outputs.out| == |q.items| && outputs.next == |QueryCalls(q)|
            && (q.having.Some? ==>
                  GroupMeaning(q, s, group, q.having.value) == Some(Evaluate(having.out[0].expr, row)))
            && forall i :: 0 <= i < |q.items| ==>
                 GroupMeaning(q, s, group, q.items[i]) == Some(Evaluate(outputs.out[i].expr, row))
  {
    var scope, inAgg, row := AggSchema(groups, |terms|), CallColumns(|groups|, |terms|), GroupRow(groups, terms, group);
    var column, call := GroupColumn(q, s, group), c => CallValue(c, s, group);
    GroupColumnsMean(q, s, groups, terms, group);
    CallColumnsMean(QueryCalls(q), s, groups, terms, group);
    CallsMeanParts(CallsOf(HavingOf(q)), CallsOf(q.items), inAgg, 0, row, call);
    PlanAllMeans(HavingOf(q), scope, inAgg, 0, row, column, call);
    var having := PlanAll(HavingOf(q), scope, inAgg, 0).value;
    PlanAllMeans(q.items, scope, inAgg, having.next, row, column, call);
  }

  /**
   * The plan of a query gives, for every group, the value each select item and HAVING have in that
   * group: every call reads the column that holds its own aggregate, however deep it stood.
   */
  lemma PlanMeansQuery(q: Select, s: Schema, plan: AggPlan, group: seq<Row>)
    requires PlanSelectAgg(q, s) == Success(plan)
    requires (group == [] ==> q.groupBy == []) && GroupFits(group, s)
    ensures group == [] ==> plan.groups == []
    ensures |plan.terms| == |QueryCalls(q)| && |plan.outputs| == |q.items|
    ensures plan.filter.Some? <==> q.having.Some?
    ensures q.having.Some? ==>
              GroupMeaning(q, s, group, q.having.value)
              == Some(Evaluate(plan.filter.value, GroupRow(plan.groups, plan.terms, group)))
    ensures forall i :: 0 <= i < |q.items| ==>
              GroupMeaning(q, s, group, q.items[i])
              == Some(Evaluate(plan.outputs[i].expr, GroupRow(plan.groups, plan.terms, group)))
  {
    var groups, terms := plan.groups, plan.terms;
    TermsMean(QueryCalls(q), s, group);
    var scope, inAgg := AggSchema(groups, |terms|), CallColumns(|groups|, |terms|);
    PlanAllLength(q.groupBy, s, [], 0);
    AllPseudoCallsPlanAlike(HavingOf(q), 0, scope, inAgg, 0);
    var having := PlanAll(HavingOf(q), scope, inAgg, 0).value;
    AllPseudoCallsPlanAlike(q.items, |CallsOf(HavingOf(q))|, scope, inAgg, having.next);
    SecondPhaseMeans(q, s, groups, terms, group);
  }
}
