/**
 Values, expressions and what evaluating them gives, with SQL's NULL
 (src/type, src/include/execution/expressions).
 */
module Expressions {
  import opened Collections

  datatype TypeId = INVALID | BOOLEAN | INTEGER

  datatype Value = Int(i: int) | Bool(b: bool) | Null(ty: TypeId)

  type Row = seq<Value>

  datatype Truth = True | False | Unknown

  /** The integer that stands for NULL: an INTEGER with this payload is NULL. */
  const INT32_NULL: int := -0x8000_0000

  function IntegerValue(i: int): Value {
    if i == INT32_NULL then Null(INTEGER) else Int(i)
  }

  function BooleanValue(t: Truth): Value {
    match t
    case True => Bool(true)
    case False => Bool(false)
    case Unknown => Null(BOOLEAN)
  }

  /**
   * Reading the first payload byte as a C++ bool, with no NULL test. The NULL boolean is stored as
   * -128 and so reads as true; the NULL integer has a zero low byte and reads as false.
   */
  predicate ReadAsBool(v: Value) {
    match v
    case Bool(b) => b
    case Int(i) => i % 256 != 0
    case Null(ty) => ty == BOOLEAN
  }

  /** The one value on which a test for NULL and ReadAsBool disagree. */
  predicate Definite(v: Value) {
    v != Null(BOOLEAN)
  }

  datatype Comparison = Equal | NotEqual | LessThan | LessThanOrEqual | GreaterThan | GreaterThanOrEqual

  predicate Holds(op: Comparison, a: int, b: int) {
    match op
    case Equal => a == b
    case NotEqual => a != b
    case LessThan => a < b
    case LessThanOrEqual => a <= b
    case GreaterThan => a > b
    case GreaterThanOrEqual => a >= b
  }

  function Ordinal(b: bool): int {
    if b then 1 else 0
  }

  function TruthOf(b: bool): Truth {
    if b then True else False
  }

  /** Values of different types are not comparable; the comparison is then unknown, as for NULL. */
  function Compare(op: Comparison, a: Value, b: Value): Truth {
    match (a, b)
    case (Int(x), Int(y)) => TruthOf(Holds(op, x, y))
    case (Bool(x), Bool(y)) => TruthOf(Holds(op, Ordinal(x), Ordinal(y)))
    case _ => Unknown
  }

  datatype Arithmetic = Plus | Minus

  function Compute(op: Arithmetic, a: Value, b: Value): Value {
    match (a, b)
    case (Int(x), Int(y)) => IntegerValue(if op == Plus then x + y else x - y)
    case _ => Null(INTEGER)
  }

  datatype Connective = And | Or

  function TruthValue(v: Value): Truth {
    if v.Null? then Unknown else TruthOf(ReadAsBool(v))
  }

  function Combine(op: Connective, a: Value, b: Value): Truth {
    var l, r := TruthValue(a), TruthValue(b);
    match op
    case And => if l == False || r == False then False else if l == True && r == True then True else Unknown
    case Or => if l == False && r == False then False else if l == True || r == True then True else Unknown
  }

  datatype Expr =
    | Column(tuple: nat, col: nat, ty: TypeId)
    | Const(val: Value)
    | Comp(comp: Comparison, left: Expr, right: Expr)
    | Arith(arith: Arithmetic, left: Expr, right: Expr)
    | Logic(logic: Connective, left: Expr, right: Expr)

  function ColumnOf(row: Row, col: nat, ty: TypeId): Value {
    if col < |row| then row[col] else Null(ty)
  }

  /** Evaluation against one tuple; the tuple index of a column is ignored. */
  function Evaluate(e: Expr, row: Row): Value {
    match e
    case Column(_, col, ty) => ColumnOf(row, col, ty)
    case Const(v) => v
    case Comp(op, l, r) => BooleanValue(Compare(op, Evaluate(l, row), Evaluate(r, row)))
    case Arith(op, l, r) => Compute(op, Evaluate(l, row), Evaluate(r, row))
    case Logic(op, l, r) => BooleanValue(Combine(op, Evaluate(l, row), Evaluate(r, row)))
  }

  /** Evaluation against a pair of tuples; tuple index 0 is the left one, any other the right one. */
  function EvaluateJoin(e: Expr, left: Row, right: Row): Value {
    match e
    case Column(tuple, col, ty) => ColumnOf(if tuple == 0 then left else right, col, ty)
    case Const(v) => v
    case Comp(op, l, r) => BooleanValue(Compare(op, EvaluateJoin(l, left, right), EvaluateJoin(r, left, right)))
    case Arith(op, l, r) => Compute(op, EvaluateJoin(l, left, right), EvaluateJoin(r, left, right))
    case Logic(op, l, r) => BooleanValue(Combine(op, EvaluateJoin(l, left, right), EvaluateJoin(r, left, right)))
  }

  /** Every column of `e` is a column of the first tuple, which has `width` columns. */
  predicate Within(e: Expr, width: nat) {
    match e
    case Column(tuple, col, _) => tuple == 0 && col < width
    case Const(_) => true
    case Comp(_, l, r) => Within(l, width) && Within(r, width)
    case Arith(_, l, r) => Within(l, width) && Within(r, width)
    case Logic(_, l, r) => Within(l, width) && Within(r, width)
  }

  /** Moves a predicate over the joined row into a predicate over the two rows it was joined from. */
  function RewriteForJoin(e: Expr, leftWidth: nat, rightWidth: nat): Result<Expr> {
    match e
    case Column(tuple, col, ty) =>
      if tuple != 0 then Failure("tuple_idx cannot be value other than 0 before this stage.")
      else if col < leftWidth then Success(Column(0, col, ty))
      else if col < leftWidth + rightWidth then Success(Column(1, col - leftWidth, ty))
      else Failure("col_idx not in range")
    case Const(_) => Success(e)
    case Comp(op, l, r) =>
      var left :- RewriteForJoin(l, leftWidth, rightWidth);
      var right :- RewriteForJoin(r, leftWidth, rightWidth);
      Success(Comp(op, left, right))
    case Arith(op, l, r) =>
      var left :- RewriteForJoin(l, leftWidth, rightWidth);
      var right :- RewriteForJoin(r, leftWidth, rightWidth);
      Success(Arith(op, left, right))
    case Logic(op, l, r) =>
      var left :- RewriteForJoin(l, leftWidth, rightWidth);
      var right :- RewriteForJoin(r, leftWidth, rightWidth);
      Success(Logic(op, left, right))
  }

  /** The rewrite is refused exactly when some column is not a column of the joined row. */
  lemma {:induction false} RewriteSucceedsIff(e: Expr, leftWidth: nat, rightWidth: nat)
    ensures RewriteForJoin(e, leftWidth, rightWidth).Success? <==> Within(e, leftWidth + rightWidth)
  {
    match e
    case Column(_, _, _) =>
    case Const(_) =>
    case Comp(_, l, r) =>
      RewriteSucceedsIff(l, leftWidth, rightWidth);
      RewriteSucceedsIff(r, leftWidth, rightWidth);
    case Arith(_, l, r) =>
      RewriteSucceedsIff(l, leftWidth, rightWidth);
      RewriteSucceedsIff(r, leftWidth, rightWidth);
    case Logic(_, l, r) =>
      RewriteSucceedsIff(l, leftWidth, rightWidth);
      RewriteSucceedsIff(r, leftWidth, rightWidth);
  }

  /** Rewriting preserves the value of every expression on every pair of rows, NULLs included. */
  lemma {:induction false} RewritePreservesValue(e: Expr, left: Row, right: Row)
    requires Within(e, |left| + |right|)
    ensures RewriteForJoin(e, |left|, |right|).Success?
    ensures EvaluateJoin(RewriteForJoin(e, |left|, |right|).value, left, right) == Evaluate(e, left + right)
  {
    RewriteSucceedsIff(e, |left|, |right|);
    match e
    case Column(_, _, _) =>
    case Const(_) =>
    case Comp(_, l, r) =>
      RewritePreservesValue(l, left, right);
      RewritePreservesValue(r, left, right);
    case Arith(_, l, r) =>
      RewritePreservesValue(l, left, right);
      RewritePreservesValue(r, left, right);
    case Logic(_, l, r) =>
      RewritePreservesValue(l, left, right);
      RewritePreservesValue(r, left, right);
  }
}
