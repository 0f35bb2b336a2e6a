/** Plan trees and the rows their executors give (src/include/execution/plans, src/execution). */
module Plans {
  import opened Collections
  import opened Expressions
  import opened Ordering

  datatype ColumnDef = ColumnDef(name: string, ty: TypeId)

  type Schema = seq<ColumnDef>

  function Types(s: Schema): seq<TypeId> {
    seq(|s|, i requires 0 <= i < |s| => s[i].ty)
  }

  /** The row of typed NULLs that pads an unmatched left row. */
  function NullRow(types: seq<TypeId>): Row {
    seq(|types|, i requires 0 <= i < |types| => Null(types[i]))
  }

  datatype JoinType = INNER | LEFT

  /**
   * `Leaf` and `Unary` stand for the nodes no rule looks at: values, mock scans; aggregation, insert,
   * delete, update.
   */
  datatype Plan =
    | SeqScan(schema: Schema, table: string, filter: Option<Expr>)
    | IndexScan(schema: Schema, index: nat, table: string, key: Value)
    | Filter(schema: Schema, pred: Expr, child: Plan)
    | Projection(schema: Schema, exprs: seq<Expr>, child: Plan)
    | NestedLoopJoin(schema: Schema, join: JoinType, pred: Expr, left: Plan, right: Plan)
    | NestedIndexJoin(schema: Schema, join: JoinType, keyPred: Expr, index: nat, table: string, inner: Schema,
                      left: Plan)
    | Sort(schema: Schema, orderBy: seq<SortKey>, child: Plan)
    | Limit(schema: Schema, n: nat, child: Plan)
    | TopN(schema: Schema, orderBy: seq<SortKey>, n: nat, child: Plan)
    | Leaf(schema: Schema, op: nat)
    | Unary(schema: Schema, op: nat, child: Plan)

  /** The positions of an index's key columns and the names of the columns of its key schema. */
  datatype Index = Index(oid: nat, keyAttrs: seq<nat>, keyNames: seq<string>)

  /** The column names of a table and its indexes in catalog order. */
  datatype TableInfo = TableInfo(columns: seq<string>, indexes: seq<Index>)

  type Catalog = string -> TableInfo

  /** What the storage layer answers: rows in scan order, index lookups, and the nodes no rule looks at. */
  datatype Database = Database(
    rows: string -> seq<Row>,
    catalog: Catalog,
    lookup: (nat, Value) -> seq<Row>,
    leaf: (nat, seq<Row>) -> bool,
    unary: (nat, seq<Row>, seq<Row>) -> bool)

  // ---- what each executor does with its children's rows

  /** FilterExecutor: a row passes when the predicate is neither NULL nor false. */
  predicate Passes(v: Value) {
    !v.Null? && ReadAsBool(v)
  }

  function Filtered(p: Expr, rows: seq<Row>): seq<Row> {
    if rows == [] then []
    else (if Passes(Evaluate(p, rows[0])) then [rows[0]] else []) + Filtered(p, rows[1..])
  }

  /** SeqScanExecutor with a predicate: there is no test for NULL. */
  function Scanned(p: Expr, rows: seq<Row>): seq<Row> {
    if rows == [] then []
    else (if ReadAsBool(Evaluate(p, rows[0])) then [rows[0]] else []) + Scanned(p, rows[1..])
  }

  function ProjectRow(exprs: seq<Expr>, row: Row): Row {
    seq(|exprs|, i requires 0 <= i < |exprs| => Evaluate(exprs[i], row))
  }

  function Projected(exprs: seq<Expr>, rows: seq<Row>): seq<Row> {
    seq(|rows|, i requires 0 <= i < |rows| => ProjectRow(exprs, rows[i]))
  }

  /** The joined rows of one left row, in the order of the right rows. */
  function Matches(p: Expr, left: Row, rights: seq<Row>): seq<Row> {
    if rights == [] then []
    else (if ReadAsBool(EvaluateJoin(p, left, rights[0])) then [left + rights[0]] else [])
         + Matches(p, left, rights[1..])
  }

  /** A left join gives an unmatched left row once, padded with NULLs. */
  function Padded(join: JoinType, left: Row, nulls: Row, matches: seq<Row>): seq<Row> {
    if matches == [] && join == LEFT then [left + nulls] else matches
  }

  function Joined(join: JoinType, p: Expr, lefts: seq<Row>, rights: seq<Row>, nulls: Row): seq<Row> {
    if lefts == [] then []
    else Padded(join, lefts[0], nulls, Matches(p, lefts[0], rights)) + Joined(join, p, lefts[1..], rights, nulls)
  }

  function Extended(left: Row, rights: seq<Row>): seq<Row> {
    seq(|rights|, i requires 0 <= i < |rights| => left + rights[i])
  }

  function IndexJoined(join: JoinType, key: Expr, lookup: Value -> seq<Row>, lefts: seq<Row>, nulls: Row): seq<Row> {
    if lefts == [] then []
    else Padded(join, lefts[0], nulls, Extended(lefts[0], lookup(Evaluate(key, lefts[0]))))
         + IndexJoined(join, key, lookup, lefts[1..], nulls)
  }

  function Lookup(db: Database, index: nat): Value -> seq<Row> {
    k => db.lookup(index, k)
  }

  /**
   * `rows` is a possible output of the plan. Sorting leaves the order of equal rows open, so a plan can
   * have several outputs. An index scan looks its table up by name; no table has the empty name, and a
   * scan without one stops with a null table and has no output.
   */
  ghost predicate Yields(db: Database, p: Plan, rows: seq<Row>) {
    match p
    case SeqScan(_, t, filter) => rows == (if filter.None? then db.rows(t) else Scanned(filter.value, db.rows(t)))
    case IndexScan(_, ix, t, key) => t != "" && rows == db.lookup(ix, key)
    case Filter(_, e, c) => exists from :: Yields(db, c, from) && rows == Filtered(e, from)
    case Projection(_, es, c) => exists from :: Yields(db, c, from) && rows == Projected(es, from)
    case NestedLoopJoin(_, join, e, l, r) =>
      exists lefts, rights :: Yields(db, l, lefts) && Yields(db, r, rights)
                              && rows == Joined(join, e, lefts, rights, NullRow(Types(r.schema)))
    case NestedIndexJoin(_, join, key, ix, _, inner, l) =>
      exists lefts :: Yields(db, l, lefts)
                      && rows == IndexJoined(join, key, Lookup(db, ix), lefts, NullRow(Types(inner)))
    case Sort(_, keys, c) => exists from :: Yields(db, c, from) && SortsTo(keys, from, rows)
    case Limit(_, n, c) => exists from :: Yields(db, c, from) && rows == Prefix(from, n)
    case TopN(_, keys, n, c) => exists from :: Yields(db, c, from) && IsTop(keys, n, from, rows)
    case Leaf(_, op) => db.leaf(op, rows)
    case Unary(_, op, c) => exists from :: Yields(db, c, from) && db.unary(op, from, rows)
  }

  /** Everything `a` can give, `b` can give too. */
  ghost predicate Refines(db: Database, a: Plan, b: Plan) {
    forall rows :: Yields(db, a, rows) ==> Yields(db, b, rows)
  }

  ghost predicate Equivalent(db: Database, a: Plan, b: Plan) {
    Refines(db, a, b) && Refines(db, b, a)
  }

  // ---- trees

  function Children(p: Plan): (cs: seq<Plan>)
    ensures |cs| <= 2
    ensures forall i :: 0 <= i < |cs| ==> cs[i] < p
  {
    match p
    case SeqScan(_, _, _) => []
    case IndexScan(_, _, _, _) => []
    case Filter(_, _, c) => [c]
    case Projection(_, _, c) => [c]
    case NestedLoopJoin(_, _, _, l, r) => [l, r]
    case NestedIndexJoin(_, _, _, _, _, _, l) => [l]
    case Sort(_, _, c) => [c]
    case Limit(_, _, c) => [c]
    case TopN(_, _, _, c) => [c]
    case Leaf(_, _) => []
    case Unary(_, _, c) => [c]
  }

  function CloneWithChildren(p: Plan, cs: seq<Plan>): Plan
    requires |cs| == |Children(p)|
  {
    match p
    case SeqScan(_, _, _) => p
    case IndexScan(_, _, _, _) => p
    case Filter(s, e, _) => Filter(s, e, cs[0])
    case Projection(s, es, _) => Projection(s, es, cs[0])
    case NestedLoopJoin(s, join, e, _, _) => NestedLoopJoin(s, join, e, cs[0], cs[1])
    case NestedIndexJoin(s, join, key, ix, t, inner, _) => NestedIndexJoin(s, join, key, ix, t, inner, cs[0])
    case Sort(s, keys, _) => Sort(s, keys, cs[0])
    case Limit(s, n, _) => Limit(s, n, cs[0])
    case TopN(s, keys, n, _) => TopN(s, keys, n, cs[0])
    case Leaf(_, _) => p
    case Unary(s, op, _) => Unary(s, op, cs[0])
  }

  /** The same node under another output schema. */
  function WithSchema(p: Plan, s: Schema): Plan {
    match p
    case SeqScan(_, t, filter) => SeqScan(s, t, filter)
    case IndexScan(_, ix, t, key) => IndexScan(s, ix, t, key)
    case Filter(_, e, c) => Filter(s, e, c)
    case Projection(_, es, c) => Projection(s, es, c)
    case NestedLoopJoin(_, join, e, l, r) => NestedLoopJoin(s, join, e, l, r)
    case NestedIndexJoin(_, join, key, ix, t, inner, l) => NestedIndexJoin(s, join, key, ix, t, inner, l)
    case Sort(_, keys, c) => Sort(s, keys, c)
    case Limit(_, n, c) => Limit(s, n, c)
    case TopN(_, keys, n, c) => TopN(s, keys, n, c)
    case Leaf(_, op) => Leaf(s, op)
    case Unary(_, op, c) => Unary(s, op, c)
  }

  /** Replacing the only child by one that refines it refines the node. */
  lemma UnaryMonotone(db: Database, p: Plan, c: Plan)
    requires |Children(p)| == 1
    requires Refines(db, c, Children(p)[0])
    ensures Refines(db, CloneWithChildren(p, [c]), p)
  {
    var q := CloneWithChildren(p, [c]);
    forall rows | Yields(db, q, rows)
      ensures Yields(db, p, rows)
    {
      match p
      case Filter(_, _, _) =>
      case Projection(_, _, _) =>
      case NestedIndexJoin(_, _, _, _, _, _, _) =>
      case Sort(_, _, _) =>
      case Limit(_, _, _) =>
      case TopN(_, _, _, _) =>
      case Unary(_, _, _) =>
    }
  }

  /** The padding of a join depends on the types of its right child, so those must stay. */
  lemma JoinMonotone(db: Database, p: Plan, l: Plan, r: Plan)
    requires p.NestedLoopJoin?
    requires Refines(db, l, p.left) && Refines(db, r, p.right)
    requires Types(r.schema) == Types(p.right.schema)
    ensures Refines(db, CloneWithChildren(p, [l, r]), p)
  {
  }
}
