/** The rewrite rules and the order they run in (src/optimizer). */
module Optimizer {
  import opened Collections
  import opened Expressions
  import opened Plans
  import opened Ordering
  import opened Joins

  datatype Rule =
    | MergeProjection
    | MergeFilterNLJ
    | NLJAsIndexJoin
    | OrderByAsIndexScan
    | SortLimitAsTopN
    | FilterAsIndexScan
    | MergeFilterScan

  /** Position i holds the first index on exactly the column `col`. */
  ghost predicate IsFirstMatch(indexes: seq<Index>, col: nat, i: int) {
    0 <= i < |indexes| && indexes[i].keyAttrs == [col] && forall j :: 0 <= j < i ==> indexes[j].keyAttrs != [col]
  }

  /** The first index of a table whose key is the one column `col`. */
  function MatchIndex(indexes: seq<Index>, col: nat): (oid: Option<nat>)
    ensures oid.None? <==> forall i :: 0 <= i < |indexes| ==> indexes[i].keyAttrs != [col]
    ensures oid.Some? ==> exists i :: IsFirstMatch(indexes, col, i) && indexes[i].oid == oid.value
  {
    if indexes == [] then None
    else if indexes[0].keyAttrs == [col] then
      assert IsFirstMatch(indexes, col, 0);
      Some(indexes[0].oid)
    else
      LaterMatch(indexes, col);
      MatchIndex(indexes[1..], col)
  }

  lemma LaterMatch(indexes: seq<Index>, col: nat)
    requires indexes != [] && indexes[0].keyAttrs != [col]
    ensures forall i :: IsFirstMatch(indexes[1..], col, i) ==> IsFirstMatch(indexes, col, i + 1)
    ensures (forall i :: 0 <= i < |indexes| ==> indexes[i].keyAttrs != [col])
            <==> forall i :: 0 <= i < |indexes[1..]| ==> indexes[1..][i].keyAttrs != [col]
  {
    var rest := indexes[1..];
    assert forall i :: 0 < i < |indexes| ==> indexes[i] == rest[i - 1];
    forall i | IsFirstMatch(rest, col, i)
      ensures IsFirstMatch(indexes, col, i + 1)
    {
      assert indexes[i + 1] == rest[i];
    }
  }

  /** Index i has one key column and its name is `name`. */
  predicate IsNamed(indexes: seq<Index>, name: string, i: int) {
    0 <= i < |indexes| && indexes[i].keyNames == [name]
  }

  /** The first index of a table whose one key column carries the name of column `col` of the table. */
  function MatchName(info: TableInfo, col: nat): (oid: Option<nat>)
    ensures oid.None? <==> col >= |info.columns| || forall i :: !IsNamed(info.indexes, info.columns[col], i)
    ensures oid.Some? ==>
              exists i :: IsNamed(info.indexes, info.columns[col], i) && info.indexes[i].oid == oid.value
                          && forall j :: 0 <= j < i ==> !IsNamed(info.indexes, info.columns[col], j)
  {
    if col >= |info.columns| then None else FirstNamed(info.indexes, info.columns[col], 0)
  }

  function FirstNamed(indexes: seq<Index>, name: string, from: nat): (oid: Option<nat>)
    requires from <= |indexes| && forall j :: 0 <= j < from ==> !IsNamed(indexes, name, j)
    ensures oid.None? <==> forall i :: !IsNamed(indexes, name, i)
    ensures oid.Some? ==> exists i :: IsNamed(indexes, name, i) && indexes[i].oid == oid.value
                                      && forall j :: 0 <= j < i ==> !IsNamed(indexes, name, j)
    decreases |indexes| - from
  {
    if from == |indexes| then None
    else if IsNamed(indexes, name, from) then Some(indexes[from].oid)
    else FirstNamed(indexes, name, from + 1)
  }

  predicate IsIdentity(exprs: seq<Expr>) {
    forall i :: 0 <= i < |exprs| ==> exprs[i].Column? && exprs[i].tuple == 0 && exprs[i].col == i
  }

  function MergeProjectionAt(p: Plan): Plan {
    if p.Projection? && Types(p.child.schema) == Types(p.schema) && IsIdentity(p.exprs)
    then WithSchema(p.child, p.schema)
    else p
  }

  function MergeFilterNLJAt(p: Plan): Result<Plan> {
    if p.Filter? && p.child.NestedLoopJoin? && IsPredicateTrue(p.child.pred) then
      var pred :- RewriteForJoin(p.pred, |p.child.left.schema|, |p.child.right.schema|);
      Success(NestedLoopJoin(p.schema, p.child.join, pred, p.child.left, p.child.right))
    else
      Success(p)
  }

  function IndexJoinOn(catalog: Catalog, p: Plan, key: Expr, col: nat): Plan
    requires p.NestedLoopJoin? && p.right.SeqScan? && key.Column?
  {
    match MatchIndex(catalog(p.right.table).indexes, col)
    case Some(oid) =>
      NestedIndexJoin(p.schema, p.join, Column(0, key.col, key.ty), oid, p.right.table, p.right.schema, p.left)
    case None => p
  }

  function NLJAsIndexJoinAt(catalog: Catalog, p: Plan): Plan {
    if p.NestedLoopJoin? && p.pred.Comp? && p.pred.comp == Equal && p.pred.left.Column? && p.pred.right.Column?
       && p.right.SeqScan? then
      var a, b := p.pred.left, p.pred.right;
      if a.tuple == 0 && b.tuple == 1 then IndexJoinOn(catalog, p, a, b.col)
      else if a.tuple == 1 && b.tuple == 0 then IndexJoinOn(catalog, p, b, a.col)
      else p
    else
      p
  }

  /** The column an ORDER BY names when it is one ascending column. */
  function SortColumn(keys: seq<SortKey>): Option<nat> {
    if |keys| == 1 && (keys[0].order == ASC || keys[0].order == DEFAULT) && keys[0].expr.Column?
    then Some(keys[0].expr.col)
    else None
  }

  /** The node is built without a key and without the name of its table. */
  function OrderByAsIndexScanAt(catalog: Catalog, p: Plan): Plan {
    if p.Sort? && SortColumn(p.orderBy).Some? && p.child.SeqScan? then
      match MatchName(catalog(p.child.table), SortColumn(p.orderBy).value)
      case Some(oid) => IndexScan(p.schema, oid, "", Null(INVALID))
      case None => p
    else
      p
  }

  /** The sort node stays below: the TopN node takes its order and its rows from it. */
  function SortLimitAsTopNAt(p: Plan): Plan {
    if p.Limit? && p.child.Sort? then TopN(p.schema, p.child.orderBy, p.n, p.child) else p
  }

  function FilterAsIndexScanAt(catalog: Catalog, p: Plan): Plan {
    if p.Filter? && p.child.SeqScan? && p.pred.Comp? && p.pred.comp == Equal && p.pred.left.Column?
       && p.pred.right.Const? then
      match MatchIndex(catalog(p.child.table).indexes, p.pred.left.col)
      case Some(oid) => IndexScan(p.schema, oid, p.child.table, p.pred.right.val)
      case None => p
    else
      p
  }

  function MergeFilterScanAt(p: Plan): Plan {
    if p.Filter? && p.child.SeqScan? && p.child.filter.None?
    then SeqScan(p.schema, p.child.table, Some(p.pred))
    else p
  }

  function ApplyRule(rule: Rule, catalog: Catalog, p: Plan): Result<Plan> {
    match rule
    case MergeProjection => Success(MergeProjectionAt(p))
    case MergeFilterNLJ => MergeFilterNLJAt(p)
    case NLJAsIndexJoin => Success(NLJAsIndexJoinAt(catalog, p))
    case OrderByAsIndexScan => Success(OrderByAsIndexScanAt(catalog, p))
    case SortLimitAsTopN => Success(SortLimitAsTopNAt(p))
    case FilterAsIndexScan => Success(FilterAsIndexScanAt(catalog, p))
    case MergeFilterScan => Success(MergeFilterScanAt(p))
  }

  /** One pass: optimize the children, rebuild the node over them, then try the rule at the root. */
  function Pass(rule: Rule, catalog: Catalog, p: Plan): Result<Plan> {
    var cs := Children(p);
    if |cs| == 0 then ApplyRule(rule, catalog, p)
    else if |cs| == 1 then
      var c :- Pass(rule, catalog, cs[0]);
      ApplyRule(rule, catalog, CloneWithChildren(p, [c]))
    else
      var l :- Pass(rule, catalog, cs[0]);
      var r :- Pass(rule, catalog, cs[1]);
      ApplyRule(rule, catalog, CloneWithChildren(p, [l, r]))
  }

  function RunPasses(rules: seq<Rule>, catalog: Catalog, p: Plan): Result<Plan> {
    if rules == [] then Success(p)
    else
      var q :- Pass(rules[0], catalog, p);
      RunPasses(rules[1..], catalog, q)
  }

  const STARTER_PASSES: seq<Rule> :=
    [MergeProjection, MergeFilterNLJ, NLJAsIndexJoin, OrderByAsIndexScan, SortLimitAsTopN, MergeFilterScan]

  const CUSTOM_PASSES: seq<Rule> :=
    [MergeProjection, MergeFilterNLJ, NLJAsIndexJoin, OrderByAsIndexScan, SortLimitAsTopN, FilterAsIndexScan,
     MergeFilterScan]

  function Optimize(forceStarterRule: bool, catalog: Catalog, p: Plan): Result<Plan> {
    RunPasses(if forceStarterRule then STARTER_PASSES else CUSTOM_PASSES, catalog, p)
  }
}
