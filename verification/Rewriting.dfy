/** The rewrite passes keep the meaning of a plan. */
module Rewriting {
  import opened Collections
  import opened Expressions
  import opened Ordering
  import opened Plans
  import opened Joins
  import opened Optimizer

  // ---- the plans the passes are right for

  ghost predicate WidthIs(rows: seq<Row>, n: nat) {
    forall r :: r in rows ==> |r| == n
  }

  /** The predicate is never NULL on a row the child can give. */
  ghost predicate DefiniteOn(db: Database, e: Expr, c: Plan) {
    forall rows, r :: Yields(db, c, rows) && r in rows ==> Definite(Evaluate(e, r))
  }

  ghost predicate DefiniteAt(e: Expr, rows: seq<Row>) {
    forall r :: r in rows ==> Definite(Evaluate(e, r))
  }

  ghost predicate DefiniteOnPairs(db: Database, e: Expr, l: Plan, r: Plan) {
    forall lefts, rights :: Yields(db, l, lefts) && Yields(db, r, rights) ==> DefiniteOnRows(e, lefts, rights)
  }

  // Conditions on the schemas

  /** The schema of the node describes the rows below it. */
  ghost predicate NodeShaped(db: Database, p: Plan) {
    match p
    case SeqScan(s, t, _) => t != "" && WidthIs(db.rows(t), |s|)
    case IndexScan(s, ix, _, key) => WidthIs(db.lookup(ix, key), |s|)
    case Filter(s, e, c) => Types(s) == Types(c.schema) && Within(e, |s|)
    case Projection(s, es, c) => |s| == |es|
    case NestedLoopJoin(s, _, _, l, r) => Types(s) == Types(l.schema) + Types(r.schema)
    case NestedIndexJoin(s, _, _, ix, _, inner, l) =>
      Types(s) == Types(l.schema) + Types(inner) && forall k :: WidthIs(db.lookup(ix, k), |inner|)
    case Sort(s, _, c) => Types(s) == Types(c.schema)
    case Limit(s, _, c) => Types(s) == Types(c.schema)
    case TopN(s, _, _, c) => Types(s) == Types(c.schema)
    case Leaf(s, op) => forall rows :: db.leaf(op, rows) ==> WidthIs(rows, |s|)
    case Unary(s, op, _) => forall from, rows :: db.unary(op, from, rows) ==> WidthIs(rows, |s|)
  }

  ghost predicate Shaped(db: Database, p: Plan) {
    NodeShaped(db, p) && forall i :: 0 <= i < |Children(p)| ==> Shaped(db, Children(p)[i])
  }

  // Conditions on the predicates, only where a rule can move or replace them

  /** A filter over the plan may come to lie over a bare scan or over a join. */
  predicate MayMerge(c: Plan) {
    match c
    case SeqScan(_, _, filter) => filter.None?
    case NestedLoopJoin(_, _, _, _, _) => true
    case Projection(_, _, child) => MayMerge(child)
    case Filter(_, _, child) => MayMerge(child)
    case _ => false
  }

  /** The right side of a join may come to be a bare scan. */
  predicate MayScan(c: Plan) {
    match c
    case SeqScan(_, _, filter) => filter.None?
    case Projection(_, _, child) => MayScan(child)
    case _ => false
  }

  /** A join that a filter may come to lie over is an inner join if its own predicate is constant true. */
  predicate InnerIfTrue(c: Plan) {
    match c
    case NestedLoopJoin(_, join, e, _, _) => IsPredicateTrue(e) ==> join == INNER
    case Projection(_, _, child) => InnerIfTrue(child)
    case Filter(_, _, child) => InnerIfTrue(child)
    case _ => true
  }

  ghost predicate HasIndex(catalog: Catalog, table: string, col: nat) {
    MatchIndex(catalog(table).indexes, col).Some?
  }

  /** The filter asks for the rows of a scan with one key that an index has. */
  ghost predicate IsKeyLookup(catalog: Catalog, e: Expr, c: Plan) {
    c.SeqScan? && e.Comp? && e.comp == Equal && e.left.Column? && e.right.Const?
    && HasIndex(catalog, c.table, e.left.col)
  }

  /** The column of the right child that the join predicate equates with a column of the left child. */
  function JoinColumn(e: Expr): Option<nat> {
    if e.Comp? && e.comp == Equal && e.left.Column? && e.right.Column? then
      if e.left.tuple == 0 && e.right.tuple == 1 then Some(e.right.col)
      else if e.left.tuple == 1 && e.right.tuple == 0 then Some(e.left.col)
      else None
    else None
  }

  /**
   * A filter that may move is never NULL, except, with `lookups`, one whose key an index will look up;
   * an equality join that may become an index join never compares with NULL.
   */
  ghost predicate NodeDecided(db: Database, p: Plan, lookups: bool) {
    match p
    case Filter(_, e, c) =>
      InnerIfTrue(c)
      && (MayMerge(c) && !(lookups && IsKeyLookup(db.catalog, e, c) && !e.right.val.Null?) ==> DefiniteOn(db, e, c))
    case NestedLoopJoin(_, _, e, l, r) => JoinColumn(e).Some? && MayScan(r) ==> DefiniteOnPairs(db, e, l, r)
    case _ => true
  }

  ghost predicate Decided(db: Database, p: Plan, lookups: bool) {
    NodeDecided(db, p, lookups) && forall i :: 0 <= i < |Children(p)| ==> Decided(db, Children(p)[i], lookups)
  }

  /** In the places the conditions look at, q shows no more than p. */
  predicate ShowsNoMore(q: Plan, p: Plan) {
    (MayMerge(q) ==> MayMerge(p)) && (MayScan(q) ==> MayScan(p)) && (InnerIfTrue(p) ==> InnerIfTrue(q))
    && (p.SeqScan? ==> q.SeqScan? && q.table == p.table)
  }

  /** No scan carries a predicate yet, as in every plan the planner builds. */
  predicate BareScans(p: Plan) {
    (p.SeqScan? ==> p.filter.None?) && forall i :: 0 <= i < |Children(p)| ==> BareScans(Children(p)[i])
  }

  /** Every single-column index in the catalog answers for its table. */
  ghost predicate FaithfulIndexes(db: Database) {
    forall t, i :: 0 <= i < |db.catalog(t).indexes| && |db.catalog(t).indexes[i].keyAttrs| == 1 ==>
      var ix := db.catalog(t).indexes[i];
      Faithful(Lookup(db, ix.oid), db.rows(t), ix.keyAttrs[0])
  }

  // ---- rows have the width their schema says

  lemma {:induction false} FilteredWithin(p: Expr, rows: seq<Row>, r: Row)
    requires r in Filtered(p, rows)
    ensures r in rows
  {
    if r in Filtered(p, rows[1..]) {
      FilteredWithin(p, rows[1..], r);
    }
  }

  lemma {:induction false} ScannedWithin(p: Expr, rows: seq<Row>, r: Row)
    requires r in Scanned(p, rows)
    ensures r in rows
  {
    if r in Scanned(p, rows[1..]) {
      ScannedWithin(p, rows[1..], r);
    }
  }

  lemma {:induction false} MatchesWidth(p: Expr, l: Row, rights: seq<Row>, n: nat)
    requires WidthIs(rights, n)
    ensures WidthIs(Matches(p, l, rights), |l| + n)
  {
    if rights != [] {
      assert rights[0] in rights;
      assert forall r :: r in rights[1..] ==> r in rights;
      MatchesWidth(p, l, rights[1..], n);
    }
  }

  lemma {:induction false} JoinedWidth(join: JoinType, p: Expr, lefts: seq<Row>, rights: seq<Row>, nulls: Row, m: nat)
    requires WidthIs(lefts, m) && WidthIs(rights, |nulls|)
    ensures WidthIs(Joined(join, p, lefts, rights, nulls), m + |nulls|)
  {
    if lefts != [] {
      assert lefts[0] in lefts;
      assert forall l :: l in lefts[1..] ==> l in lefts;
      MatchesWidth(p, lefts[0], rights, |nulls|);
      JoinedWidth(join, p, lefts[1..], rights, nulls, m);
    }
  }

  lemma {:induction false} IndexJoinedWidth(join: JoinType, key: Expr, lookup: Value -> seq<Row>, lefts: seq<Row>,
                                            nulls: Row, m: nat)
    requires WidthIs(lefts, m) && forall k :: WidthIs(lookup(k), |nulls|)
    ensures WidthIs(IndexJoined(join, key, lookup, lefts, nulls), m + |nulls|)
  {
    if lefts != [] {
      assert lefts[0] in lefts;
      assert forall l :: l in lefts[1..] ==> l in lefts;
      var found := lookup(Evaluate(key, lefts[0]));
      assert WidthIs(Extended(lefts[0], found), m + |nulls|);
      IndexJoinedWidth(join, key, lookup, lefts[1..], nulls, m);
    }
  }

  lemma SameMembers(a: seq<Row>, b: seq<Row>, r: Row)
    requires multiset(a) == multiset(b) && r in a
    ensures r in b
  {
    assert r in multiset(a);
  }

  /** Every output of a regular plan fits its schema. */
  lemma {:induction false} OutputFitsSchema(db: Database, p: Plan, rows: seq<Row>)
    requires Shaped(db, p) && Yields(db, p, rows)
    ensures WidthIs(rows, |p.schema|)
    decreases p
  {
    match p
    case SeqScan(s, t, filter) =>
      if filter.Some? {
        forall r | r in rows
          ensures |r| == |s|
        {
          ScannedWithin(filter.value, db.rows(t), r);
        }
      }
    case IndexScan(_, _, _, _) =>
    case Filter(s, e, c) =>
      var from :| Yields(db, c, from) && rows == Filtered(e, from);
      ChildShaped(db, p, 0);
      OutputFitsSchema(db, c, from);
      SameTypesSameWidth(s, c.schema);
      forall r | r in rows
        ensures |r| == |s|
      {
        FilteredWithin(e, from, r);
      }
    case Projection(_, _, _) =>
    case NestedLoopJoin(s, join, e, l, r) =>
      var lefts, rights :| Yields(db, l, lefts) && Yields(db, r, rights)
                           && rows == Joined(join, e, lefts, rights, NullRow(Types(r.schema)));
      ChildShaped(db, p, 0);
      ChildShaped(db, p, 1);
      OutputFitsSchema(db, l, lefts);
      OutputFitsSchema(db, r, rights);
      JoinedWidth(join, e, lefts, rights, NullRow(Types(r.schema)), |l.schema|);
      assert |Types(s)| == |s|;
    case NestedIndexJoin(s, join, key, ix, _, inner, l) =>
      var lefts :| Yields(db, l, lefts)
                   && rows == IndexJoined(join, key, Lookup(db, ix), lefts, NullRow(Types(inner)));
      ChildShaped(db, p, 0);
      OutputFitsSchema(db, l, lefts);
      IndexJoinedWidth(join, key, Lookup(db, ix), lefts, NullRow(Types(inner)), |l.schema|);
      assert |Types(s)| == |s|;
    case Sort(s, keys, c) =>
      var from :| Yields(db, c, from) && SortsTo(keys, from, rows);
      ChildShaped(db, p, 0);
      OutputFitsSchema(db, c, from);
      SortedWidth(keys, from, rows, |c.schema|);
      SameTypesSameWidth(s, c.schema);
    case Limit(s, n, c) =>
      var from :| Yields(db, c, from) && rows == Prefix(from, n);
      ChildShaped(db, p, 0);
      OutputFitsSchema(db, c, from);
      SameTypesSameWidth(s, c.schema);
    case TopN(s, keys, n, c) =>
      var from :| Yields(db, c, from) && IsTop(keys, n, from, rows);
      ChildShaped(db, p, 0);
      OutputFitsSchema(db, c, from);
      var all :| SortsTo(keys, from, all) && rows == Prefix(all, n);
      SortedWidth(keys, from, all, |c.schema|);
      SameTypesSameWidth(s, c.schema);
    case Leaf(_, _) =>
    case Unary(_, _, _) =>
  }

  lemma ChildShaped(db: Database, p: Plan, i: nat)
    requires Shaped(db, p) && i < |Children(p)|
    ensures Shaped(db, Children(p)[i])
  {
  }

  lemma SameTypesSameWidth(a: Schema, b: Schema)
    requires Types(a) == Types(b)
    ensures |a| == |b|
  {
    assert |Types(a)| == |a| && |Types(b)| == |b|;
  }

  lemma SortedWidth(keys: seq<SortKey>, from: seq<Row>, rows: seq<Row>, n: nat)
    requires SortsTo(keys, from, rows) && WidthIs(from, n)
    ensures WidthIs(rows, n)
  {
    forall r | r in rows
      ensures |r| == n
    {
      SameMembers(rows, from, r);
    }
  }

  // ---- each rule at the root

  lemma SchemaDoesNotMatter(db: Database, p: Plan, s: Schema)
    ensures Equivalent(db, WithSchema(p, s), p)
  {
    forall rows
      ensures Yields(db, WithSchema(p, s), rows) <==> Yields(db, p, rows)
    {
      SameOutputs(db, p, s, rows);
    }
  }

  lemma SameOutputs(db: Database, p: Plan, s: Schema, rows: seq<Row>)
    ensures Yields(db, WithSchema(p, s), rows) <==> Yields(db, p, rows)
  {
    match p
    case SeqScan(_, _, _) =>
    case IndexScan(_, _, _, _) =>
    case Filter(_, _, _) =>
    case Projection(_, _, _) =>
    case NestedLoopJoin(_, _, _, _, _) =>
    case NestedIndexJoin(_, _, _, _, _, _, _) =>
    case Sort(_, _, _) =>
    case Limit(_, _, _) =>
    case TopN(_, _, _, _) =>
    case Leaf(_, _) =>
    case Unary(_, _, _) =>
  }

  lemma WithSchemaShaped(db: Database, p: Plan, s: Schema)
    requires Shaped(db, p) && Types(s) == Types(p.schema)
    ensures Shaped(db, WithSchema(p, s))
    ensures BareScans(p) ==> BareScans(WithSchema(p, s))
  {
    SameTypesSameWidth(s, p.schema);
    var q := WithSchema(p, s);
    assert Children(q) == Children(p);
    assert NodeShaped(db, q);
  }

  lemma IdentityProjection(exprs: seq<Expr>, rows: seq<Row>)
    requires IsIdentity(exprs) && WidthIs(rows, |exprs|)
    ensures Projected(exprs, rows) == rows
  {
    forall i | 0 <= i < |rows|
      ensures ProjectRow(exprs, rows[i]) == rows[i]
    {
      assert rows[i] in rows;
    }
  }

  lemma MergeProjectionKeeps(db: Database, p: Plan)
    requires Shaped(db, p)
    ensures var q := MergeProjectionAt(p);
            Types(q.schema) == Types(p.schema) && Shaped(db, q) && Equivalent(db, q, p)
            && (BareScans(p) ==> BareScans(q))
  {
    var q := MergeProjectionAt(p);
    if q != p {
      ChildShaped(db, p, 0);
      SameTypesSameWidth(p.schema, p.child.schema);
      WithSchemaShaped(db, p.child, p.schema);
      SchemaDoesNotMatter(db, p.child, p.schema);
      forall from | Yields(db, p.child, from)
        ensures Projected(p.exprs, from) == from
      {
        OutputFitsSchema(db, p.child, from);
        IdentityProjection(p.exprs, from);
      }
      assert BareScans(p) ==> BareScans(Children(p)[0]);
    }
  }

  /** On rows of the widths it was rewritten for, the rewritten predicate says what the filter said. */
  lemma RewrittenAgrees(e: Expr, m: nat, n: nat, lefts: seq<Row>, rights: seq<Row>)
    requires Within(e, m + n)
    requires WidthIs(lefts, m) && WidthIs(rights, n)
    ensures RewriteForJoin(e, m, n).Success?
    ensures SamePredicate(e, RewriteForJoin(e, m, n).value, lefts, rights)
  {
    RewriteSucceedsIff(e, m, n);
    forall x, y | x in lefts && y in rights
      ensures EvaluateJoin(RewriteForJoin(e, m, n).value, x, y) == Evaluate(e, x + y)
    {
      RewritePreservesValue(e, x, y);
    }
  }

  lemma {:induction false} PairIsJoined(e: Expr, lefts: seq<Row>, rights: seq<Row>, nulls: Row, l: Row, r: Row)
    requires IsPredicateTrue(e) && l in lefts && r in rights
    ensures l + r in Joined(INNER, e, lefts, rights, nulls)
  {
    if l == lefts[0] {
      TrueMatchesAll(e, l, rights);
      var i :| 0 <= i < |rights| && rights[i] == r;
      assert Extended(l, rights)[i] == l + r;
    } else {
      PairIsJoined(e, lefts[1..], rights, nulls, l, r);
    }
  }

  /** The merged join gives, on the same inputs, what the filter over the join gave. */
  lemma MergeSameRows(db: Database, p: Plan, lefts: seq<Row>, rights: seq<Row>)
    requires p.Filter? && p.child.NestedLoopJoin? && IsPredicateTrue(p.child.pred) && DefiniteOn(db, p.pred, p.child)
    requires p.child.join == INNER && Within(p.pred, |p.child.left.schema| + |p.child.right.schema|)
    requires WidthIs(lefts, |p.child.left.schema|) && WidthIs(rights, |p.child.right.schema|)
    requires Yields(db, p.child.left, lefts) && Yields(db, p.child.right, rights)
    ensures RewriteForJoin(p.pred, |p.child.left.schema|, |p.child.right.schema|).Success?
    ensures var q := RewriteForJoin(p.pred, |p.child.left.schema|, |p.child.right.schema|).value;
            var nulls := NullRow(Types(p.child.right.schema));
            Filtered(p.pred, Joined(INNER, p.child.pred, lefts, rights, nulls))
            == Joined(INNER, q, lefts, rights, nulls)
            && DefiniteOnRows(q, lefts, rights)
  {
    FilterDefiniteOnJoin(db, p, lefts, rights);
    MergeRowsOfWidths(p.child.pred, p.pred, |p.child.left.schema|, |p.child.right.schema|, lefts, rights,
      NullRow(Types(p.child.right.schema)));
  }

  lemma BothFit(db: Database, l: Plan, r: Plan, lefts: seq<Row>, rights: seq<Row>)
    requires Shaped(db, l) && Shaped(db, r) && Yields(db, l, lefts) && Yields(db, r, rights)
    ensures WidthIs(lefts, |l.schema|) && WidthIs(rights, |r.schema|)
  {
    OutputFitsSchema(db, l, lefts);
    OutputFitsSchema(db, r, rights);
  }

  lemma MergeRowsOfWidths(e: Expr, p: Expr, m: nat, n: nat, lefts: seq<Row>, rights: seq<Row>, nulls: Row)
    requires IsPredicateTrue(e) && Within(p, m + n) && WidthIs(lefts, m) && WidthIs(rights, n)
    requires DefiniteAt(p, Joined(INNER, e, lefts, rights, nulls))
    ensures RewriteForJoin(p, m, n).Success?
    ensures var q := RewriteForJoin(p, m, n).value;
            Filtered(p, Joined(INNER, e, lefts, rights, nulls)) == Joined(INNER, q, lefts, rights, nulls)
            && DefiniteOnRows(q, lefts, rights)
  {
    RewrittenAgrees(p, m, n, lefts, rights);
    MergeRows(e, p, RewriteForJoin(p, m, n).value, lefts, rights, nulls);
  }

  lemma FilterDefiniteOnJoin(db: Database, p: Plan, lefts: seq<Row>, rights: seq<Row>)
    requires p.Filter? && p.child.NestedLoopJoin? && p.child.join == INNER && DefiniteOn(db, p.pred, p.child)
    requires Yields(db, p.child.left, lefts) && Yields(db, p.child.right, rights)
    ensures DefiniteAt(p.pred, Joined(INNER, p.child.pred, lefts, rights, NullRow(Types(p.child.right.schema))))
  {
    assert Yields(db, p.child, Joined(INNER, p.child.pred, lefts, rights, NullRow(Types(p.child.right.schema))));
  }

  lemma MergeRows(e: Expr, p: Expr, q: Expr, lefts: seq<Row>, rights: seq<Row>, nulls: Row)
    requires IsPredicateTrue(e) && SamePredicate(p, q, lefts, rights)
    requires DefiniteAt(p, Joined(INNER, e, lefts, rights, nulls))
    ensures Filtered(p, Joined(INNER, e, lefts, rights, nulls)) == Joined(INNER, q, lefts, rights, nulls)
    ensures DefiniteOnRows(q, lefts, rights)
  {
    forall l, r | l in lefts && r in rights
      ensures Definite(Evaluate(p, l + r))
    {
      PairIsJoined(e, lefts, rights, nulls, l, r);
    }
    MergeKeepsRowsIff(INNER, e, p, q, lefts, rights, nulls);
  }

  lemma JoinParts(db: Database, p: Plan)
    requires Shaped(db, p) && p.Filter? && p.child.NestedLoopJoin?
    ensures Shaped(db, p.child) && Shaped(db, p.child.left) && Shaped(db, p.child.right)
    ensures Within(p.pred, |p.child.left.schema| + |p.child.right.schema|)
    ensures BareScans(p) ==> BareScans(p.child.left) && BareScans(p.child.right)
  {
    ChildShaped(db, p, 0);
    ChildShaped(db, p.child, 0);
    ChildShaped(db, p.child, 1);
    SameTypesSameWidth(p.schema, p.child.schema);
    assert |Types(p.child.schema)| == |p.child.schema|;
    assert |Types(p.child.left.schema)| == |p.child.left.schema|;
    assert |Types(p.child.right.schema)| == |p.child.right.schema|;
    assert |p.schema| == |p.child.left.schema| + |p.child.right.schema|;
    if BareScans(p) {
      assert BareScans(Children(p)[0]);
      assert BareScans(Children(p.child)[0]) && BareScans(Children(p.child)[1]);
    }
  }

  /** Right for an inner join under a filter that is never NULL; the new join predicate is then never NULL. */
  lemma MergeFilterNLJKeeps(db: Database, p: Plan)
    requires Shaped(db, p)
    requires p.Filter? && p.child.NestedLoopJoin? && IsPredicateTrue(p.child.pred) ==>
               p.child.join == INNER && DefiniteOn(db, p.pred, p.child)
    ensures MergeFilterNLJAt(p).Success?
    ensures var q := MergeFilterNLJAt(p).value;
            Types(q.schema) == Types(p.schema) && Shaped(db, q) && Equivalent(db, q, p)
            && (BareScans(p) ==> BareScans(q))
            && (q != p ==> q.NestedLoopJoin? && DefiniteOnPairs(db, q.pred, q.left, q.right))
  {
    if p.Filter? && p.child.NestedLoopJoin? && IsPredicateTrue(p.child.pred) {
      var join := p.child;
      JoinParts(db, p);
      RewriteSucceedsIff(p.pred, |join.left.schema|, |join.right.schema|);
      var q := MergeFilterNLJAt(p).value;
      forall lefts, rights | Yields(db, join.left, lefts) && Yields(db, join.right, rights)
        ensures Filtered(p.pred, Joined(INNER, join.pred, lefts, rights, NullRow(Types(join.right.schema))))
             == Joined(INNER, q.pred, lefts, rights, NullRow(Types(join.right.schema)))
        ensures DefiniteOnRows(q.pred, lefts, rights)
      {
        BothFit(db, join.left, join.right, lefts, rights);
        MergeSameRows(db, p, lefts, rights);
      }
      assert Children(q) == [join.left, join.right];
      MergedJoinEquivalent(db, p, q);
    }
  }

  lemma MergedJoinEquivalent(db: Database, p: Plan, q: Plan)
    requires p.Filter? && p.child.NestedLoopJoin? && q.NestedLoopJoin?
    requires q.left == p.child.left && q.right == p.child.right && q.join == p.child.join
    requires forall lefts, rights :: Yields(db, q.left, lefts) && Yields(db, q.right, rights) ==>
               Filtered(p.pred, Joined(q.join, p.child.pred, lefts, rights, NullRow(Types(q.right.schema))))
               == Joined(q.join, q.pred, lefts, rights, NullRow(Types(q.right.schema)))
    ensures Equivalent(db, q, p)
  {
    forall rows | Yields(db, q, rows)
      ensures Yields(db, p, rows)
    {
      var lefts, rights :| Yields(db, q.left, lefts) && Yields(db, q.right, rights)
                           && rows == Joined(q.join, q.pred, lefts, rights, NullRow(Types(q.right.schema)));
      assert Yields(db, p.child, Joined(q.join, p.child.pred, lefts, rights, NullRow(Types(q.right.schema))));
    }
    forall rows | Yields(db, p, rows)
      ensures Yields(db, q, rows)
    {
      var from :| Yields(db, p.child, from) && rows == Filtered(p.pred, from);
    }
  }

  /** What a matched index says about the table it belongs to. */
  lemma MatchedIndexIsFaithful(db: Database, table: string, col: nat)
    requires FaithfulIndexes(db)
    requires MatchIndex(db.catalog(table).indexes, col).Some?
    ensures Faithful(Lookup(db, MatchIndex(db.catalog(table).indexes, col).value), db.rows(table), col)
  {
    var oid := MatchIndex(db.catalog(table).indexes, col).value;
    var i :| IsFirstMatch(db.catalog(table).indexes, col, i) && db.catalog(table).indexes[i].oid == oid;
  }

  lemma LookupWidth(db: Database, oid: nat, rows: seq<Row>, col: nat, n: nat)
    requires Faithful(Lookup(db, oid), rows, col) && WidthIs(rows, n)
    ensures forall k :: WidthIs(db.lookup(oid, k), n)
  {
    forall k, r | r in db.lookup(oid, k)
      ensures |r| == n
    {
      assert r in Lookup(db, oid)(k);
    }
  }

  lemma IndexJoinKeeps(db: Database, p: Plan, key: Expr, col: nat)
    requires Shaped(db, p) && BareScans(p) && FaithfulIndexes(db)
    requires p.NestedLoopJoin? && p.right.SeqScan? && IsEquiJoin(p.pred, key, col)
    requires DefiniteOnPairs(db, p.pred, p.left, p.right)
    ensures var q := IndexJoinOn(db.catalog, p, key, col);
            Types(q.schema) == Types(p.schema) && Shaped(db, q) && Equivalent(db, q, p) && BareScans(q)
  {
    if MatchIndex(db.catalog(p.right.table).indexes, col).Some? {
      var q := IndexJoinOn(db.catalog, p, key, col);
      var rights := db.rows(p.right.table);
      assert BareScans(Children(p)[0]) && BareScans(Children(p)[1]);
      ChildShaped(db, p, 0);
      ChildShaped(db, p, 1);
      MatchedIndexIsFaithful(db, p.right.table, col);
      LookupWidth(db, q.index, rights, col, |p.right.schema|);
      assert Children(q) == [p.left];
      assert NodeShaped(db, q);
      assert Yields(db, p.right, rights);
      forall lefts | Yields(db, p.left, lefts)
        ensures IndexJoined(p.join, q.keyPred, Lookup(db, q.index), lefts, NullRow(Types(p.right.schema)))
             == Joined(p.join, p.pred, lefts, rights, NullRow(Types(p.right.schema)))
      {
        IndexJoinIsNestedLoopJoin(p.join, p.pred, key, col, Lookup(db, q.index), lefts, rights,
          NullRow(Types(p.right.schema)));
      }
    }
  }

  /** Right where no comparison of the join is NULL. */
  lemma NLJAsIndexJoinKeeps(db: Database, p: Plan)
    requires Shaped(db, p) && BareScans(p) && FaithfulIndexes(db)
    requires p.NestedLoopJoin? && p.right.SeqScan? && JoinColumn(p.pred).Some? ==>
               DefiniteOnPairs(db, p.pred, p.left, p.right)
    ensures var q := NLJAsIndexJoinAt(db.catalog, p);
            Types(q.schema) == Types(p.schema) && Shaped(db, q) && Equivalent(db, q, p) && BareScans(q)
  {
    if p.NestedLoopJoin? && p.pred.Comp? && p.pred.comp == Equal && p.pred.left.Column? && p.pred.right.Column?
       && p.right.SeqScan? {
      var a, b := p.pred.left, p.pred.right;
      if a.tuple == 0 && b.tuple == 1 {
        IndexJoinKeeps(db, p, a, b.col);
      } else if a.tuple == 1 && b.tuple == 0 {
        IndexJoinKeeps(db, p, b, a.col);
      }
    }
  }

  /** TopN over a sort gives exactly what limiting that sort can give. */
  lemma SortLimitAsTopNKeeps(db: Database, p: Plan)
    requires Shaped(db, p)
    ensures var q := SortLimitAsTopNAt(p);
            Types(q.schema) == Types(p.schema) && Shaped(db, q) && Equivalent(db, q, p)
            && (BareScans(p) ==> BareScans(q))
  {
    var q := SortLimitAsTopNAt(p);
    if q != p {
      assert Children(q) == Children(p);
      forall rows
        ensures Yields(db, q, rows) <==> Yields(db, p, rows)
      {
        TopNOutput(db, p, q, rows);
      }
    }
  }

  lemma TopNOutput(db: Database, p: Plan, q: Plan, rows: seq<Row>)
    requires p.Limit? && p.child.Sort? && q == TopN(p.schema, p.child.orderBy, p.n, p.child)
    ensures Yields(db, q, rows) <==> Yields(db, p, rows)
  {
    if Yields(db, q, rows) {
      var sorted :| Yields(db, p.child, sorted) && IsTop(p.child.orderBy, p.n, sorted, rows);
      var from :| Yields(db, p.child.child, from) && SortsTo(p.child.orderBy, from, sorted);
      var all :| SortsTo(p.child.orderBy, sorted, all) && rows == Prefix(all, p.n);
      assert SortsTo(p.child.orderBy, from, all);
      assert Yields(db, p.child, all);
    }
    if Yields(db, p, rows) {
      var sorted :| Yields(db, p.child, sorted) && rows == Prefix(sorted, p.n);
      var from :| Yields(db, p.child.child, from) && SortsTo(p.child.orderBy, from, sorted);
      assert SortsTo(p.child.orderBy, sorted, sorted);
      assert IsTop(p.child.orderBy, p.n, sorted, rows);
    }
  }

  /** Right for every key that is not NULL; for a NULL key where the filter is NULL on no row. */
  lemma FilterAsIndexScanKeeps(db: Database, p: Plan)
    requires Shaped(db, p) && BareScans(p) && FaithfulIndexes(db)
    requires p.Filter? && IsKeyLookup(db.catalog, p.pred, p.child) && p.pred.right.val.Null? ==>
               DefiniteOn(db, p.pred, p.child)
    ensures var q := FilterAsIndexScanAt(db.catalog, p);
            Types(q.schema) == Types(p.schema) && Shaped(db, q) && Equivalent(db, q, p) && BareScans(q)
  {
    var q := FilterAsIndexScanAt(db.catalog, p);
    if q != p {
      var rows, col := db.rows(p.child.table), p.pred.left.col;
      assert BareScans(Children(p)[0]);
      ChildShaped(db, p, 0);
      SameTypesSameWidth(p.schema, p.child.schema);
      MatchedIndexIsFaithful(db, p.child.table, col);
      LookupWidth(db, q.index, rows, col, |p.schema|);
      assert Yields(db, p.child, rows);
      IndexScanRows(db, p.pred, q.index, rows);
    }
  }

  lemma IndexScanRows(db: Database, e: Expr, oid: nat, rows: seq<Row>)
    requires e.Comp? && e.comp == Equal && e.left.Column? && e.right.Const?
    requires Faithful(Lookup(db, oid), rows, e.left.col)
    requires e.right.val.Null? ==> DefiniteAt(e, rows)
    ensures db.lookup(oid, e.right.val) == Filtered(e, rows)
  {
    var found := Lookup(db, oid)(e.right.val);
    FilterIsLookup(e, rows);
    if found != [] {
      NonemptyWithin(found, rows);
    }
    assert found == db.lookup(oid, e.right.val);
    if rows != [] {
      assert rows[0] in rows;
      if e.right.val.Null? {
        NullKeyIsIndefinite(e, rows[0]);
      }
    }
  }

  lemma NullKeyIsIndefinite(e: Expr, r: Row)
    requires e.Comp? && e.right.Const? && e.right.val.Null?
    ensures !Definite(Evaluate(e, r))
  {
    assert Evaluate(e.right, r) == e.right.val;
  }

  /** Right where the filter is NULL on no row. */
  lemma MergeFilterScanKeeps(db: Database, p: Plan)
    requires Shaped(db, p)
    requires p.Filter? && p.child.SeqScan? && p.child.filter.None? ==> DefiniteOn(db, p.pred, p.child)
    ensures var q := MergeFilterScanAt(p);
            Types(q.schema) == Types(p.schema) && Shaped(db, q) && Equivalent(db, q, p)
  {
    var q := MergeFilterScanAt(p);
    if q != p {
      ChildShaped(db, p, 0);
      SameTypesSameWidth(p.schema, p.child.schema);
      assert Yields(db, p.child, db.rows(p.child.table));
      ScanKeepsRowsIff(p.pred, db.rows(p.child.table));
    }
  }
}
