/** Whole passes and whole runs of the optimizer keep the meaning of a plan (src/optimizer/optimizer.cpp). */
module Passes {
  import opened Collections
  import opened Expressions
  import opened Ordering
  import opened Plans
  import opened Joins
  import opened Optimizer
  import opened Rewriting

  // ---- what a rule leaves for the next pass

  /** What a pass promises about its result `q` for the plan `p`. */
  ghost predicate Keeps(rule: Rule, db: Database, q: Plan, p: Plan, lookups: bool) {
    Types(q.schema) == Types(p.schema) && Shaped(db, q) && Decided(db, q, lookups) && Equivalent(db, q, p)
    && (rule != MergeFilterScan ==> BareScans(q)) && ShowsNoMore(q, p)
  }

  /** What a pass needs: filters may move into scans only when no key lookup is pending. */
  ghost predicate Ready(rule: Rule, db: Database, p: Plan, lookups: bool) {
    Shaped(db, p) && Decided(db, p, lookups) && rule != OrderByAsIndexScan
    && (rule != MergeFilterScan ==> BareScans(p)) && (rule == MergeFilterScan ==> !lookups)
  }

  lemma ChildDecided(db: Database, p: Plan, i: nat, lookups: bool)
    requires Decided(db, p, lookups) && i < |Children(p)|
    ensures Decided(db, Children(p)[i], lookups)
  {
  }

  lemma WithSchemaDecided(db: Database, p: Plan, s: Schema, lookups: bool)
    requires Decided(db, p, lookups)
    ensures Decided(db, WithSchema(p, s), lookups)
    ensures ShowsNoMore(WithSchema(p, s), p)
  {
    var q := WithSchema(p, s);
    assert Children(q) == Children(p);
    assert NodeDecided(db, q, lookups);
  }

  lemma MergedJoinDecided(db: Database, p: Plan, q: Plan, lookups: bool)
    requires Decided(db, p, lookups) && p.Filter? && p.child.NestedLoopJoin? && q.NestedLoopJoin?
    requires q.left == p.child.left && q.right == p.child.right && DefiniteOnPairs(db, q.pred, q.left, q.right)
    requires q.join == INNER
    ensures Decided(db, q, lookups) && ShowsNoMore(q, p)
  {
    assert MayMerge(p) == MayMerge(p.child);
    ChildDecided(db, p, 0, lookups);
    ChildDecided(db, p.child, 0, lookups);
    ChildDecided(db, p.child, 1, lookups);
    assert Children(q) == [q.left, q.right];
  }

  lemma MergeProjectionReady(db: Database, p: Plan, lookups: bool)
    requires Ready(MergeProjection, db, p, lookups)
    ensures Keeps(MergeProjection, db, MergeProjectionAt(p), p, lookups)
  {
    MergeProjectionKeeps(db, p);
    if MergeProjectionAt(p) != p {
      ChildDecided(db, p, 0, lookups);
      WithSchemaDecided(db, p.child, p.schema, lookups);
    }
  }

  lemma MergeFilterNLJReady(db: Database, p: Plan, lookups: bool)
    requires Ready(MergeFilterNLJ, db, p, lookups)
    ensures MergeFilterNLJAt(p).Success? && Keeps(MergeFilterNLJ, db, MergeFilterNLJAt(p).value, p, lookups)
  {
    MergeFilterNLJKeeps(db, p);
    var q := MergeFilterNLJAt(p).value;
    if q != p {
      MergedJoinDecided(db, p, q, lookups);
    }
  }

  lemma NLJAsIndexJoinReady(db: Database, p: Plan, lookups: bool)
    requires FaithfulIndexes(db) && Ready(NLJAsIndexJoin, db, p, lookups)
    ensures Keeps(NLJAsIndexJoin, db, NLJAsIndexJoinAt(db.catalog, p), p, lookups)
  {
    if p.NestedLoopJoin? && p.right.SeqScan? {
      assert BareScans(Children(p)[1]);
    }
    NLJAsIndexJoinKeeps(db, p);
    var q := NLJAsIndexJoinAt(db.catalog, p);
    if q != p {
      ChildDecided(db, p, 0, lookups);
      assert Children(q) == [p.left];
    }
  }

  lemma SortLimitAsTopNReady(db: Database, p: Plan, lookups: bool)
    requires Ready(SortLimitAsTopN, db, p, lookups)
    ensures Keeps(SortLimitAsTopN, db, SortLimitAsTopNAt(p), p, lookups)
  {
    SortLimitAsTopNKeeps(db, p);
    var q := SortLimitAsTopNAt(p);
    if q != p {
      ChildDecided(db, p, 0, lookups);
      assert Children(q) == [p.child];
    }
  }

  lemma FilterAsIndexScanReady(db: Database, p: Plan, lookups: bool)
    requires FaithfulIndexes(db) && Ready(FilterAsIndexScan, db, p, lookups)
    ensures Keeps(FilterAsIndexScan, db, FilterAsIndexScanAt(db.catalog, p), p, lookups)
  {
    if p.Filter? && p.child.SeqScan? {
      assert BareScans(Children(p)[0]);
    }
    FilterAsIndexScanKeeps(db, p);
  }

  lemma MergeFilterScanReady(db: Database, p: Plan)
    requires Ready(MergeFilterScan, db, p, false)
    ensures Keeps(MergeFilterScan, db, MergeFilterScanAt(p), p, false)
  {
    MergeFilterScanKeeps(db, p);
  }

  lemma RuleKeeps(rule: Rule, db: Database, p: Plan, lookups: bool)
    requires FaithfulIndexes(db) && Ready(rule, db, p, lookups)
    ensures ApplyRule(rule, db.catalog, p).Success?
    ensures Keeps(rule, db, ApplyRule(rule, db.catalog, p).value, p, lookups)
  {
    match rule
    case MergeProjection => MergeProjectionReady(db, p, lookups);
    case MergeFilterNLJ => MergeFilterNLJReady(db, p, lookups);
    case NLJAsIndexJoin => NLJAsIndexJoinReady(db, p, lookups);
    case SortLimitAsTopN => SortLimitAsTopNReady(db, p, lookups);
    case FilterAsIndexScan => FilterAsIndexScanReady(db, p, lookups);
    case MergeFilterScan => MergeFilterScanReady(db, p);
  }

  // ---- one pass

  lemma RefinesTransitive(db: Database, a: Plan, b: Plan, c: Plan)
    requires Refines(db, a, b) && Refines(db, b, c)
    ensures Refines(db, a, c)
  {
    forall rows | Yields(db, a, rows)
      ensures Yields(db, c, rows)
    {
      assert Yields(db, b, rows);
    }
  }

  lemma EquivalentTransitive(db: Database, a: Plan, b: Plan, c: Plan)
    requires Equivalent(db, a, b) && Equivalent(db, b, c)
    ensures Equivalent(db, a, c)
  {
    RefinesTransitive(db, a, b, c);
    RefinesTransitive(db, c, b, a);
  }

  lemma KeepsTransitive(rule: Rule, db: Database, a: Plan, b: Plan, c: Plan, lookups: bool)
    requires Keeps(rule, db, a, b, lookups) && Keeps(rule, db, b, c, lookups)
    ensures Keeps(rule, db, a, c, lookups)
  {
    EquivalentTransitive(db, a, b, c);
    ShowsTransitive(a, b, c);
  }

  lemma ShowsTransitive(a: Plan, b: Plan, c: Plan)
    requires ShowsNoMore(a, b) && ShowsNoMore(b, c)
    ensures ShowsNoMore(a, c)
  {
  }

  /** Replacing the only child by an equivalent one keeps the outputs of the node. */
  lemma RebuildEquivalent(db: Database, p: Plan, c: Plan)
    requires |Children(p)| == 1 && Equivalent(db, c, Children(p)[0])
    ensures Equivalent(db, CloneWithChildren(p, [c]), p)
  {
    var q := CloneWithChildren(p, [c]);
    UnaryMonotone(db, p, c);
    assert Children(q) == [c] && CloneWithChildren(q, [Children(p)[0]]) == p;
    UnaryMonotone(db, q, Children(p)[0]);
  }

  lemma RebuildNode(db: Database, p: Plan, c: Plan, lookups: bool)
    requires |Children(p)| == 1 && NodeShaped(db, p) && NodeDecided(db, p, lookups)
    requires Refines(db, c, Children(p)[0]) && Types(c.schema) == Types(Children(p)[0].schema)
    requires ShowsNoMore(c, Children(p)[0])
    ensures NodeShaped(db, CloneWithChildren(p, [c])) && NodeDecided(db, CloneWithChildren(p, [c]), lookups)
    ensures ShowsNoMore(CloneWithChildren(p, [c]), p)
  {
    if p.Filter? && DefiniteOn(db, p.pred, p.child) {
      DefiniteOnRefined(db, p.pred, c, p.child);
    }
  }

  lemma DefiniteOnRefined(db: Database, e: Expr, c: Plan, c': Plan)
    requires Refines(db, c, c') && DefiniteOn(db, e, c')
    ensures DefiniteOn(db, e, c)
  {
    forall rows, r | Yields(db, c, rows) && r in rows
      ensures Definite(Evaluate(e, r))
    {
      assert Yields(db, c', rows);
    }
  }

  /** Rebuilding a node over a child a pass has kept keeps the node. */
  lemma RebuildUnary(rule: Rule, db: Database, p: Plan, c: Plan, lookups: bool)
    requires Ready(rule, db, p, lookups) && |Children(p)| == 1 && Keeps(rule, db, c, Children(p)[0], lookups)
    ensures Keeps(rule, db, CloneWithChildren(p, [c]), p, lookups)
  {
    var q := CloneWithChildren(p, [c]);
    assert Children(q) == [c];
    RebuildEquivalent(db, p, c);
    RebuildNode(db, p, c, lookups);
  }

  lemma JoinEquivalent(db: Database, p: Plan, l: Plan, r: Plan)
    requires p.NestedLoopJoin? && Equivalent(db, l, p.left) && Equivalent(db, r, p.right)
    requires Types(r.schema) == Types(p.right.schema)
    ensures Equivalent(db, CloneWithChildren(p, [l, r]), p)
  {
    var q := CloneWithChildren(p, [l, r]);
    JoinMonotone(db, p, l, r);
    assert CloneWithChildren(q, [p.left, p.right]) == p;
    JoinMonotone(db, q, p.left, p.right);
  }

  lemma JoinNodeDecided(db: Database, p: Plan, l: Plan, r: Plan, lookups: bool)
    requires p.NestedLoopJoin? && NodeDecided(db, p, lookups)
    requires Refines(db, l, p.left) && Refines(db, r, p.right) && ShowsNoMore(r, p.right)
    ensures NodeDecided(db, CloneWithChildren(p, [l, r]), lookups)
  {
    if JoinColumn(p.pred).Some? && MayScan(r) {
      forall lefts, rights | Yields(db, l, lefts) && Yields(db, r, rights)
        ensures DefiniteOnRows(p.pred, lefts, rights)
      {
        assert Yields(db, p.left, lefts) && Yields(db, p.right, rights);
      }
    }
  }

  lemma RebuildJoin(rule: Rule, db: Database, p: Plan, l: Plan, r: Plan, lookups: bool)
    requires Ready(rule, db, p, lookups) && p.NestedLoopJoin?
    requires Keeps(rule, db, l, p.left, lookups) && Keeps(rule, db, r, p.right, lookups)
    ensures Keeps(rule, db, CloneWithChildren(p, [l, r]), p, lookups)
  {
    var q := CloneWithChildren(p, [l, r]);
    assert Children(q) == [l, r];
    JoinEquivalent(db, p, l, r);
    JoinNodeDecided(db, p, l, r, lookups);
  }

  lemma RuleAfterRebuild(rule: Rule, db: Database, q: Plan, p: Plan, lookups: bool)
    requires FaithfulIndexes(db) && Ready(rule, db, p, lookups) && Keeps(rule, db, q, p, lookups)
    ensures ApplyRule(rule, db.catalog, q).Success?
    ensures Keeps(rule, db, ApplyRule(rule, db.catalog, q).value, p, lookups)
  {
    RuleKeeps(rule, db, q, lookups);
    KeepsTransitive(rule, db, ApplyRule(rule, db.catalog, q).value, q, p, lookups);
  }

  lemma ChildReady(rule: Rule, db: Database, p: Plan, i: nat, lookups: bool)
    requires Ready(rule, db, p, lookups) && i < |Children(p)|
    ensures Ready(rule, db, Children(p)[i], lookups)
  {
  }

  /** One pass over a plan of any size never fails, keeps its outputs and leaves the next pass its conditions. */
  lemma {:induction false} PassKeeps(rule: Rule, db: Database, p: Plan, lookups: bool)
    requires FaithfulIndexes(db) && Ready(rule, db, p, lookups)
    ensures Pass(rule, db.catalog, p).Success?
    ensures Keeps(rule, db, Pass(rule, db.catalog, p).value, p, lookups)
    decreases p
  {
    var cs := Children(p);
    if |cs| == 0 {
      RuleKeeps(rule, db, p, lookups);
    } else if |cs| == 1 {
      ChildReady(rule, db, p, 0, lookups);
      PassKeeps(rule, db, cs[0], lookups);
      UnaryPass(rule, db, p, Pass(rule, db.catalog, cs[0]).value, lookups);
    } else {
      ChildReady(rule, db, p, 0, lookups);
      ChildReady(rule, db, p, 1, lookups);
      PassKeeps(rule, db, cs[0], lookups);
      PassKeeps(rule, db, cs[1], lookups);
      JoinPass(rule, db, p, Pass(rule, db.catalog, cs[0]).value, Pass(rule, db.catalog, cs[1]).value, lookups);
    }
  }

  lemma UnaryPass(rule: Rule, db: Database, p: Plan, c: Plan, lookups: bool)
    requires FaithfulIndexes(db) && Ready(rule, db, p, lookups) && |Children(p)| == 1
    requires Keeps(rule, db, c, Children(p)[0], lookups)
    ensures var r := ApplyRule(rule, db.catalog, CloneWithChildren(p, [c]));
            r.Success? && Keeps(rule, db, r.value, p, lookups)
  {
    RebuildUnary(rule, db, p, c, lookups);
    RuleAfterRebuild(rule, db, CloneWithChildren(p, [c]), p, lookups);
  }

  lemma JoinPass(rule: Rule, db: Database, p: Plan, l: Plan, r: Plan, lookups: bool)
    requires FaithfulIndexes(db) && Ready(rule, db, p, lookups) && |Children(p)| == 2
    requires Keeps(rule, db, l, Children(p)[0], lookups) && Keeps(rule, db, r, Children(p)[1], lookups)
    ensures var q := ApplyRule(rule, db.catalog, CloneWithChildren(p, [l, r]));
            q.Success? && Keeps(rule, db, q.value, p, lookups)
  {
    RebuildJoin(rule, db, p, l, r, lookups);
    RuleAfterRebuild(rule, db, CloneWithChildren(p, [l, r]), p, lookups);
  }

  // ---- what a pass leaves over

  /** What each rule is there to remove from a plan. */
  ghost predicate Redex(rule: Rule, catalog: Catalog, p: Plan) {
    match rule
    case MergeProjection => p.Projection? && Types(p.child.schema) == Types(p.schema) && IsIdentity(p.exprs)
    case MergeFilterNLJ => p.Filter? && p.child.NestedLoopJoin? && IsPredicateTrue(p.child.pred)
    case NLJAsIndexJoin =>
      p.NestedLoopJoin? && p.right.SeqScan? && JoinColumn(p.pred).Some?
      && HasIndex(catalog, p.right.table, JoinColumn(p.pred).value)
    case OrderByAsIndexScan =>
      p.Sort? && p.child.SeqScan? && SortColumn(p.orderBy).Some?
      && MatchName(catalog(p.child.table), SortColumn(p.orderBy).value).Some?
    case SortLimitAsTopN => p.Limit? && p.child.Sort?
    case FilterAsIndexScan => p.Filter? && IsKeyLookup(catalog, p.pred, p.child)
    case MergeFilterScan => p.Filter? && p.child.SeqScan? && p.child.filter.None?
  }

  ghost predicate Normal(rule: Rule, catalog: Catalog, p: Plan) {
    !Redex(rule, catalog, p) && forall i :: 0 <= i < |Children(p)| ==> Normal(rule, catalog, Children(p)[i])
  }

  lemma WithSchemaNormal(catalog: Catalog, p: Plan, s: Schema)
    requires Normal(MergeProjection, catalog, p) && Types(s) == Types(p.schema)
    ensures Normal(MergeProjection, catalog, WithSchema(p, s))
  {
    assert Children(WithSchema(p, s)) == Children(p);
  }

  /** A rule that is tried where only the root can be rewritten leaves nothing to rewrite. */
  lemma RuleIsNormal(rule: Rule, catalog: Catalog, p: Plan)
    requires forall i :: 0 <= i < |Children(p)| ==> Normal(rule, catalog, Children(p)[i])
    requires ApplyRule(rule, catalog, p).Success?
    ensures Normal(rule, catalog, ApplyRule(rule, catalog, p).value)
  {
    var q := ApplyRule(rule, catalog, p).value;
    match rule
    case MergeProjection =>
      if q != p {
        assert Normal(rule, catalog, Children(p)[0]);
        WithSchemaNormal(catalog, p.child, p.schema);
      }
    case MergeFilterNLJ =>
      if q != p {
        assert Normal(rule, catalog, Children(p)[0]);
        assert Children(q) == Children(p.child);
      }
    case NLJAsIndexJoin =>
      if q != p {
        assert Normal(rule, catalog, Children(p)[0]);
        assert Children(q) == [p.left];
      }
    case OrderByAsIndexScan =>
    case SortLimitAsTopN => assert Children(q) == Children(p);
    case FilterAsIndexScan =>
    case MergeFilterScan =>
  }

  /** One pass removes everything its rule can remove, at every depth. */
  lemma {:induction false} PassIsNormal(rule: Rule, catalog: Catalog, p: Plan)
    requires Pass(rule, catalog, p).Success?
    ensures Normal(rule, catalog, Pass(rule, catalog, p).value)
    decreases p
  {
    var cs := Children(p);
    if |cs| == 0 {
      RuleIsNormal(rule, catalog, p);
    } else if |cs| == 1 {
      PassIsNormal(rule, catalog, cs[0]);
      var q := CloneWithChildren(p, [Pass(rule, catalog, cs[0]).value]);
      assert Children(q) == [Pass(rule, catalog, cs[0]).value];
      RuleIsNormal(rule, catalog, q);
    } else {
      PassIsNormal(rule, catalog, cs[0]);
      PassIsNormal(rule, catalog, cs[1]);
      var l, r := Pass(rule, catalog, cs[0]).value, Pass(rule, catalog, cs[1]).value;
      assert Children(CloneWithChildren(p, [l, r])) == [l, r];
      RuleIsNormal(rule, catalog, CloneWithChildren(p, [l, r]));
    }
  }

  // ---- the pass that turns an ORDER BY into an index scan

  lemma CloneSame(p: Plan)
    ensures CloneWithChildren(p, Children(p)) == p
  {
  }

  /** Where it finds nothing to rewrite the pass gives the plan back. */
  lemma {:induction false} OrderByPassIsIdentity(catalog: Catalog, p: Plan)
    requires Normal(OrderByAsIndexScan, catalog, p)
    ensures Pass(OrderByAsIndexScan, catalog, p) == Success(p)
    decreases p
  {
    var cs := Children(p);
    CloneSame(p);
    if |cs| == 1 {
      OrderByPassIsIdentity(catalog, cs[0]);
      assert [cs[0]] == cs;
    } else if |cs| == 2 {
      OrderByPassIsIdentity(catalog, cs[0]);
      OrderByPassIsIdentity(catalog, cs[1]);
      assert [cs[0], cs[1]] == cs;
    }
  }

  ghost predicate HasOutput(db: Database, p: Plan) {
    exists rows :: Yields(db, p, rows)
  }

  lemma OutputBelow(db: Database, p: Plan, i: nat)
    requires HasOutput(db, p) && i < |Children(p)|
    ensures HasOutput(db, Children(p)[i])
  {
    var rows :| Yields(db, p, rows);
    match p
    case Filter(_, e, c) => var from :| Yields(db, c, from) && rows == Filtered(e, from);
    case Projection(_, es, c) => var from :| Yields(db, c, from) && rows == Projected(es, from);
    case NestedLoopJoin(_, join, e, l, r) =>
      var lefts, rights :| Yields(db, l, lefts) && Yields(db, r, rights)
                           && rows == Joined(join, e, lefts, rights, NullRow(Types(r.schema)));
    case NestedIndexJoin(_, join, key, ix, _, inner, l) =>
      var lefts :| Yields(db, l, lefts)
                   && rows == IndexJoined(join, key, Lookup(db, ix), lefts, NullRow(Types(inner)));
    case Sort(_, keys, c) => var from :| Yields(db, c, from) && SortsTo(keys, from, rows);
    case Limit(_, n, c) => var from :| Yields(db, c, from) && rows == Prefix(from, n);
    case TopN(_, keys, n, c) => var from :| Yields(db, c, from) && IsTop(keys, n, from, rows);
    case Unary(_, op, c) => var from :| Yields(db, c, from) && db.unary(op, from, rows);
  }

  /** The rules that cannot fail: only the rewriting of a predicate for a join can. */
  lemma {:induction false} PassSucceeds(rule: Rule, catalog: Catalog, p: Plan)
    requires rule != MergeFilterNLJ
    ensures Pass(rule, catalog, p).Success?
    decreases p
  {
    var cs := Children(p);
    if |cs| >= 1 {
      PassSucceeds(rule, catalog, cs[0]);
    }
    if |cs| == 2 {
      PassSucceeds(rule, catalog, cs[1]);
    }
  }

  /** Somewhere in the plan an index scan does not name its table. */
  ghost predicate Broken(p: Plan) {
    (p.IndexScan? && p.table == "") || exists i :: 0 <= i < |Children(p)| && Broken(Children(p)[i])
  }

  lemma {:induction false} BrokenHasNoOutput(db: Database, p: Plan)
    requires Broken(p)
    ensures !HasOutput(db, p)
    decreases p
  {
    if i :| 0 <= i < |Children(p)| && Broken(Children(p)[i]) {
      BrokenHasNoOutput(db, Children(p)[i]);
      if HasOutput(db, p) {
        OutputBelow(db, p, i);
      }
    }
  }

  lemma BrokenAbove(p: Plan, cs: seq<Plan>, i: nat)
    requires |cs| == |Children(p)| && i < |cs| && Broken(cs[i])
    ensures Broken(CloneWithChildren(p, cs))
  {
    assert Children(CloneWithChildren(p, cs)) == cs;
  }

  /** The passes from the ORDER BY pass on. */
  predicate IsLate(rule: Rule) {
    rule in {OrderByAsIndexScan, SortLimitAsTopN, FilterAsIndexScan, MergeFilterScan}
  }

  lemma RuleKeepsBroken(rule: Rule, catalog: Catalog, p: Plan)
    requires IsLate(rule) && Broken(p)
    ensures ApplyRule(rule, catalog, p).Success? && Broken(ApplyRule(rule, catalog, p).value)
  {
    var q := ApplyRule(rule, catalog, p).value;
    if q != p {
      assert Children(p) == [p.child] && !p.child.SeqScan?;
      assert Children(q) == Children(p);
    }
  }

  lemma {:induction false} PassKeepsBroken(rule: Rule, catalog: Catalog, p: Plan)
    requires IsLate(rule) && Broken(p)
    ensures Pass(rule, catalog, p).Success? && Broken(Pass(rule, catalog, p).value)
    decreases p
  {
    PassSucceeds(rule, catalog, p);
    var cs := Children(p);
    if |cs| == 0 {
      RuleKeepsBroken(rule, catalog, p);
    } else {
      var i :| 0 <= i < |cs| && Broken(cs[i]);
      PassKeepsBroken(rule, catalog, cs[i]);
      BrokenPass(rule, catalog, p, i);
    }
  }

  /** A pass whose result for one child is broken gives a broken plan. */
  lemma BrokenPass(rule: Rule, catalog: Catalog, p: Plan, i: nat)
    requires IsLate(rule) && i < |Children(p)| && Pass(rule, catalog, p).Success?
    requires Pass(rule, catalog, Children(p)[i]).Success? && Broken(Pass(rule, catalog, Children(p)[i]).value)
    ensures Broken(Pass(rule, catalog, p).value)
  {
    var cs := Children(p);
    if |cs| == 1 {
      var c := Pass(rule, catalog, cs[0]).value;
      BrokenAbove(p, [c], 0);
      RuleKeepsBroken(rule, catalog, CloneWithChildren(p, [c]));
    } else {
      var l, r := Pass(rule, catalog, cs[0]).value, Pass(rule, catalog, cs[1]).value;
      BrokenAbove(p, [l, r], i);
      RuleKeepsBroken(rule, catalog, CloneWithChildren(p, [l, r]));
    }
  }

  /** One rewritten ORDER BY anywhere breaks the plan. */
  lemma {:induction false} OrderByPassBreaks(catalog: Catalog, p: Plan)
    requires !Normal(OrderByAsIndexScan, catalog, p)
    ensures Pass(OrderByAsIndexScan, catalog, p).Success? && Broken(Pass(OrderByAsIndexScan, catalog, p).value)
    decreases p
  {
    PassSucceeds(OrderByAsIndexScan, catalog, p);
    var cs := Children(p);
    if i :| 0 <= i < |cs| && !Normal(OrderByAsIndexScan, catalog, cs[i]) {
      OrderByPassBreaks(catalog, cs[i]);
      BrokenPass(OrderByAsIndexScan, catalog, p, i);
    } else {
      CloneSame(p);
      OrderByPassIsIdentity(catalog, cs[0]);
      assert [cs[0]] == cs;
    }
  }

  /**
   * The pass keeps a plan that has any output exactly when no ascending one-column ORDER BY lies over
   * a scan of a table with an index named after that column.
   */
  lemma OrderByPassKeepsIff(db: Database, p: Plan)
    requires HasOutput(db, p)
    ensures Pass(OrderByAsIndexScan, db.catalog, p).Success?
    ensures Equivalent(db, Pass(OrderByAsIndexScan, db.catalog, p).value, p)
            <==> Normal(OrderByAsIndexScan, db.catalog, p)
  {
    PassSucceeds(OrderByAsIndexScan, db.catalog, p);
    if Normal(OrderByAsIndexScan, db.catalog, p) {
      OrderByPassIsIdentity(db.catalog, p);
    } else {
      OrderByPassBreaks(db.catalog, p);
      BrokenHasNoOutput(db, Pass(OrderByAsIndexScan, db.catalog, p).value);
      var rows :| Yields(db, p, rows);
      assert !Yields(db, Pass(OrderByAsIndexScan, db.catalog, p).value, rows);
    }
  }

  /** A sorted scan of one row that the pass leaves without output. */
  lemma OrderByPassLosesTheSort(db: Database, s: Schema)
    requires db.rows("t") == [[Int(1)]] && db.catalog("t") == TableInfo(["a"], [Index(0, [0], ["a"])])
    ensures var p := Sort(s, [SortKey(ASC, Column(0, 0, INTEGER))], SeqScan(s, "t", None));
            && Yields(db, p, [[Int(1)]])
            && Pass(OrderByAsIndexScan, db.catalog, p).Success?
            && !HasOutput(db, Pass(OrderByAsIndexScan, db.catalog, p).value)
  {
    var keys := [SortKey(ASC, Column(0, 0, INTEGER))];
    var scan := SeqScan(s, "t", None);
    assert Yields(db, scan, [[Int(1)]]) && SortsTo(keys, [[Int(1)]], [[Int(1)]]);
    var p := Sort(s, keys, scan);
    assert IsNamed(db.catalog("t").indexes, "a", 0);
    assert Redex(OrderByAsIndexScan, db.catalog, p);
    OrderByPassBreaks(db.catalog, p);
    BrokenHasNoOutput(db, Pass(OrderByAsIndexScan, db.catalog, p).value);
  }

  // ---- a condition on the plan that keeps that pass quiet after the others

  function SortColumns(p: Plan): set<nat>
    decreases p
  {
    (if p.Sort? && SortColumn(p.orderBy).Some? then {SortColumn(p.orderBy).value} else {})
    + set i, c | 0 <= i < |Children(p)| && c in SortColumns(Children(p)[i]) :: c
  }

  function ScannedTables(p: Plan): set<string>
    decreases p
  {
    (if p.SeqScan? then {p.table} else {})
    + set i, t | 0 <= i < |Children(p)| && t in ScannedTables(Children(p)[i]) :: t
  }

  /** No scanned table has an index named after a column that is sorted by. */
  ghost predicate SortsUnindexed(catalog: Catalog, p: Plan) {
    forall c, t :: c in SortColumns(p) && t in ScannedTables(p) ==> MatchName(catalog(t), c).None?
  }

  lemma {:induction false} UnindexedIsNormal(catalog: Catalog, p: Plan)
    requires SortsUnindexed(catalog, p)
    ensures Normal(OrderByAsIndexScan, catalog, p)
    decreases p
  {
    forall i | 0 <= i < |Children(p)|
      ensures Normal(OrderByAsIndexScan, catalog, Children(p)[i])
    {
      ChildSources(p, i);
      UnindexedIsNormal(catalog, Children(p)[i]);
    }
    if p.Sort? && p.child.SeqScan? {
      ChildSources(p, 0);
      assert p.child.table in ScannedTables(p.child);
    }
  }

  lemma ChildSources(p: Plan, i: nat)
    requires i < |Children(p)|
    ensures SortColumns(Children(p)[i]) <= SortColumns(p) && ScannedTables(Children(p)[i]) <= ScannedTables(p)
  {
  }

  /** q sorts and scans no more than p. */
  ghost predicate SourcesWithin(q: Plan, p: Plan) {
    SortColumns(q) <= SortColumns(p) && ScannedTables(q) <= ScannedTables(p)
  }

  lemma SameChildrenSources(q: Plan, p: Plan)
    requires Children(q) == Children(p) && !q.SeqScan? && !p.SeqScan?
    requires q.Sort? ==> p.Sort? && q.orderBy == p.orderBy
    ensures SourcesWithin(q, p)
  {
  }

  lemma WithSchemaSources(p: Plan, s: Schema)
    ensures SourcesWithin(WithSchema(p, s), p)
  {
    if !p.SeqScan? {
      SameChildrenSources(WithSchema(p, s), p);
    }
  }

  lemma IndexJoinSources(p: Plan, q: Plan)
    requires p.NestedLoopJoin? && q.NestedIndexJoin? && q.left == p.left
    ensures SourcesWithin(q, p)
  {
    ChildSources(p, 0);
    assert Children(q) == [p.left];
  }

  lemma RuleSources(rule: Rule, catalog: Catalog, p: Plan)
    requires rule != OrderByAsIndexScan && ApplyRule(rule, catalog, p).Success?
    ensures SourcesWithin(ApplyRule(rule, catalog, p).value, p)
  {
    var q := ApplyRule(rule, catalog, p).value;
    if q != p {
      ChildSources(p, 0);
      match rule
      case MergeProjection => WithSchemaSources(p.child, p.schema);
      case MergeFilterNLJ => SameChildrenSources(q, p.child);
      case NLJAsIndexJoin => IndexJoinSources(p, q);
      case SortLimitAsTopN => SameChildrenSources(q, p);
      case FilterAsIndexScan =>
      case MergeFilterScan => assert p.child.table in ScannedTables(p.child);
    }
  }

  lemma RebuiltSources(p: Plan, cs: seq<Plan>)
    requires |cs| == |Children(p)| && forall i :: 0 <= i < |cs| ==> SourcesWithin(cs[i], Children(p)[i])
    ensures SourcesWithin(CloneWithChildren(p, cs), p)
  {
    var q := CloneWithChildren(p, cs);
    assert |Children(q)| == |cs| && forall i :: 0 <= i < |cs| ==> Children(q)[i] == cs[i];
  }

  lemma {:induction false} PassSources(rule: Rule, catalog: Catalog, p: Plan)
    requires rule != OrderByAsIndexScan && Pass(rule, catalog, p).Success?
    ensures SourcesWithin(Pass(rule, catalog, p).value, p)
    decreases p
  {
    var cs := Children(p);
    if |cs| == 0 {
      RuleSources(rule, catalog, p);
    } else if |cs| == 1 {
      PassSources(rule, catalog, cs[0]);
      var c := Pass(rule, catalog, cs[0]).value;
      RebuiltSources(p, [c]);
      RuleSources(rule, catalog, CloneWithChildren(p, [c]));
    } else {
      PassSources(rule, catalog, cs[0]);
      PassSources(rule, catalog, cs[1]);
      var l, r := Pass(rule, catalog, cs[0]).value, Pass(rule, catalog, cs[1]).value;
      RebuiltSources(p, [l, r]);
      RuleSources(rule, catalog, CloneWithChildren(p, [l, r]));
    }
  }

  // ---- whole runs

  /** What the passes in front of the last one need and keep. */
  ghost predicate Prepared(db: Database, p: Plan, lookups: bool) {
    Shaped(db, p) && Decided(db, p, lookups) && BareScans(p)
  }

  lemma WithinIsUnindexed(catalog: Catalog, q: Plan, p: Plan)
    requires SourcesWithin(q, p)
    ensures SortsUnindexed(catalog, p) ==> SortsUnindexed(catalog, q)
  {
  }

  lemma PassPrepared(rule: Rule, db: Database, p: Plan, lookups: bool)
    requires FaithfulIndexes(db) && Prepared(db, p, lookups) && rule != MergeFilterScan
    requires rule == OrderByAsIndexScan ==> SortsUnindexed(db.catalog, p)
    ensures Pass(rule, db.catalog, p).Success?
    ensures var q := Pass(rule, db.catalog, p).value;
            && Prepared(db, q, lookups) && Equivalent(db, q, p)
            && (SortsUnindexed(db.catalog, p) ==> SortsUnindexed(db.catalog, q))
  {
    if rule == OrderByAsIndexScan {
      UnindexedIsNormal(db.catalog, p);
      OrderByPassIsIdentity(db.catalog, p);
    } else {
      PassKeeps(rule, db, p, lookups);
      PassSources(rule, db.catalog, p);
      WithinIsUnindexed(db.catalog, Pass(rule, db.catalog, p).value, p);
    }
  }

  /** Any list of passes that leaves the scans bare gives exactly the outputs of the plan. */
  lemma {:induction false} PassesKeepMeaning(rules: seq<Rule>, db: Database, p: Plan, lookups: bool)
    requires FaithfulIndexes(db) && Prepared(db, p, lookups) && MergeFilterScan !in rules
    requires OrderByAsIndexScan in rules ==> SortsUnindexed(db.catalog, p)
    ensures RunPasses(rules, db.catalog, p).Success?
    ensures var q := RunPasses(rules, db.catalog, p).value;
            && Prepared(db, q, lookups) && Equivalent(db, q, p)
            && (SortsUnindexed(db.catalog, p) ==> SortsUnindexed(db.catalog, q))
  {
    if rules != [] {
      PassPrepared(rules[0], db, p, lookups);
      var q := Pass(rules[0], db.catalog, p).value;
      PassesKeepMeaning(rules[1..], db, q, lookups);
      EquivalentTransitive(db, RunPasses(rules[1..], db.catalog, q).value, q, p);
    }
  }

  /** After the index rule no filter waits for an index any more. */
  lemma {:induction false} NoLookupsLeft(db: Database, p: Plan)
    requires Decided(db, p, true) && Normal(FilterAsIndexScan, db.catalog, p)
    ensures Decided(db, p, false)
    decreases p
  {
    forall i | 0 <= i < |Children(p)|
      ensures Decided(db, Children(p)[i], false)
    {
      NoLookupsLeft(db, Children(p)[i]);
    }
  }

  lemma {:induction false} RunPassesConcat(a: seq<Rule>, b: seq<Rule>, catalog: Catalog, p: Plan)
    requires RunPasses(a, catalog, p).Success?
    ensures RunPasses(a + b, catalog, p) == RunPasses(b, catalog, RunPasses(a, catalog, p).value)
  {
    if a == [] {
      assert a + b == b;
    } else {
      assert (a + b)[1..] == a[1..] + b;
      RunPassesConcat(a[1..], b, catalog, Pass(a[0], catalog, p).value);
    }
  }

  lemma OnePass(rule: Rule, catalog: Catalog, p: Plan)
    ensures RunPasses([rule], catalog, p) == Pass(rule, catalog, p)
  {
    var q := Pass(rule, catalog, p);
    if q.Success? {
      assert RunPasses([], catalog, q.value) == q;
    }
  }

  const FRONT_PASSES: seq<Rule> := [MergeProjection, MergeFilterNLJ, NLJAsIndexJoin]

  /** The passes behind the ORDER BY pass, without the one that fills scans. */
  function MiddlePasses(forceStarterRule: bool): seq<Rule> {
    if forceStarterRule then [SortLimitAsTopN] else [SortLimitAsTopN, FilterAsIndexScan]
  }

  lemma PassesInThreeParts(forceStarterRule: bool)
    ensures (if forceStarterRule then STARTER_PASSES else CUSTOM_PASSES)
         == FRONT_PASSES + ([OrderByAsIndexScan] + (MiddlePasses(forceStarterRule) + [MergeFilterScan]))
  {
  }

  /** The custom list ends its index rule before it fills the scans. */
  lemma MiddlePassesReady(forceStarterRule: bool, db: Database, p: Plan)
    requires FaithfulIndexes(db) && Prepared(db, p, !forceStarterRule)
    ensures var q := RunPasses(MiddlePasses(forceStarterRule), db.catalog, p);
            q.Success? && Prepared(db, q.value, false) && Equivalent(db, q.value, p)
  {
    PassesKeepMeaning(MiddlePasses(forceStarterRule), db, p, !forceStarterRule);
    if !forceStarterRule {
      OnePass(SortLimitAsTopN, db.catalog, p);
      PassesKeepMeaning([SortLimitAsTopN], db, p, true);
      var q := Pass(SortLimitAsTopN, db.catalog, p).value;
      assert MiddlePasses(false) == [SortLimitAsTopN] + [FilterAsIndexScan];
      RunPassesConcat([SortLimitAsTopN], [FilterAsIndexScan], db.catalog, p);
      OnePass(FilterAsIndexScan, db.catalog, q);
      PassIsNormal(FilterAsIndexScan, db.catalog, q);
      NoLookupsLeft(db, RunPasses(MiddlePasses(false), db.catalog, p).value);
    }
  }

  lemma LatePassesKeepMeaning(forceStarterRule: bool, db: Database, p: Plan)
    requires FaithfulIndexes(db) && Prepared(db, p, !forceStarterRule)
    ensures var q := RunPasses(MiddlePasses(forceStarterRule) + [MergeFilterScan], db.catalog, p);
            q.Success? && Equivalent(db, q.value, p)
  {
    MiddlePassesReady(forceStarterRule, db, p);
    var q := RunPasses(MiddlePasses(forceStarterRule), db.catalog, p).value;
    RunPassesConcat(MiddlePasses(forceStarterRule), [MergeFilterScan], db.catalog, p);
    OnePass(MergeFilterScan, db.catalog, q);
    PassKeeps(MergeFilterScan, db, q, false);
    EquivalentTransitive(db, Pass(MergeFilterScan, db.catalog, q).value, q, p);
  }

  lemma {:induction false} PassesKeepBroken(rules: seq<Rule>, catalog: Catalog, p: Plan)
    requires Broken(p) && forall rule :: rule in rules ==> IsLate(rule)
    ensures RunPasses(rules, catalog, p).Success? && Broken(RunPasses(rules, catalog, p).value)
  {
    if rules != [] {
      assert rules[0] in rules;
      PassKeepsBroken(rules[0], catalog, p);
      PassesKeepBroken(rules[1..], catalog, Pass(rules[0], catalog, p).value);
    }
  }

  /** What the ORDER BY pass and the passes behind it do to a plan the first three have made. */
  lemma FromOrderByOn(forceStarterRule: bool, db: Database, p: Plan)
    requires FaithfulIndexes(db) && Prepared(db, p, !forceStarterRule)
    ensures var late := [OrderByAsIndexScan] + (MiddlePasses(forceStarterRule) + [MergeFilterScan]);
            var q := RunPasses(late, db.catalog, p);
            q.Success?
            && if Normal(OrderByAsIndexScan, db.catalog, p) then Equivalent(db, q.value, p) else Broken(q.value)
  {
    var late := MiddlePasses(forceStarterRule) + [MergeFilterScan];
    PassSucceeds(OrderByAsIndexScan, db.catalog, p);
    OnePass(OrderByAsIndexScan, db.catalog, p);
    RunPassesConcat([OrderByAsIndexScan], late, db.catalog, p);
    if Normal(OrderByAsIndexScan, db.catalog, p) {
      OrderByPassIsIdentity(db.catalog, p);
      LatePassesKeepMeaning(forceStarterRule, db, p);
    } else {
      OrderByPassBreaks(db.catalog, p);
      PassesKeepBroken(late, db.catalog, Pass(OrderByAsIndexScan, db.catalog, p).value);
    }
  }

  /** The plan in front of the ORDER BY pass has nothing for that pass. */
  ghost predicate QuietOrderBy(catalog: Catalog, p: Plan) {
    RunPasses(FRONT_PASSES, catalog, p).Success?
    && Normal(OrderByAsIndexScan, catalog, RunPasses(FRONT_PASSES, catalog, p).value)
  }

  /**
   * Both rule lists of the optimizer, all passes included: on every plan the conditions admit the
   * optimizer succeeds. On a plan with an output it keeps exactly the outputs if and only if the
   * ORDER BY pass finds nothing to rewrite behind the passes in front of it.
   */
  lemma OptimizeKeepsMeaningIff(forceStarterRule: bool, db: Database, p: Plan)
    requires FaithfulIndexes(db) && Prepared(db, p, !forceStarterRule)
    ensures Optimize(forceStarterRule, db.catalog, p).Success?
    ensures QuietOrderBy(db.catalog, p) ==> Equivalent(db, Optimize(forceStarterRule, db.catalog, p).value, p)
    ensures HasOutput(db, p) ==>
              (Equivalent(db, Optimize(forceStarterRule, db.catalog, p).value, p) <==> QuietOrderBy(db.catalog, p))
  {
    OptimizeKeepsOrBreaks(forceStarterRule, db, p);
    if !QuietOrderBy(db.catalog, p) && HasOutput(db, p) {
      BrokenIsNotEquivalent(db, Optimize(forceStarterRule, db.catalog, p).value, p);
    }
  }

  lemma BrokenIsNotEquivalent(db: Database, q: Plan, p: Plan)
    requires Broken(q) && HasOutput(db, p)
    ensures !Equivalent(db, q, p)
  {
    BrokenHasNoOutput(db, q);
    var rows :| Yields(db, p, rows);
    assert !Yields(db, q, rows);
  }

  lemma OptimizeKeepsOrBreaks(forceStarterRule: bool, db: Database, p: Plan)
    requires FaithfulIndexes(db) && Prepared(db, p, !forceStarterRule)
    ensures var q := Optimize(forceStarterRule, db.catalog, p);
            q.Success? && if QuietOrderBy(db.catalog, p) then Equivalent(db, q.value, p) else Broken(q.value)
  {
    var late := [OrderByAsIndexScan] + (MiddlePasses(forceStarterRule) + [MergeFilterScan]);
    PassesKeepMeaning(FRONT_PASSES, db, p, !forceStarterRule);
    var front := RunPasses(FRONT_PASSES, db.catalog, p).value;
    PassesInThreeParts(forceStarterRule);
    RunPassesConcat(FRONT_PASSES, late, db.catalog, p);
    FromOrderByOn(forceStarterRule, db, front);
    if QuietOrderBy(db.catalog, p) {
      EquivalentTransitive(db, RunPasses(late, db.catalog, front).value, front, p);
    }
  }

  /** A condition on the given plan: no scanned table has an index named after a sort column. */
  lemma OptimizeKeepsMeaning(forceStarterRule: bool, db: Database, p: Plan)
    requires FaithfulIndexes(db) && Prepared(db, p, !forceStarterRule) && SortsUnindexed(db.catalog, p)
    ensures Optimize(forceStarterRule, db.catalog, p).Success?
    ensures Equivalent(db, Optimize(forceStarterRule, db.catalog, p).value, p)
  {
    PassesKeepMeaning(FRONT_PASSES, db, p, !forceStarterRule);
    UnindexedIsNormal(db.catalog, RunPasses(FRONT_PASSES, db.catalog, p).value);
    OptimizeKeepsMeaningIff(forceStarterRule, db, p);
  }
}
