/**
 What an optimized plan no longer contains: no later pass of the optimizer's
 lists brings back what an earlier pass has removed.
 */
module PassLists {
  import opened Collections
  import opened Expressions
  import opened Plans
  import opened Ordering
  import opened Joins
  import opened Optimizer
  import opened Rewriting
  import opened Passes

  /** The scan fetches all rows of a table. */
  predicate IsBare(p: Plan) {
    p.SeqScan? && p.filter.None?
  }

  /**
   * What the rule is there to remove. Filters end up in the scans below them, so the rules that look for
   * a scan have removed their patterns over bare scans, and the rule for lookups shows in that no scan
   * carries a filter that an index could answer.
   */
  ghost predicate Leftover(rule: Rule, catalog: Catalog, p: Plan) {
    match rule
    case NLJAsIndexJoin => Redex(rule, catalog, p) && IsBare(p.right)
    case OrderByAsIndexScan => Redex(rule, catalog, p) && IsBare(p.child)
    case FilterAsIndexScan =>
      p.SeqScan? && p.filter.Some? && IsKeyLookup(catalog, p.filter.value, SeqScan(p.schema, p.table, None))
    case _ => Redex(rule, catalog, p)
  }

  ghost predicate Clean(rule: Rule, catalog: Catalog, p: Plan) {
    !Leftover(rule, catalog, p) && forall i :: 0 <= i < |Children(p)| ==> Clean(rule, catalog, Children(p)[i])
  }

  lemma {:induction false} NormalIsClean(rule: Rule, catalog: Catalog, p: Plan)
    requires Normal(rule, catalog, p) && rule != FilterAsIndexScan
    ensures Clean(rule, catalog, p)
    decreases p
  {
    forall i | 0 <= i < |Children(p)|
      ensures Clean(rule, catalog, Children(p)[i])
    {
      NormalIsClean(rule, catalog, Children(p)[i]);
    }
  }

  /** The place of a rule in the lists. */
  function Place(rule: Rule): nat {
    match rule
    case MergeProjection => 0
    case MergeFilterNLJ => 1
    case NLJAsIndexJoin => 2
    case OrderByAsIndexScan => 3
    case SortLimitAsTopN => 4
    case FilterAsIndexScan => 5
    case MergeFilterScan => 6
  }

  // ---- the patterns of the rules, spelled out

  function AllColumns(s: Schema): seq<Expr> {
    seq(|s|, i requires 0 <= i < |s| => Column(0, i, s[i].ty))
  }

  /** A projection of all columns in order is taken away. */
  lemma IdentityIsRemoved(p: Plan)
    ensures MergeProjectionAt(Projection(p.schema, AllColumns(p.schema), p)) == WithSchema(p, p.schema)
  {
  }

  /** A filter over a join ON TRUE becomes the join's predicate. */
  lemma TrueJoinTakesFilter(s: Schema, e: Expr, s': Schema, join: JoinType, l: Plan, r: Plan)
    requires Within(e, |l.schema| + |r.schema|)
    ensures var q := MergeFilterNLJAt(Filter(s, e, NestedLoopJoin(s', join, Const(Bool(true)), l, r)));
            q.Success? && q.value.NestedLoopJoin? && q.value.left == l && q.value.right == r
  {
    RewriteSucceedsIff(e, |l.schema|, |r.schema|);
  }

  ghost predicate HasIndexOn(catalog: Catalog, table: string, col: nat) {
    exists i :: 0 <= i < |catalog(table).indexes| && catalog(table).indexes[i].keyAttrs == [col]
  }

  /** An equi-join over an indexed scan becomes an index join on the left column, whichever side it was written on. */
  lemma EquiJoinUsesIndex(catalog: Catalog, p: Plan, a: nat, b: nat, ty: TypeId, ty': TypeId, flip: bool)
    requires p.NestedLoopJoin? && p.right.SeqScan? && HasIndexOn(catalog, p.right.table, b)
    requires p.pred == if flip then Comp(Equal, Column(1, b, ty'), Column(0, a, ty))
                       else Comp(Equal, Column(0, a, ty), Column(1, b, ty'))
    ensures var q := NLJAsIndexJoinAt(catalog, p);
            q.NestedIndexJoin? && q.left == p.left && q.keyPred == Column(0, a, ty) && q.table == p.right.table
            && q.join == p.join
  {
  }

  /** A filter column = constant over an indexed scan becomes a lookup of the constant. */
  lemma EqualityUsesIndex(catalog: Catalog, s: Schema, scan: Plan, tuple: nat, col: nat, ty: TypeId, v: Value)
    requires scan.SeqScan? && HasIndexOn(catalog, scan.table, col)
    ensures var q := FilterAsIndexScanAt(catalog, Filter(s, Comp(Equal, Column(tuple, col, ty), Const(v)), scan));
            q.IndexScan? && q.table == scan.table && q.key == v
  {
  }

  /** The plan sorts one column, not descending, over a scan whose table has an index named after it. */
  ghost predicate SortsIndexedColumn(catalog: Catalog, p: Plan) {
    && p.Sort? && p.child.SeqScan? && |p.orderBy| == 1 && p.orderBy[0].order != DESC && p.orderBy[0].expr.Column?
    && var info, col := catalog(p.child.table), p.orderBy[0].expr.col;
       col < |info.columns| && exists i :: IsNamed(info.indexes, info.columns[col], i)
  }

  /** The order-by rule rewrites these and nothing else. */
  lemma OrderByRewritesIff(catalog: Catalog, p: Plan)
    ensures OrderByAsIndexScanAt(catalog, p) != p <==> SortsIndexedColumn(catalog, p)
  {
  }

  // ---- a later pass leaves the root of a plan recognizable

  /** What the patterns of earlier rules look for at the root of q, they would have found at the root of p. */
  predicate RootKept(later: Rule, q: Plan, p: Plan) {
    && Types(q.schema) == Types(p.schema)
    && (IsBare(q) ==> IsBare(p) && p.table == q.table)
    && (q.Sort? ==> p.Sort?)
    && (later != MergeFilterNLJ && q.NestedLoopJoin? && IsPredicateTrue(q.pred) ==>
          p.NestedLoopJoin? && IsPredicateTrue(p.pred))
  }

  lemma RuleKeepsRoot(later: Rule, catalog: Catalog, p: Plan)
    requires later != MergeProjection && ApplyRule(later, catalog, p).Success?
    ensures RootKept(later, ApplyRule(later, catalog, p).value, p)
  {
  }

  lemma RebuiltRoot(later: Rule, q: Plan, p: Plan, cs: seq<Plan>)
    requires |cs| == |Children(p)| && RootKept(later, q, CloneWithChildren(p, cs))
    ensures RootKept(later, q, p)
  {
    CloneSame(p);
  }

  lemma PassKeepsRoot(later: Rule, catalog: Catalog, p: Plan)
    requires later != MergeProjection && Pass(later, catalog, p).Success?
    ensures RootKept(later, Pass(later, catalog, p).value, p)
  {
    var cs := Children(p);
    if |cs| == 0 {
      RuleKeepsRoot(later, catalog, p);
    } else if |cs| == 1 {
      var c := Pass(later, catalog, cs[0]).value;
      RuleKeepsRoot(later, catalog, CloneWithChildren(p, [c]));
      RebuiltRoot(later, Pass(later, catalog, p).value, p, [c]);
    } else {
      var l, r := Pass(later, catalog, cs[0]).value, Pass(later, catalog, cs[1]).value;
      RuleKeepsRoot(later, catalog, CloneWithChildren(p, [l, r]));
      RebuiltRoot(later, Pass(later, catalog, p).value, p, [l, r]);
    }
  }

  // ---- and keeps it clean

  /** Over children with recognizable roots the node shows no pattern it did not show before. */
  lemma RebuiltShowsNothing(rule: Rule, later: Rule, catalog: Catalog, p: Plan, cs: seq<Plan>)
    requires Place(rule) < Place(later) && rule != FilterAsIndexScan && !Leftover(rule, catalog, p)
    requires |cs| == |Children(p)| && forall i :: 0 <= i < |cs| ==> RootKept(later, cs[i], Children(p)[i])
    ensures !Leftover(rule, catalog, CloneWithChildren(p, cs))
  {
    if |cs| > 0 {
      assert RootKept(later, cs[0], Children(p)[0]);
    }
    if |cs| > 1 {
      assert RootKept(later, cs[1], Children(p)[1]);
    }
  }

  lemma RebuiltIsClean(rule: Rule, later: Rule, catalog: Catalog, p: Plan, cs: seq<Plan>)
    requires Place(rule) < Place(later) && rule != FilterAsIndexScan && Clean(rule, catalog, p)
    requires |cs| == |Children(p)|
    requires forall i :: 0 <= i < |cs| ==> RootKept(later, cs[i], Children(p)[i]) && Clean(rule, catalog, cs[i])
    ensures Clean(rule, catalog, CloneWithChildren(p, cs))
  {
    RebuiltShowsNothing(rule, later, catalog, p, cs);
    assert Children(CloneWithChildren(p, cs)) == cs;
  }

  lemma RuleKeepsClean(rule: Rule, later: Rule, catalog: Catalog, p: Plan)
    requires Place(rule) < Place(later) && rule != FilterAsIndexScan && Clean(rule, catalog, p)
    requires ApplyRule(later, catalog, p).Success?
    ensures Clean(rule, catalog, ApplyRule(later, catalog, p).value)
  {
    var q := ApplyRule(later, catalog, p).value;
    if q != p {
      assert Clean(rule, catalog, Children(p)[0]);
      match later
      case MergeFilterNLJ => assert Children(q) == Children(p.child);
      case NLJAsIndexJoin => assert Children(q) == [p.left];
      case SortLimitAsTopN => assert Children(q) == Children(p);
      case _ =>
    }
  }

  lemma {:induction false} PassKeepsClean(rule: Rule, later: Rule, catalog: Catalog, p: Plan)
    requires Place(rule) < Place(later) && rule != FilterAsIndexScan && Clean(rule, catalog, p)
    requires Pass(later, catalog, p).Success?
    ensures Clean(rule, catalog, Pass(later, catalog, p).value)
    decreases p
  {
    var cs := Children(p);
    if |cs| == 0 {
      RuleKeepsClean(rule, later, catalog, p);
    } else if |cs| == 1 {
      var c := Pass(later, catalog, cs[0]).value;
      PassKeepsClean(rule, later, catalog, cs[0]);
      PassKeepsRoot(later, catalog, cs[0]);
      RebuiltIsClean(rule, later, catalog, p, [c]);
      RuleKeepsClean(rule, later, catalog, CloneWithChildren(p, [c]));
    } else {
      var l, r := Pass(later, catalog, cs[0]).value, Pass(later, catalog, cs[1]).value;
      PassKeepsClean(rule, later, catalog, cs[0]);
      PassKeepsClean(rule, later, catalog, cs[1]);
      PassKeepsRoot(later, catalog, cs[0]);
      PassKeepsRoot(later, catalog, cs[1]);
      RebuiltIsClean(rule, later, catalog, p, [l, r]);
      RuleKeepsClean(rule, later, catalog, CloneWithChildren(p, [l, r]));
    }
  }

  // ---- the rule for lookups

  lemma RuleKeepsBare(rule: Rule, catalog: Catalog, p: Plan)
    requires rule != MergeFilterScan && BareScans(p) && ApplyRule(rule, catalog, p).Success?
    ensures BareScans(ApplyRule(rule, catalog, p).value)
  {
    var q := ApplyRule(rule, catalog, p).value;
    if q != p {
      assert BareScans(Children(p)[0]);
      match rule
      case MergeProjection => assert Children(q) == Children(p.child);
      case MergeFilterNLJ => assert Children(q) == Children(p.child);
      case NLJAsIndexJoin => assert Children(q) == [p.left];
      case SortLimitAsTopN => assert Children(q) == Children(p);
      case _ =>
    }
  }

  lemma RebuiltIsBare(p: Plan, cs: seq<Plan>)
    requires BareScans(p) && |cs| == |Children(p)| && forall i :: 0 <= i < |cs| ==> BareScans(cs[i])
    ensures BareScans(CloneWithChildren(p, cs))
  {
    assert Children(CloneWithChildren(p, cs)) == cs;
  }

  lemma {:induction false} PassKeepsBare(rule: Rule, catalog: Catalog, p: Plan)
    requires rule != MergeFilterScan && BareScans(p) && Pass(rule, catalog, p).Success?
    ensures BareScans(Pass(rule, catalog, p).value)
    decreases p
  {
    var cs := Children(p);
    if |cs| == 0 {
      RuleKeepsBare(rule, catalog, p);
    } else if |cs| == 1 {
      PassKeepsBare(rule, catalog, cs[0]);
      RebuiltIsBare(p, [Pass(rule, catalog, cs[0]).value]);
      RuleKeepsBare(rule, catalog, CloneWithChildren(p, [Pass(rule, catalog, cs[0]).value]));
    } else {
      PassKeepsBare(rule, catalog, cs[0]);
      PassKeepsBare(rule, catalog, cs[1]);
      var l, r := Pass(rule, catalog, cs[0]).value, Pass(rule, catalog, cs[1]).value;
      RebuiltIsBare(p, [l, r]);
      RuleKeepsBare(rule, catalog, CloneWithChildren(p, [l, r]));
    }
  }

  lemma NoScanNoLookup(catalog: Catalog, p: Plan)
    requires !p.SeqScan? && forall i :: 0 <= i < |Children(p)| ==> Clean(FilterAsIndexScan, catalog, Children(p)[i])
    ensures Clean(FilterAsIndexScan, catalog, p)
  {
  }

  /** Filling the scans after the lookups are gone leaves no scan with a filter an index could answer. */
  lemma {:induction false} FilledScansHaveNoLookups(catalog: Catalog, p: Plan)
    requires BareScans(p) && Normal(FilterAsIndexScan, catalog, p) && Pass(MergeFilterScan, catalog, p).Success?
    ensures Clean(FilterAsIndexScan, catalog, Pass(MergeFilterScan, catalog, p).value)
    decreases p
  {
    var cs := Children(p);
    if |cs| == 1 {
      FilledScansHaveNoLookups(catalog, cs[0]);
      PassKeepsRoot(MergeFilterScan, catalog, cs[0]);
      FilledOver(catalog, p, Pass(MergeFilterScan, catalog, cs[0]).value);
    } else if |cs| == 2 {
      FilledScansHaveNoLookups(catalog, cs[0]);
      FilledScansHaveNoLookups(catalog, cs[1]);
      var l, r := Pass(MergeFilterScan, catalog, cs[0]).value, Pass(MergeFilterScan, catalog, cs[1]).value;
      assert Children(CloneWithChildren(p, [l, r])) == [l, r];
      NoScanNoLookup(catalog, CloneWithChildren(p, [l, r]));
    }
  }

  lemma FilledOver(catalog: Catalog, p: Plan, c: Plan)
    requires |Children(p)| == 1 && RootKept(MergeFilterScan, c, Children(p)[0])
    requires !Redex(FilterAsIndexScan, catalog, p) && Clean(FilterAsIndexScan, catalog, c)
    ensures Clean(FilterAsIndexScan, catalog, MergeFilterScanAt(CloneWithChildren(p, [c])))
  {
    var p' := CloneWithChildren(p, [c]);
    assert Children(p') == [c];
    if MergeFilterScanAt(p') == p' {
      NoScanNoLookup(catalog, p');
    } else {
      assert p.Filter? && IsBare(c) && IsBare(p.child) && p.child.table == c.table;
    }
  }

  // ---- whole lists

  lemma {:induction false} LaterPassesKeepClean(rule: Rule, rules: seq<Rule>, catalog: Catalog, p: Plan)
    requires rule != FilterAsIndexScan && Clean(rule, catalog, p) && RunPasses(rules, catalog, p).Success?
    requires forall later :: later in rules ==> Place(rule) < Place(later)
    ensures Clean(rule, catalog, RunPasses(rules, catalog, p).value)
  {
    if rules != [] {
      assert rules[0] in rules;
      PassKeepsClean(rule, rules[0], catalog, p);
      LaterPassesKeepClean(rule, rules[1..], catalog, Pass(rules[0], catalog, p).value);
    }
  }

  ghost predicate InOrder(rules: seq<Rule>) {
    forall i, j :: 0 <= i < j < |rules| ==> Place(rules[i]) < Place(rules[j])
  }

  lemma {:induction false} EveryPassShows(rules: seq<Rule>, catalog: Catalog, p: Plan)
    requires InOrder(rules) && RunPasses(rules, catalog, p).Success?
    ensures forall rule :: rule in rules && rule != FilterAsIndexScan ==>
              Clean(rule, catalog, RunPasses(rules, catalog, p).value)
  {
    if rules != [] {
      var q := Pass(rules[0], catalog, p).value;
      PassIsNormal(rules[0], catalog, p);
      EveryPassShows(rules[1..], catalog, q);
      if rules[0] != FilterAsIndexScan {
        NormalIsClean(rules[0], catalog, q);
        LaterPassesKeepClean(rules[0], rules[1..], catalog, q);
      }
    }
  }

  lemma {:induction false} PassesKeepBare(rules: seq<Rule>, catalog: Catalog, p: Plan)
    requires BareScans(p) && MergeFilterScan !in rules && RunPasses(rules, catalog, p).Success?
    ensures BareScans(RunPasses(rules, catalog, p).value)
  {
    if rules != [] {
      PassKeepsBare(rules[0], catalog, p);
      PassesKeepBare(rules[1..], catalog, Pass(rules[0], catalog, p).value);
    }
  }

  lemma LookupsAreGone(catalog: Catalog, p: Plan)
    requires BareScans(p) && RunPasses(CUSTOM_PASSES, catalog, p).Success?
    ensures Clean(FilterAsIndexScan, catalog, RunPasses(CUSTOM_PASSES, catalog, p).value)
  {
    var front := CUSTOM_PASSES[..5];
    assert CUSTOM_PASSES == front + ([FilterAsIndexScan] + [MergeFilterScan]);
    FrontSucceeds(front, [FilterAsIndexScan] + [MergeFilterScan], catalog, p);
    RunPassesConcat(front, [FilterAsIndexScan] + [MergeFilterScan], catalog, p);
    var a := RunPasses(front, catalog, p).value;
    PassesKeepBare(front, catalog, p);
    FrontSucceeds([FilterAsIndexScan], [MergeFilterScan], catalog, a);
    RunPassesConcat([FilterAsIndexScan], [MergeFilterScan], catalog, a);
    OnePass(FilterAsIndexScan, catalog, a);
    var b := Pass(FilterAsIndexScan, catalog, a).value;
    OnePass(MergeFilterScan, catalog, b);
    PassKeepsBare(FilterAsIndexScan, catalog, a);
    PassIsNormal(FilterAsIndexScan, catalog, a);
    FilledScansHaveNoLookups(catalog, b);
  }

  lemma {:induction false} FrontSucceeds(a: seq<Rule>, b: seq<Rule>, catalog: Catalog, p: Plan)
    requires RunPasses(a + b, catalog, p).Success?
    ensures RunPasses(a, catalog, p).Success?
  {
    if a != [] {
      assert (a + b)[1..] == a[1..] + b;
      FrontSucceeds(a[1..], b, catalog, Pass(a[0], catalog, p).value);
    }
  }

  /**
   * The optimizer leaves nothing behind that one of its passes removes: no identity projection, no filter
   * over a constant-true join, no equi-join and no ascending sort over a bare scan with a fitting index,
   * no limit over a sort, no filter over a bare scan, and by the custom list no scan with a filter that an
   * index could answer.
   */
  lemma OptimizeLeavesNothing(forceStarterRule: bool, catalog: Catalog, p: Plan)
    requires BareScans(p) && Optimize(forceStarterRule, catalog, p).Success?
    ensures forall rule :: (rule != FilterAsIndexScan || !forceStarterRule) ==>
              Clean(rule, catalog, Optimize(forceStarterRule, catalog, p).value)
  {
    var rules := if forceStarterRule then STARTER_PASSES else CUSTOM_PASSES;
    ListsAreInOrder();
    EveryPassShows(rules, catalog, p);
    if !forceStarterRule {
      LookupsAreGone(catalog, p);
    }
    forall rule | rule != FilterAsIndexScan || !forceStarterRule
      ensures Clean(rule, catalog, Optimize(forceStarterRule, catalog, p).value)
    {
      if rule != FilterAsIndexScan {
        EveryRuleIsListed(rule, rules);
      }
    }
  }

  lemma ListsAreInOrder()
    ensures InOrder(STARTER_PASSES) && InOrder(CUSTOM_PASSES)
  {
  }

  lemma EveryRuleIsListed(rule: Rule, rules: seq<Rule>)
    requires rules in {STARTER_PASSES, CUSTOM_PASSES} && rule != FilterAsIndexScan
    ensures rule in rules
  {
    assert STARTER_PASSES[0] == MergeProjection && STARTER_PASSES[1] == MergeFilterNLJ
           && STARTER_PASSES[2] == NLJAsIndexJoin && STARTER_PASSES[3] == OrderByAsIndexScan
           && STARTER_PASSES[4] == SortLimitAsTopN && STARTER_PASSES[5] == MergeFilterScan;
    assert CUSTOM_PASSES[..5] == STARTER_PASSES[..5] && CUSTOM_PASSES[6] == MergeFilterScan;
    assert forall i :: 0 <= i < 5 ==> CUSTOM_PASSES[i] == CUSTOM_PASSES[..5][i] == STARTER_PASSES[i];
  }
}
