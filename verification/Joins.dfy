/**
 Nested-loop and index joins: the executors, and when they give the same rows
 (src/execution/nested_loop_join_executor.cpp, nested_index_join_executor.cpp).
 */
module Joins {
  import opened Collections
  import opened Expressions
  import opened Plans

  // ---- the executors

  class NestedLoopJoinExecutor {
    const join: JoinType
    const pred: Expr
    /** Column types of the right child. */
    const innerTypes: seq<TypeId>
    var leftTuples: seq<Row>
    var rightTuples: seq<Row>
    var results: seq<Row>

    constructor (join: JoinType, pred: Expr, innerTypes: seq<TypeId>)
      ensures this.join == join && this.pred == pred && this.innerTypes == innerTypes
      ensures leftTuples == [] && rightTuples == [] && results == []
    {
      this.join, this.pred, this.innerTypes := join, pred, innerTypes;
      leftTuples, rightTuples, results := [], [], [];
    }

    /** Queues the join of the two inputs, in left-major order. */
    method Init(lefts: seq<Row>, rights: seq<Row>)
      requires leftTuples == [] && rightTuples == [] && results == []
      modifies this
      ensures leftTuples == lefts && rightTuples == rights
      ensures results == Joined(join, pred, lefts, rights, NullRow(innerTypes))
    {
      leftTuples := leftTuples + lefts;
      rightTuples := rightTuples + rights;
      ghost var nulls := NullRow(innerTypes);
      var i := 0;
      while i < |leftTuples|
        invariant 0 <= i <= |leftTuples|
        invariant leftTuples == lefts && rightTuples == rights
        invariant results == Joined(join, pred, lefts[..i], rights, nulls)
      {
        JoinedStep(join, pred, lefts, i, rights, nulls);
        JoinLeftTuple(leftTuples[i]);
        i := i + 1;
      }
      assert lefts[..i] == lefts;
    }

    method JoinLeftTuple(left: Row)
      modifies this`results
      ensures results
              == old(results) + Padded(join, left, NullRow(innerTypes), Matches(pred, left, rightTuples))
    {
      var hasDone := false;
      var j := 0;
      while j < |rightTuples|
        invariant 0 <= j <= |rightTuples|
        invariant results == old(results) + Matches(pred, left, rightTuples[..j])
        invariant hasDone <==> Matches(pred, left, rightTuples[..j]) != []
      {
        MatchesStep(pred, left, rightTuples, j);
        if ReadAsBool(EvaluateJoin(pred, left, rightTuples[j])) {
          results := results + [left + rightTuples[j]];
          hasDone := true;
        }
        j := j + 1;
      }
      assert rightTuples[..j] == rightTuples;
      if !hasDone {
        if join == LEFT {
          results := results + [left + NullRow(innerTypes)];
        }
      }
    }

    /** Takes the next queued row, if any. */
    method Next() returns (row: Option<Row>)
      modifies this`results
      ensures old(results) == [] ==> row == None && results == []
      ensures old(results) != [] ==> row == Some(old(results)[0]) && results == old(results)[1..]
    {
      if results == [] {
        return None;
      }
      row := Some(results[0]);
      results := results[1..];
    }
  }

  class NestedIndexJoinExecutor {
    const join: JoinType
    const keyPred: Expr
    const innerTypes: seq<TypeId>
    var results: seq<Row>

    constructor (join: JoinType, keyPred: Expr, innerTypes: seq<TypeId>)
      ensures this.join == join && this.keyPred == keyPred && this.innerTypes == innerTypes && results == []
    {
      this.join, this.keyPred, this.innerTypes, results := join, keyPred, innerTypes, [];
    }

    /** Queues, for each left row, the rows its key finds in the index. */
    method Init(lefts: seq<Row>, lookup: Value -> seq<Row>)
      requires results == []
      modifies this
      ensures results == IndexJoined(join, keyPred, lookup, lefts, NullRow(innerTypes))
    {
      ghost var nulls := NullRow(innerTypes);
      var i := 0;
      while i < |lefts|
        invariant 0 <= i <= |lefts|
        invariant results == IndexJoined(join, keyPred, lookup, lefts[..i], nulls)
      {
        IndexJoinedStep(join, keyPred, lookup, lefts, i, nulls);
        JoinLeftTuple(lefts[i], lookup(Evaluate(keyPred, lefts[i])));
        i := i + 1;
      }
      assert lefts[..i] == lefts;
    }

    method JoinLeftTuple(left: Row, rightTuples: seq<Row>)
      modifies this`results
      ensures results == old(results) + Padded(join, left, NullRow(innerTypes), Extended(left, rightTuples))
    {
      if rightTuples != [] {
        var j := 0;
        while j < |rightTuples|
          invariant 0 <= j <= |rightTuples|
          invariant results == old(results) + Extended(left, rightTuples[..j])
        {
          assert Extended(left, rightTuples[..j + 1])
              == Extended(left, rightTuples[..j]) + [left + rightTuples[j]];
          results := results + [left + rightTuples[j]];
          j := j + 1;
        }
        assert rightTuples[..j] == rightTuples;
      } else {
        if join == LEFT {
          results := results + [left + NullRow(innerTypes)];
        }
      }
    }
  }

  lemma {:induction false} MatchesSnoc(p: Expr, left: Row, rights: seq<Row>, r: Row)
    ensures Matches(p, left, rights + [r])
         == Matches(p, left, rights) + (if ReadAsBool(EvaluateJoin(p, left, r)) then [left + r] else [])
  {
    if rights == [] {
      assert [r][1..] == [];
    } else {
      assert (rights + [r])[1..] == rights[1..] + [r];
      MatchesSnoc(p, left, rights[1..], r);
    }
  }

  lemma {:induction false} JoinedSnoc(join: JoinType, p: Expr, lefts: seq<Row>, l: Row, rights: seq<Row>, nulls: Row)
    ensures Joined(join, p, lefts + [l], rights, nulls)
         == Joined(join, p, lefts, rights, nulls) + Padded(join, l, nulls, Matches(p, l, rights))
  {
    if lefts == [] {
      assert [l][1..] == [];
    } else {
      assert (lefts + [l])[1..] == lefts[1..] + [l];
      JoinedSnoc(join, p, lefts[1..], l, rights, nulls);
    }
  }

  lemma {:induction false} IndexJoinedSnoc(join: JoinType, key: Expr, lookup: Value -> seq<Row>, lefts: seq<Row>,
                                           l: Row, nulls: Row)
    ensures IndexJoined(join, key, lookup, lefts + [l], nulls)
         == IndexJoined(join, key, lookup, lefts, nulls)
            + Padded(join, l, nulls, Extended(l, lookup(Evaluate(key, l))))
  {
    if lefts == [] {
      assert [l][1..] == [];
    } else {
      assert (lefts + [l])[1..] == lefts[1..] + [l];
      IndexJoinedSnoc(join, key, lookup, lefts[1..], l, nulls);
    }
  }

  lemma MatchesStep(p: Expr, left: Row, rights: seq<Row>, j: nat)
    requires j < |rights|
    ensures Matches(p, left, rights[..j + 1])
         == Matches(p, left, rights[..j])
            + (if ReadAsBool(EvaluateJoin(p, left, rights[j])) then [left + rights[j]] else [])
  {
    assert rights[..j + 1] == rights[..j] + [rights[j]];
    MatchesSnoc(p, left, rights[..j], rights[j]);
  }

  lemma JoinedStep(join: JoinType, p: Expr, lefts: seq<Row>, i: nat, rights: seq<Row>, nulls: Row)
    requires i < |lefts|
    ensures Joined(join, p, lefts[..i + 1], rights, nulls)
         == Joined(join, p, lefts[..i], rights, nulls) + Padded(join, lefts[i], nulls, Matches(p, lefts[i], rights))
  {
    assert lefts[..i + 1] == lefts[..i] + [lefts[i]];
    JoinedSnoc(join, p, lefts[..i], lefts[i], rights, nulls);
  }

  lemma IndexJoinedStep(join: JoinType, key: Expr, lookup: Value -> seq<Row>, lefts: seq<Row>, i: nat, nulls: Row)
    requires i < |lefts|
    ensures IndexJoined(join, key, lookup, lefts[..i + 1], nulls)
         == IndexJoined(join, key, lookup, lefts[..i], nulls)
            + Padded(join, lefts[i], nulls, Extended(lefts[i], lookup(Evaluate(key, lefts[i]))))
  {
    assert lefts[..i + 1] == lefts[..i] + [lefts[i]];
    IndexJoinedSnoc(join, key, lookup, lefts[..i], lefts[i], nulls);
  }

  // ---- an index join against a nested-loop join on column = column

  /** The rows a faithful index on column `col` finds for key `k`: those equal to it, in scan order. */
  function Matching(rows: seq<Row>, col: nat, k: Value): seq<Row> {
    if rows == [] then []
    else (if Compare(Equal, ColumnOf(rows[0], col, INTEGER), k) == True then [rows[0]] else [])
         + Matching(rows[1..], col, k)
  }

  /** `p` equates column `key` of the left row with column `col` of the right row, in either order. */
  predicate IsEquiJoin(p: Expr, key: Expr, col: nat) {
    key.Column? && key.tuple == 0
    && p.Comp? && p.comp == Equal && p.left.Column? && p.right.Column?
    && ((p.left == key && p.right.tuple == 1 && p.right.col == col)
        || (p.right == key && p.left.tuple == 1 && p.left.col == col))
  }

  ghost predicate DefiniteOnRows(p: Expr, lefts: seq<Row>, rights: seq<Row>) {
    forall l, r :: l in lefts && r in rights ==> Definite(EvaluateJoin(p, l, r))
  }

  lemma EquiJoinValue(p: Expr, key: Expr, col: nat, l: Row, r: Row)
    requires IsEquiJoin(p, key, col)
    ensures EvaluateJoin(p, l, r)
         == BooleanValue(Compare(Equal, ColumnOf(r, col, INTEGER), Evaluate(key, l)))
  {
  }

  lemma {:induction false} MatchesAreLookups(p: Expr, key: Expr, col: nat, l: Row, rights: seq<Row>)
    requires IsEquiJoin(p, key, col)
    requires forall r :: r in rights ==> Definite(EvaluateJoin(p, l, r))
    ensures Matches(p, l, rights) == Extended(l, Matching(rights, col, Evaluate(key, l)))
  {
    if rights != [] {
      var k := Evaluate(key, l);
      EquiJoinValue(p, key, col, l, rights[0]);
      assert rights[0] in rights;
      forall r | r in rights[1..]
        ensures r in rights
      {
      }
      MatchesAreLookups(p, key, col, l, rights[1..]);
      ExtendedConcat(l, if Compare(Equal, ColumnOf(rights[0], col, INTEGER), k) == True then [rights[0]] else [],
        Matching(rights[1..], col, k));
    }
  }

  lemma ExtendedConcat(l: Row, a: seq<Row>, b: seq<Row>)
    ensures Extended(l, a + b) == Extended(l, a) + Extended(l, b)
  {
  }

  /**
   * What index `lookup` answers for a table: for a key that is not NULL exactly the equal rows in scan
   * order, and never a row the table does not hold.
   */
  ghost predicate Faithful(lookup: Value -> seq<Row>, rows: seq<Row>, col: nat) {
    forall k: Value ::
      (forall r :: r in lookup(k) ==> r in rows)
      && (!k.Null? ==> lookup(k) == Matching(rows, col, k))
  }

  lemma NonemptyWithin(a: seq<Row>, b: seq<Row>)
    requires a != []
    requires forall r :: r in a ==> r in b
    ensures b != []
  {
    assert a[0] in a;
  }

  /** Both joins agree on one left row whenever no comparison with it is NULL. */
  lemma LookupsAgree(p: Expr, key: Expr, col: nat, lookup: Value -> seq<Row>, l: Row, rights: seq<Row>)
    requires IsEquiJoin(p, key, col)
    requires Faithful(lookup, rights, col)
    requires forall r :: r in rights ==> Definite(EvaluateJoin(p, l, r))
    ensures Extended(l, lookup(Evaluate(key, l))) == Matches(p, l, rights)
  {
    var k := Evaluate(key, l);
    if lookup(k) != [] {
      NonemptyWithin(lookup(k), rights);
    }
    if rights != [] {
      assert rights[0] in rights;
      EquiJoinValue(p, key, col, l, rights[0]);
      MatchesAreLookups(p, key, col, l, rights);
    }
  }

  /** The index join gives the rows of the nested-loop join, in the same order, inner and left. */
  lemma {:induction false} IndexJoinIsNestedLoopJoin(join: JoinType, p: Expr, key: Expr, col: nat,
                                                     lookup: Value -> seq<Row>, lefts: seq<Row>, rights: seq<Row>,
                                                     nulls: Row)
    requires IsEquiJoin(p, key, col)
    requires Faithful(lookup, rights, col)
    requires DefiniteOnRows(p, lefts, rights)
    ensures IndexJoined(join, key, lookup, lefts, nulls) == Joined(join, p, lefts, rights, nulls)
  {
    if lefts != [] {
      assert lefts[0] in lefts;
      LookupsAgree(p, key, col, lookup, lefts[0], rights);
      assert forall l :: l in lefts[1..] ==> l in lefts;
      IndexJoinIsNestedLoopJoin(join, p, key, col, lookup, lefts[1..], rights, nulls);
    }
  }

  /** A NULL key: the nested-loop join pairs the row with every right row, since NULL reads as true. */
  lemma {:induction false} NullKeyMatchesEverything(p: Expr, key: Expr, col: nat, l: Row, rights: seq<Row>)
    requires IsEquiJoin(p, key, col)
    requires Evaluate(key, l).Null?
    ensures Matches(p, l, rights) == Extended(l, rights)
  {
    if rights != [] {
      EquiJoinValue(p, key, col, l, rights[0]);
      NullKeyMatchesEverything(p, key, col, l, rights[1..]);
      assert rights == [rights[0]] + rights[1..];
      ExtendedConcat(l, [rights[0]], rights[1..]);
    }
  }

  /** The right rows whose comparison with the left row is NULL. */
  function Unknowns(p: Expr, l: Row, rights: seq<Row>): seq<Row> {
    if rights == [] then []
    else (if Definite(EvaluateJoin(p, l, rights[0])) then [] else [rights[0]]) + Unknowns(p, l, rights[1..])
  }

  /** The matches of a left row are the found and the unknown rows, and where one kind is missing just the other. */
  predicate Splits(l: Row, matches: seq<Row>, found: seq<Row>, unknowns: seq<Row>) {
    |matches| == |found| + |unknowns|
    && (unknowns == [] ==> matches == Extended(l, found))
    && (found == [] ==> matches == Extended(l, unknowns))
  }

  lemma SplitsCons(l: Row, r: Row, matches: seq<Row>, found: seq<Row>, unknowns: seq<Row>)
    requires Splits(l, matches, found, unknowns)
    ensures Splits(l, [l + r] + matches, [r] + found, unknowns)
    ensures Splits(l, [l + r] + matches, found, [r] + unknowns)
  {
    ExtendedConcat(l, [r], found);
    ExtendedConcat(l, [r], unknowns);
    assert Extended(l, [r]) == [l + r];
  }

  /** The nested-loop join keeps the rows an exact index finds and those that compare as NULL. */
  lemma {:induction false} MatchesOrUnknown(p: Expr, key: Expr, col: nat, l: Row, rights: seq<Row>)
    requires IsEquiJoin(p, key, col)
    ensures Splits(l, Matches(p, l, rights), Matching(rights, col, Evaluate(key, l)), Unknowns(p, l, rights))
  {
    if rights != [] {
      var r, rest, k := rights[0], rights[1..], Evaluate(key, l);
      EquiJoinValue(p, key, col, l, r);
      MatchesOrUnknown(p, key, col, l, rest);
      var m, f, u := Matches(p, l, rest), Matching(rest, col, k), Unknowns(p, l, rest);
      SplitsCons(l, r, m, f, u);
      var c := Compare(Equal, ColumnOf(r, col, INTEGER), k);
      assert Matches(p, l, rights) == (if c == False then m else [l + r] + m);
      assert Matching(rights, col, k) == (if c == True then [r] + f else f);
      assert Unknowns(p, l, rights) == (if c == Unknown then [r] + u else u);
    }
  }

  /** No comparison with the left row is NULL, or the one that is happens to give the padded row. */
  predicate JoinSafe(join: JoinType, p: Expr, key: Expr, col: nat, l: Row, rights: seq<Row>, nulls: Row) {
    Unknowns(p, l, rights) == []
    || (join == LEFT && Unknowns(p, l, rights) == [nulls] && Matching(rights, col, Evaluate(key, l)) == [])
  }

  lemma OneRowSameIff(join: JoinType, p: Expr, key: Expr, col: nat, l: Row, rights: seq<Row>, nulls: Row)
    requires IsEquiJoin(p, key, col)
    ensures var after := Padded(join, l, nulls, Extended(l, Matching(rights, col, Evaluate(key, l))));
            var before := Padded(join, l, nulls, Matches(p, l, rights));
            |after| <= |before| && (after == before <==> JoinSafe(join, p, key, col, l, rights, nulls))
  {
    MatchesOrUnknown(p, key, col, l, rights);
    var unknowns, found := Unknowns(p, l, rights), Matching(rights, col, Evaluate(key, l));
    if found == [] && |unknowns| == 1 {
      assert Extended(l, unknowns) == [l + unknowns[0]];
      assert unknowns == [unknowns[0]];
      SuffixesEqual(l, unknowns[0], nulls);
    }
  }

  lemma SuffixesEqual(l: Row, a: Row, b: Row)
    ensures l + a == l + b <==> a == b
  {
    assert a == (l + a)[|l|..] && b == (l + b)[|l|..];
  }

  /**
   * With an index that finds exactly the equal rows, and none for NULL, the index join gives the rows
   * of the nested-loop join if and only if no comparison is NULL; the one exception is a left join
   * whose only row without a definite comparison is itself the row of NULLs.
   */
  lemma {:induction false} IndexJoinSameIff(join: JoinType, p: Expr, key: Expr, col: nat, lookup: Value -> seq<Row>,
                                            lefts: seq<Row>, rights: seq<Row>, nulls: Row)
    requires IsEquiJoin(p, key, col)
    requires forall k :: lookup(k) == Matching(rights, col, k)
    ensures |IndexJoined(join, key, lookup, lefts, nulls)| <= |Joined(join, p, lefts, rights, nulls)|
    ensures IndexJoined(join, key, lookup, lefts, nulls) == Joined(join, p, lefts, rights, nulls)
            <==> forall l :: l in lefts ==> JoinSafe(join, p, key, col, l, rights, nulls)
  {
    if lefts != [] {
      var l, rest := lefts[0], lefts[1..];
      assert forall x :: x in lefts <==> x == l || x in rest;
      OneRowSameIff(join, p, key, col, l, rights, nulls);
      IndexJoinSameIff(join, p, key, col, lookup, rest, rights, nulls);
      ConcatInjective(Padded(join, l, nulls, Extended(l, lookup(Evaluate(key, l)))),
        Padded(join, l, nulls, Matches(p, l, rights)),
        IndexJoined(join, key, lookup, rest, nulls), Joined(join, p, rest, rights, nulls));
    }
  }

  // ---- moving a filter into a join whose own predicate is constant true

  ghost predicate SamePredicate(p: Expr, q: Expr, lefts: seq<Row>, rights: seq<Row>) {
    forall l, r :: l in lefts && r in rights ==> EvaluateJoin(q, l, r) == Evaluate(p, l + r)
  }

  /** What the filter must satisfy at one left row for the merge to keep its rows. */
  ghost predicate MergeSafe(join: JoinType, p: Expr, l: Row, rights: seq<Row>, nulls: Row) {
    (forall r :: r in rights ==> Definite(Evaluate(p, l + r)))
    && (join == LEFT ==>
          if rights == [] then Passes(Evaluate(p, l + nulls))
          else exists r :: r in rights && Passes(Evaluate(p, l + r)))
  }

  predicate IsPredicateTrue(e: Expr) {
    e.Const? && ReadAsBool(e.val)
  }

  lemma {:induction false} TrueMatchesAll(e: Expr, l: Row, rights: seq<Row>)
    requires IsPredicateTrue(e)
    ensures Matches(e, l, rights) == Extended(l, rights)
  {
    if rights != [] {
      TrueMatchesAll(e, l, rights[1..]);
      assert rights == [rights[0]] + rights[1..];
      ExtendedConcat(l, [rights[0]], rights[1..]);
    }
  }

  lemma {:induction false} FilteredConcat(p: Expr, a: seq<Row>, b: seq<Row>)
    ensures Filtered(p, a + b) == Filtered(p, a) + Filtered(p, b)
  {
    if a == [] {
      assert a + b == b;
    } else {
      assert (a + b)[1..] == a[1..] + b;
      FilteredConcat(p, a[1..], b);
    }
  }

  /** Filtering the pairs of one left row against matching them directly. */
  lemma {:induction false} FilterMatches(p: Expr, q: Expr, l: Row, rights: seq<Row>)
    requires forall r :: r in rights ==> EvaluateJoin(q, l, r) == Evaluate(p, l + r)
    ensures |Filtered(p, Extended(l, rights))| <= |Matches(q, l, rights)|
    ensures (forall r :: r in rights ==> Definite(Evaluate(p, l + r)))
            <==> Filtered(p, Extended(l, rights)) == Matches(q, l, rights)
  {
    if rights != [] {
      var r0, rest := rights[0], rights[1..];
      assert r0 in rights;
      assert forall r :: r in rest ==> r in rights;
      assert forall r :: r in rights ==> r == r0 || r in rest;
      FilterMatches(p, q, l, rest);
      assert Extended(l, rights)[1..] == Extended(l, rest);
      assert Extended(l, rights)[0] == l + r0;
      ConcatInjective(if Passes(Evaluate(p, l + r0)) then [l + r0] else [],
        if ReadAsBool(EvaluateJoin(q, l, r0)) then [l + r0] else [],
        Filtered(p, Extended(l, rest)), Matches(q, l, rest));
    }
  }

  lemma {:induction false} FilteredNonemptyIff(p: Expr, l: Row, rights: seq<Row>)
    ensures Filtered(p, Extended(l, rights)) != [] <==> exists r :: r in rights && Passes(Evaluate(p, l + r))
  {
    if rights != [] {
      var r0, rest := rights[0], rights[1..];
      assert r0 in rights && forall r :: r in rights <==> r == r0 || r in rest;
      FilteredNonemptyIff(p, l, rest);
      assert Extended(l, rights)[1..] == Extended(l, rest);
      assert Extended(l, rights)[0] == l + r0;
    }
  }

  lemma FilteredSingleton(p: Expr, row: Row)
    ensures Filtered(p, [row]) == if Passes(Evaluate(p, row)) then [row] else []
  {
    assert [row][1..] == [];
  }

  /** One left row's share of the filtered cross product, against its share of the merged join. */
  lemma MergeOneRow(join: JoinType, e: Expr, p: Expr, q: Expr, l: Row, rights: seq<Row>, nulls: Row)
    requires IsPredicateTrue(e)
    requires forall r :: r in rights ==> EvaluateJoin(q, l, r) == Evaluate(p, l + r)
    ensures var before := Filtered(p, Padded(join, l, nulls, Matches(e, l, rights)));
            var after := Padded(join, l, nulls, Matches(q, l, rights));
            |before| <= |after| && (MergeSafe(join, p, l, rights, nulls) <==> before == after)
  {
    TrueMatchesAll(e, l, rights);
    if rights == [] {
      FilteredSingleton(p, l + nulls);
    } else {
      MergeMatchedRow(join, p, q, l, rights, nulls);
    }
  }

  /** The case of a nonempty right side, where the cross product needs no padding. */
  lemma MergeMatchedRow(join: JoinType, p: Expr, q: Expr, l: Row, rights: seq<Row>, nulls: Row)
    requires rights != []
    requires forall r :: r in rights ==> EvaluateJoin(q, l, r) == Evaluate(p, l + r)
    ensures var after := Padded(join, l, nulls, Matches(q, l, rights));
            Padded(join, l, nulls, Extended(l, rights)) == Extended(l, rights)
            && |Filtered(p, Extended(l, rights))| <= |after|
            && (MergeSafe(join, p, l, rights, nulls) <==> Filtered(p, Extended(l, rights)) == after)
  {
    FilterMatches(p, q, l, rights);
    FilteredNonemptyIff(p, l, rights);
    var pairs, merged := Filtered(p, Extended(l, rights)), Matches(q, l, rights);
    if merged == [] {
      assert pairs == [];
    }
  }

  /**
   * Merging a filter into a constant-true join keeps the rows and their order exactly when no pair
   * makes the filter NULL and, for a left join, every left row keeps one of its rows.
   */
  lemma {:induction false} MergeKeepsRowsIff(join: JoinType, e: Expr, p: Expr, q: Expr, lefts: seq<Row>,
                                             rights: seq<Row>, nulls: Row)
    requires IsPredicateTrue(e)
    requires SamePredicate(p, q, lefts, rights)
    ensures |Filtered(p, Joined(join, e, lefts, rights, nulls))| <= |Joined(join, q, lefts, rights, nulls)|
    ensures Filtered(p, Joined(join, e, lefts, rights, nulls)) == Joined(join, q, lefts, rights, nulls)
            <==> forall l :: l in lefts ==> MergeSafe(join, p, l, rights, nulls)
  {
    if lefts != [] {
      var l, rest := lefts[0], lefts[1..];
      assert l in lefts;
      assert forall x :: x in rest ==> x in lefts;
      assert forall x :: x in lefts ==> x == l || x in rest;
      MergeOneRow(join, e, p, q, l, rights, nulls);
      MergeKeepsRowsIff(join, e, p, q, rest, rights, nulls);
      var before := Filtered(p, Padded(join, l, nulls, Matches(e, l, rights)));
      var after := Padded(join, l, nulls, Matches(q, l, rights));
      FilteredConcat(p, Padded(join, l, nulls, Matches(e, l, rights)), Joined(join, e, rest, rights, nulls));
      ConcatInjective(before, after, Filtered(p, Joined(join, e, rest, rights, nulls)),
        Joined(join, q, rest, rights, nulls));
    }
  }

  lemma ConcatInjective(a: seq<Row>, b: seq<Row>, c: seq<Row>, d: seq<Row>)
    requires |a| <= |b| && |c| <= |d|
    ensures a + c == b + d <==> a == b && c == d
  {
    if a + c == b + d {
      assert |a| == |b|;
      assert a == (a + c)[..|a|];
      assert c == (a + c)[|a|..];
    }
  }

  /** A left join ON TRUE under a filter that no right row meets: the merge brings the row back, padded. */
  lemma MergeBreaksLeftJoin()
    ensures var t, l, r := Const(Bool(true)), [[Int(1)]], [[Int(2)]];
            var p := Comp(Equal, Column(0, 1, INTEGER), Const(Int(3)));
            var q := Comp(Equal, Column(1, 0, INTEGER), Const(Int(3)));
            RewriteForJoin(p, 1, 1) == Success(q)
            && Filtered(p, Joined(LEFT, t, l, r, [Null(INTEGER)])) == []
            && Joined(LEFT, q, l, r, [Null(INTEGER)]) == [[Int(1), Null(INTEGER)]]
  {
    var t, l, r := Const(Bool(true)), [[Int(1)]], [[Int(2)]];
    var p := Comp(Equal, Column(0, 1, INTEGER), Const(Int(3)));
    var q := Comp(Equal, Column(1, 0, INTEGER), Const(Int(3)));
    assert r[1..] == [] && l[1..] == [];
    assert [Int(1)] + [Int(2)] == [Int(1), Int(2)];
    assert Matches(t, l[0], r) == [[Int(1), Int(2)]];
    assert Joined(LEFT, t, l, r, [Null(INTEGER)]) == [[Int(1), Int(2)]];
    assert [[Int(1), Int(2)]][1..] == [];
    assert Matches(q, l[0], r) == [];
    assert [Int(1)] + [Null(INTEGER)] == [Int(1), Null(INTEGER)];
  }

  // ---- moving a filter into a scan

  /** Merging a filter into the scan below it keeps the rows exactly when the filter is NULL on no row. */
  lemma {:induction false} ScanKeepsRowsIff(p: Expr, rows: seq<Row>)
    ensures |Filtered(p, rows)| <= |Scanned(p, rows)|
    ensures Filtered(p, rows) == Scanned(p, rows) <==> forall r :: r in rows ==> Definite(Evaluate(p, r))
  {
    if rows != [] {
      var r0, rest := rows[0], rows[1..];
      assert r0 in rows;
      assert forall r :: r in rest ==> r in rows;
      assert forall r :: r in rows ==> r == r0 || r in rest;
      ScanKeepsRowsIff(p, rest);
      ConcatInjective(if Passes(Evaluate(p, r0)) then [r0] else [], if ReadAsBool(Evaluate(p, r0)) then [r0] else [],
        Filtered(p, rest), Scanned(p, rest));
    }
  }

  /** A scan keeps a row on which its predicate is NULL; the filter it came from drops it. */
  lemma MergeBreaksScan()
    ensures var p := Comp(Equal, Column(0, 0, INTEGER), Const(Int(1)));
            Filtered(p, [[Null(INTEGER)]]) == [] && Scanned(p, [[Null(INTEGER)]]) == [[Null(INTEGER)]]
  {
    var rows: seq<Row> := [[Null(INTEGER)]];
    assert rows[1..] == [];
  }

  /** A filter column = constant keeps the rows a faithful index finds for the constant. */
  lemma {:induction false} FilterIsLookup(p: Expr, rows: seq<Row>)
    requires p.Comp? && p.comp == Equal && p.left.Column? && p.right.Const?
    ensures Filtered(p, rows) == Matching(rows, p.left.col, p.right.val)
  {
    if rows != [] {
      assert Passes(Evaluate(p, rows[0]))
          <==> Compare(Equal, ColumnOf(rows[0], p.left.col, INTEGER), p.right.val) == True;
      FilterIsLookup(p, rows[1..]);
    }
  }
}
