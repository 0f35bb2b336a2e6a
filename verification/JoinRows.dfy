/** Which rows a join gives, without its loops: matched pairs, and in a left join unmatched rows padded with NULLs. */
module JoinRows {
  import opened Expressions
  import opened Plans

  /** The left row with a NULL of the right type in every column of the right side. */
  predicate IsPadded(row: Row, l: Row, types: seq<TypeId>) {
    && |row| == |l| + |types|
    && (forall i :: 0 <= i < |l| ==> row[i] == l[i])
    && (forall i :: 0 <= i < |types| ==> row[|l| + i] == Null(types[i]))
  }

  lemma PaddedIff(row: Row, l: Row, types: seq<TypeId>)
    ensures row == l + NullRow(types) <==> IsPadded(row, l, types)
  {
  }

  predicate Pairs(p: Expr, l: Row, r: Row) {
    ReadAsBool(EvaluateJoin(p, l, r))
  }

  lemma {:induction false} MatchesIff(p: Expr, l: Row, rights: seq<Row>, row: Row)
    ensures row in Matches(p, l, rights) <==> exists r :: r in rights && Pairs(p, l, r) && row == l + r
    ensures Matches(p, l, rights) == [] <==> forall r :: r in rights ==> !Pairs(p, l, r)
  {
    if rights != [] {
      assert forall r :: r in rights <==> r == rights[0] || r in rights[1..];
      MatchesIff(p, l, rights[1..], row);
      if Pairs(p, l, rights[0]) {
        assert l + rights[0] in Matches(p, l, rights);
      }
    }
  }

  /** The row comes from l: paired with a right row, or alone in a left join that found nothing for it. */
  ghost predicate ComesFrom(join: JoinType, p: Expr, l: Row, rights: seq<Row>, types: seq<TypeId>, row: Row) {
    || (exists r :: r in rights && Pairs(p, l, r) && row == l + r)
    || (join == LEFT && (forall r :: r in rights ==> !Pairs(p, l, r)) && IsPadded(row, l, types))
  }

  lemma OneLeftRowIff(join: JoinType, p: Expr, l: Row, rights: seq<Row>, types: seq<TypeId>, row: Row)
    ensures row in Padded(join, l, NullRow(types), Matches(p, l, rights)) <==> ComesFrom(join, p, l, rights, types, row)
  {
    MatchesIff(p, l, rights, row);
    PaddedIff(row, l, types);
  }

  /** A row is in the nested-loop join exactly when it comes from some left row. */
  lemma {:induction false} JoinedRowsIff(join: JoinType, p: Expr, lefts: seq<Row>, rights: seq<Row>,
                                         types: seq<TypeId>, row: Row)
    ensures row in Joined(join, p, lefts, rights, NullRow(types))
            <==> exists l :: l in lefts && ComesFrom(join, p, l, rights, types, row)
  {
    if lefts != [] {
      assert forall l :: l in lefts <==> l == lefts[0] || l in lefts[1..];
      OneLeftRowIff(join, p, lefts[0], rights, types, row);
      JoinedRowsIff(join, p, lefts[1..], rights, types, row);
    }
  }

  /** What a predicate's value is read as: true, the NULL boolean, and integers that are no multiple of 256. */
  lemma ReadAsBoolIff(v: Value)
    ensures ReadAsBool(v) <==>
            v == Bool(true) || v == Null(BOOLEAN) || (v.Int? && forall q :: v.i != 256 * q)
  {
    if v.Int? {
      assert v.i == 256 * (v.i / 256) + v.i % 256;
      if q :| v.i == 256 * q {
        assert v.i % 256 == 0;
      }
    }
  }

  /** A filter keeps exactly the rows on which its predicate is true, whatever it reads as when NULL. */
  lemma {:induction false} FilteredRowsIff(p: Expr, rows: seq<Row>, row: Row)
    ensures row in Filtered(p, rows) <==> row in rows && !Evaluate(p, row).Null? && ReadAsBool(Evaluate(p, row))
    ensures row in Scanned(p, rows) <==> row in rows && ReadAsBool(Evaluate(p, row))
  {
    if rows != [] {
      FilteredRowsIff(p, rows[1..], row);
    }
  }
}
