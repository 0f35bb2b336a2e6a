/**
 What the operators and the aggregate functions of a query give, in terms of the
 numbers and truth values they are applied to (src/include/execution/executors/aggregation_executor.h,
 src/planner/expression_factory.cpp).
 */
module AggregateMeaning {
  import opened Collections
  import opened Expressions
  import opened Plans
  import opened Aggregates

  // ---- operators

  /** False, unknown and true in the order in which AND takes the least and OR the greatest. */
  function Rank(t: Truth): nat {
    match t
    case False => 0
    case Unknown => 1
    case True => 2
  }

  /** The comparisons and the arithmetic on integers. */
  lemma OperatorsOnIntegers(a: int, b: int)
    ensures ApplyOp("=", Int(a), Int(b)) == Some(Bool(a == b)) && ApplyOp("==", Int(a), Int(b)) == Some(Bool(a == b))
    ensures ApplyOp("!=", Int(a), Int(b)) == Some(Bool(a != b)) && ApplyOp("<>", Int(a), Int(b)) == Some(Bool(a != b))
    ensures ApplyOp("<", Int(a), Int(b)) == Some(Bool(a < b)) && ApplyOp("<=", Int(a), Int(b)) == Some(Bool(a <= b))
    ensures ApplyOp(">", Int(a), Int(b)) == Some(Bool(a > b)) && ApplyOp(">=", Int(a), Int(b)) == Some(Bool(a >= b))
    ensures ApplyOp("+", Int(a), Int(b)) == Some(if a + b == INT32_NULL then Null(INTEGER) else Int(a + b))
    ensures ApplyOp("-", Int(a), Int(b)) == Some(if a - b == INT32_NULL then Null(INTEGER) else Int(a - b))
  {
    OperatorNames();
  }

  lemma OperatorNames()
    ensures OperatorOf("=") == Some(Compares(Equal)) && OperatorOf("==") == Some(Compares(Equal))
    ensures OperatorOf("!=") == Some(Compares(NotEqual)) && OperatorOf("<>") == Some(Compares(NotEqual))
    ensures OperatorOf("<") == Some(Compares(LessThan)) && OperatorOf("<=") == Some(Compares(LessThanOrEqual))
    ensures OperatorOf(">") == Some(Compares(GreaterThan)) && OperatorOf(">=") == Some(Compares(GreaterThanOrEqual))
    ensures OperatorOf("+") == Some(Computes(Plus)) && OperatorOf("-") == Some(Computes(Minus))
    ensures OperatorOf("and") == Some(Connects(And)) && OperatorOf("or") == Some(Connects(Or))
  {
    assert |"="| == 1 && |"=="| == 2 && |"!="| == 2 && |"<>"| == 2 && |"<="| == 2 && |">="| == 2;
    assert "="[0] == '=' && "<"[0] == '<' && ">"[0] == '>' && "+"[0] == '+' && "-"[0] == '-';
    assert "=="[0] == '=' && "!="[0] == '!' && "<>"[0] == '<' && "<>"[1] == '>' && "<="[0] == '<' && "<="[1] == '=';
    assert ">="[0] == '>';
    assert |"and"| == 3 && |"or"| == 2 && "or"[0] == 'o';
  }

  /** A comparison or computation with a NULL is NULL. */
  lemma OperatorsOnNull(op: string, ty: TypeId, v: Value)
    ensures op in {"=", "==", "!=", "<>", "<", "<=", ">", ">="} ==>
              ApplyOp(op, Null(ty), v) == Some(Null(BOOLEAN)) && ApplyOp(op, v, Null(ty)) == Some(Null(BOOLEAN))
    ensures op in {"+", "-"} ==>
              ApplyOp(op, Null(ty), v) == Some(Null(INTEGER)) && ApplyOp(op, v, Null(ty)) == Some(Null(INTEGER))
  {
    OperatorNames();
  }

  /** The connectives are those of three-valued logic. */
  lemma ConnectivesOnTruths(x: Truth, y: Truth)
    ensures ApplyOp("and", BooleanValue(x), BooleanValue(y)) == Some(BooleanValue(if Rank(x) <= Rank(y) then x else y))
    ensures ApplyOp("or", BooleanValue(x), BooleanValue(y)) == Some(BooleanValue(if Rank(x) <= Rank(y) then y else x))
  {
    OperatorNames();
  }

  // ---- aggregates of a list of values

  /** Every value is NULL or an integer that is not the one that stands for NULL. */
  predicate AreIntegers(values: seq<Value>) {
    forall v :: v in values ==> v.Null? || (v.Int? && v.i != INT32_NULL)
  }

  /** The numbers among the values, in order. */
  function Numbers(values: seq<Value>): seq<int> {
    if values == [] then []
    else
      var last := values[|values| - 1];
      Numbers(values[..|values| - 1]) + (if last.Int? then [last.i] else [])
  }

  function Total(xs: seq<int>): int {
    if xs == [] then 0 else Total(xs[..|xs| - 1]) + xs[|xs| - 1]
  }

  lemma {:induction false} CountStarCounts(values: seq<Value>)
    ensures Aggregate(CountStar, values) == Int(|values|)
  {
    if values != [] {
      CountStarCounts(values[..|values| - 1]);
    }
  }

  /** COUNT is the number of values that are not NULL, and NULL instead of zero. */
  lemma {:induction false} CountCounts(values: seq<Value>)
    requires AreIntegers(values)
    ensures Aggregate(Count, values) == if Numbers(values) == [] then Null(INTEGER) else Int(|Numbers(values)|)
  {
    if values != [] {
      CountCounts(values[..|values| - 1]);
      assert values[|values| - 1] in values;
    }
  }

  predicate IsLeast(x: int, xs: seq<int>) {
    x in xs && forall y :: y in xs ==> x <= y
  }

  predicate IsGreatest(x: int, xs: seq<int>) {
    x in xs && forall y :: y in xs ==> y <= x
  }

  lemma {:induction false} MinIsLeast(values: seq<Value>)
    requires AreIntegers(values)
    ensures if Numbers(values) == [] then Aggregate(Min, values) == Null(INTEGER)
            else Aggregate(Min, values).Int? && IsLeast(Aggregate(Min, values).i, Numbers(values))
  {
    if values != [] {
      MinIsLeast(values[..|values| - 1]);
      assert values[|values| - 1] in values;
    }
  }

  lemma {:induction false} MaxIsGreatest(values: seq<Value>)
    requires AreIntegers(values)
    ensures if Numbers(values) == [] then Aggregate(Max, values) == Null(INTEGER)
            else Aggregate(Max, values).Int? && IsGreatest(Aggregate(Max, values).i, Numbers(values))
  {
    if values != [] {
      MaxIsGreatest(values[..|values| - 1]);
      assert values[|values| - 1] in values;
    }
  }

  /** No sum of a first part of the numbers is the integer that stands for NULL. */
  ghost predicate NeverNull(xs: seq<int>) {
    forall i :: 0 < i <= |xs| ==> Total(xs[..i]) != INT32_NULL
  }

  lemma NeverNullSnoc(xs: seq<int>, x: int)
    ensures NeverNull(xs + [x]) <==> NeverNull(xs) && Total(xs) + x != INT32_NULL
    ensures Total(xs + [x]) == Total(xs) + x
  {
    var ys := xs + [x];
    assert ys[..|xs|] == xs && ys[..|ys|] == ys && ys[..|ys| - 1] == xs;
    assert forall i :: 0 <= i <= |xs| ==> ys[..i] == xs[..i];
  }

  /** The number in an accumulator; an empty one counts as zero. */
  function Amount(v: Value): int {
    if v.Int? then v.i else 0
  }

  /** Each time the running sum is the integer that stands for NULL it is lost and the sum starts again. */
  lemma {:induction false} SumLosesMultiples(values: seq<Value>) returns (m: nat)
    requires AreIntegers(values)
    ensures Aggregate(Sum, values) == Null(INTEGER) || Aggregate(Sum, values).Int?
    ensures Total(Numbers(values)) == Amount(Aggregate(Sum, values)) + m * INT32_NULL
    ensures m == 0 <==> NeverNull(Numbers(values))
    ensures Numbers(values) == [] ==> m == 0 && Aggregate(Sum, values).Null?
    ensures Numbers(values) != [] && m == 0 ==> Aggregate(Sum, values).Int?
  {
    if values == [] {
      m := 0;
    } else {
      var before, last := values[..|values| - 1], values[|values| - 1];
      m := SumLosesMultiples(before);
      assert last in values;
      if last.Int? {
        NeverNullSnoc(Numbers(before), last.i);
        if Aggregate(Sum, before).Int? && Aggregate(Sum, before).i + last.i == INT32_NULL {
          m := m + 1;
        }
      } else {
        assert Numbers(before) + [] == Numbers(before);
      }
    }
  }

  /** SUM is the sum exactly when no sum on the way is the integer that stands for NULL. */
  lemma SumIsTotalIff(values: seq<Value>)
    requires AreIntegers(values)
    ensures Aggregate(Sum, values) == (if Numbers(values) == [] then Null(INTEGER) else Int(Total(Numbers(values))))
            <==> NeverNull(Numbers(values))
  {
    var m := SumLosesMultiples(values);
  }

  /** Three numbers whose sum SUM gets wrong, without any overflow. */
  lemma SumStartsAgain()
    ensures Aggregate(Sum, [Int(-0x7fff_ffff), Int(-1), Int(5)]) == Int(5)
  {
    var v := [Int(-0x7fff_ffff), Int(-1), Int(5)];
    var a, b := [Int(-0x7fff_ffff)], [Int(-0x7fff_ffff), Int(-1)];
    assert v[..2] == b && b[..1] == a && a[..0] == [];
    assert Aggregate(Sum, a) == Int(-0x7fff_ffff);
    assert Aggregate(Sum, b) == Null(INTEGER);
  }

  // ---- the calls of a query

  lemma FunctionNames()
    ensures FunctionOf("min") == Some(Min) && FunctionOf("max") == Some(Max)
    ensures FunctionOf("sum") == Some(AggregationType.Sum) && FunctionOf("count") == Some(AggregationType.Count)
  {
    assert "min"[0] == 'm' && "max"[0] == 'm' && "min"[1] == 'i' && "max"[1] == 'a';
    assert "sum"[0] == 's' && "count"[0] == 'c';
  }

  /** What the calls of a query give for a group on whose rows the argument has these integer values. */
  lemma CallsGive(arg: Bound, s: Schema, group: seq<Row>, values: seq<Value>)
    requires ArgumentValues(arg, s, group) == Some(values) && AreIntegers(values)
    ensures CallValue(AggCall("count_star", false, []), s, group) == Some(Int(|group|))
    ensures Numbers(values) == [] ==>
              forall f :: f in {"count", "sum", "min", "max"} ==>
                CallValue(AggCall(f, false, [arg]), s, group) == Some(Null(INTEGER))
    ensures Numbers(values) != [] ==>
              && CallValue(AggCall("count", false, [arg]), s, group) == Some(Int(|Numbers(values)|))
              && (CallValue(AggCall("sum", false, [arg]), s, group) == Some(Int(Total(Numbers(values))))
                  <==> NeverNull(Numbers(values)))
              && (exists x :: IsLeast(x, Numbers(values))
                              && CallValue(AggCall("min", false, [arg]), s, group) == Some(Int(x)))
              && (exists x :: IsGreatest(x, Numbers(values))
                              && CallValue(AggCall("max", false, [arg]), s, group) == Some(Int(x)))
  {
    FunctionNames();
    CountStarCounts(seq(|group|, _ => Int(1)));
    CountCounts(values);
    SumIsTotalIff(values);
    MinIsLeast(values);
    MaxIsGreatest(values);
    if Numbers(values) == [] {
      assert NeverNull(Numbers(values));
    }
  }
}
