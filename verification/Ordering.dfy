/**
 The row order of ORDER BY, and what sorting and TopN may give
 (src/execution/sort_executor.cpp, topn_executor.cpp).
 */
module Ordering {
  import opened Expressions

  datatype OrderByType = DEFAULT | ASC | DESC

  datatype SortKey = SortKey(order: OrderByType, expr: Expr)

  /** The comparator handed to std::sort and to the TopN heap. */
  predicate Before(keys: seq<SortKey>, a: Row, b: Row) {
    if keys == [] then false
    else
      var x, y := Evaluate(keys[0].expr, a), Evaluate(keys[0].expr, b);
      if Compare(Equal, x, y) == True then Before(keys[1..], a, b)
      else if keys[0].order == ASC || keys[0].order == DEFAULT then Compare(LessThan, x, y) == True
      else Compare(GreaterThan, x, y) == True
  }

  /** No row comes before a row placed ahead of it. */
  ghost predicate Sorted(keys: seq<SortKey>, rows: seq<Row>) {
    forall i, j :: 0 <= i < j < |rows| ==> !Before(keys, rows[j], rows[i])
  }

  ghost predicate SortsTo(keys: seq<SortKey>, input: seq<Row>, output: seq<Row>) {
    multiset(output) == multiset(input) && Sorted(keys, output)
  }

  function Prefix(rows: seq<Row>, n: nat): seq<Row> {
    if n < |rows| then rows[..n] else rows
  }

  /** `output` is what LIMIT n leaves of some sorted arrangement of the input. */
  ghost predicate IsTop(keys: seq<SortKey>, n: nat, input: seq<Row>, output: seq<Row>) {
    exists all :: SortsTo(keys, input, all) && output == Prefix(all, n)
  }

  // ---- the comparator is a strict weak order on rows whose keys compare

  /** Neither row has a NULL key, and key by key the two rows have values of one type. */
  predicate KeysCompare(keys: seq<SortKey>, a: Row, b: Row) {
    forall k :: k in keys ==> Compare(Equal, Evaluate(k.expr, a), Evaluate(k.expr, b)) != Unknown
  }

  ghost predicate Comparable(keys: seq<SortKey>, rows: seq<Row>) {
    forall a, b :: a in rows && b in rows ==> KeysCompare(keys, a, b)
  }

  lemma {:induction false} BeforeIsIrreflexive(keys: seq<SortKey>, a: Row)
    requires KeysCompare(keys, a, a)
    ensures !Before(keys, a, a)
  {
    if keys != [] {
      assert keys[0] in keys;
      assert forall k :: k in keys[1..] ==> k in keys;
      BeforeIsIrreflexive(keys[1..], a);
    }
  }

  lemma {:induction false} BeforeIsAsymmetric(keys: seq<SortKey>, a: Row, b: Row)
    requires KeysCompare(keys, a, b) && Before(keys, a, b)
    ensures !Before(keys, b, a)
  {
    assert keys[0] in keys;
    var x, y := Evaluate(keys[0].expr, a), Evaluate(keys[0].expr, b);
    if Compare(Equal, x, y) == True {
      assert forall k :: k in keys[1..] ==> k in keys;
      BeforeIsAsymmetric(keys[1..], a, b);
    }
  }

  /** With asymmetry this gives transitivity, and transitivity of "neither comes first". */
  lemma {:induction false} BeforeSplits(keys: seq<SortKey>, a: Row, b: Row, c: Row)
    requires KeysCompare(keys, a, b) && KeysCompare(keys, b, c) && KeysCompare(keys, a, c)
    requires Before(keys, a, c)
    ensures Before(keys, a, b) || Before(keys, b, c)
  {
    assert keys[0] in keys;
    assert forall k :: k in keys[1..] ==> k in keys;
    var x, y, z := Evaluate(keys[0].expr, a), Evaluate(keys[0].expr, b), Evaluate(keys[0].expr, c);
    if Compare(Equal, x, z) == True {
      if Compare(Equal, x, y) == True {
        BeforeSplits(keys[1..], a, b, c);
      }
    }
  }

  lemma NotBeforeIsTransitive(keys: seq<SortKey>, a: Row, b: Row, c: Row)
    requires KeysCompare(keys, a, b) && KeysCompare(keys, b, c) && KeysCompare(keys, a, c)
    requires !Before(keys, a, b) && !Before(keys, b, c)
    ensures !Before(keys, a, c)
  {
    if Before(keys, a, c) {
      BeforeSplits(keys, a, b, c);
    }
  }

  /** The order std::sort and std::priority_queue ask for. */
  lemma ComparatorIsStrictWeakOrder(keys: seq<SortKey>, rows: seq<Row>, a: Row, b: Row, c: Row)
    requires Comparable(keys, rows) && a in rows && b in rows && c in rows
    ensures !Before(keys, a, a)
    ensures Before(keys, a, b) ==> !Before(keys, b, a)
    ensures Before(keys, a, b) && Before(keys, b, c) ==> Before(keys, a, c)
    ensures !Before(keys, a, b) && !Before(keys, b, a) && !Before(keys, b, c) && !Before(keys, c, b)
            ==> !Before(keys, a, c) && !Before(keys, c, a)
  {
    BeforeIsIrreflexive(keys, a);
    if Before(keys, a, b) {
      BeforeIsAsymmetric(keys, a, b);
      BeforeSplits(keys, a, c, b);
    }
    if Before(keys, b, c) {
      BeforeIsAsymmetric(keys, b, c);
    }
    if Before(keys, a, c) {
      BeforeSplits(keys, a, b, c);
    }
    if Before(keys, c, a) {
      BeforeSplits(keys, c, b, a);
    }
  }

  // ---- the order on the key values themselves

  /** Both values are of one kind and not NULL, and equal. */
  predicate SameValue(x: Value, y: Value) {
    !x.Null? && x == y
  }

  /** Both values are of one kind and not NULL, and the first is smaller; false is smaller than true. */
  predicate SmallerValue(x: Value, y: Value) {
    (x.Int? && y.Int? && x.i < y.i) || (x == Bool(false) && y == Bool(true))
  }

  function KeyOf(k: SortKey, r: Row): Value {
    Evaluate(k.expr, r)
  }

  /** Position i decides for a: all keys before it are equal, and there a has the smaller key, for DESC the greater. */
  predicate DecidesAt(keys: seq<SortKey>, a: Row, b: Row, i: int) {
    && 0 <= i < |keys|
    && (forall j :: 0 <= j < i ==> SameValue(KeyOf(keys[j], a), KeyOf(keys[j], b)))
    && if keys[i].order == DESC then SmallerValue(KeyOf(keys[i], b), KeyOf(keys[i], a))
       else SmallerValue(KeyOf(keys[i], a), KeyOf(keys[i], b))
  }

  /** The comparator puts a first exactly when some position decides for it, on any two rows. */
  lemma {:induction false} BeforeIff(keys: seq<SortKey>, a: Row, b: Row)
    ensures Before(keys, a, b) <==> exists i :: DecidesAt(keys, a, b, i)
  {
    if keys != [] {
      var x, y := KeyOf(keys[0], a), KeyOf(keys[0], b);
      assert Compare(Equal, x, y) == True <==> SameValue(x, y);
      assert Compare(LessThan, x, y) == True <==> SmallerValue(x, y);
      assert Compare(GreaterThan, x, y) == True <==> SmallerValue(y, x);
      var rest := keys[1..];
      if SameValue(x, y) {
        BeforeIff(rest, a, b);
        if i :| DecidesAt(rest, a, b, i) {
          assert DecidesAt(keys, a, b, i + 1);
        }
        if i :| DecidesAt(keys, a, b, i) {
          assert i > 0 && keys[i] == rest[i - 1];
          assert forall j :: 0 <= j < i - 1 ==> rest[j] == keys[j + 1];
          assert DecidesAt(rest, a, b, i - 1);
        }
      } else {
        if i :| DecidesAt(keys, a, b, i) {
          assert i == 0;
        }
        if Before(keys, a, b) {
          assert DecidesAt(keys, a, b, 0);
        }
      }
    }
  }

  /** By its key r may stand ahead of r': the key does not fall from r to r', or for DESC does not rise. */
  predicate MayLead(k: SortKey, r: Row, r': Row) {
    if k.order == DESC then !SmallerValue(KeyOf(k, r), KeyOf(k, r')) else !SmallerValue(KeyOf(k, r'), KeyOf(k, r))
  }

  /** Along the rows the key never falls, or for DESC never rises. */
  ghost predicate Monotone(k: SortKey, rows: seq<Row>) {
    forall i, j :: 0 <= i < j < |rows| ==> MayLead(k, rows[i], rows[j])
  }

  lemma OneKeyBefore(k: SortKey, a: Row, b: Row)
    ensures Before([k], a, b) <==> !MayLead(k, b, a)
  {
    BeforeIff([k], a, b);
    if i :| DecidesAt([k], a, b, i) {
      assert i == 0;
    } else {
      assert !DecidesAt([k], a, b, 0);
    }
  }

  /** With one key, rows are sorted exactly when the key is monotone along them. */
  lemma SortedIff(k: SortKey, rows: seq<Row>)
    ensures Sorted([k], rows) <==> Monotone(k, rows)
  {
    forall i, j | 0 <= i < j < |rows|
      ensures Before([k], rows[j], rows[i]) <==> !MayLead(k, rows[i], rows[j])
    {
      OneKeyBefore(k, rows[j], rows[i]);
    }
  }

  lemma CutMonotone(k: SortKey, kept: seq<Row>, left: seq<Row>)
    requires Monotone(k, kept + left)
    ensures Monotone(k, kept) && forall r, r' :: r in kept && r' in left ==> MayLead(k, r, r')
  {
    var all := kept + left;
    assert forall i :: 0 <= i < |kept| ==> all[i] == kept[i];
    assert forall j :: 0 <= j < |left| ==> all[|kept| + j] == left[j];
    forall r, r' | r in kept && r' in left
      ensures MayLead(k, r, r')
    {
      var i :| 0 <= i < |kept| && kept[i] == r;
      var j :| 0 <= j < |left| && left[j] == r';
      assert MayLead(k, all[i], all[|kept| + j]);
    }
  }

  /**
   The first n of a sorted arrangement: along them the key is monotone, and every
   one of them may stand ahead of every row left out.
   */
  lemma TopIsExtreme(k: SortKey, n: nat, input: seq<Row>, output: seq<Row>) returns (left: seq<Row>)
    requires IsTop([k], n, input, output)
    ensures multiset(output) + multiset(left) == multiset(input)
    ensures |output| == if n < |input| then n else |input|
    ensures Monotone(k, output) && forall r, r' :: r in output && r' in left ==> MayLead(k, r, r')
  {
    var all :| SortsTo([k], input, all) && output == Prefix(all, n);
    SortedIff(k, all);
    SameSize(all, input);
    left := all[|output|..];
    assert all == output + left;
    CutMonotone(k, output, left);
  }

  lemma SameSize(a: seq<Row>, b: seq<Row>)
    requires multiset(a) == multiset(b)
    ensures |a| == |b|
  {
    assert |multiset(a)| == |a| && |multiset(b)| == |b|;
  }

  /** With a NULL key, 1 and 2 each tie with NULL but not with each other: not a weak order. */
  lemma NullKeysBreakTheOrder()
    ensures var keys, one, nil, two :=
              [SortKey(ASC, Column(0, 0, INTEGER))], [Int(1)], [Null(INTEGER)], [Int(2)];
            !Before(keys, one, nil) && !Before(keys, nil, one)
            && !Before(keys, nil, two) && !Before(keys, two, nil)
            && Before(keys, one, two)
  {
  }
}
