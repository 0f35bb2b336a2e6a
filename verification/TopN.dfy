/** The TopN executor (src/execution/topn_executor.cpp). */
module TopNExecution {
  import opened Collections
  import opened Expressions
  import opened Ordering

  /** `row` is a largest element of the heap: what std::priority_queue gives as its top. */
  ghost predicate IsLargest(keys: seq<SortKey>, heap: seq<Row>, row: Row) {
    row in heap && forall x :: x in heap ==> !Before(keys, row, x)
  }

  /** No row of `later` comes before a row of `earlier`. */
  ghost predicate NoneBefore(keys: seq<SortKey>, later: seq<Row>, earlier: seq<Row>) {
    forall x, y :: x in later && y in earlier ==> !Before(keys, x, y)
  }

  ghost predicate AllIn(rows: seq<Row>, all: seq<Row>) {
    forall r :: r in rows ==> r in all
  }

  lemma PartsWithin(a: seq<Row>, b: seq<Row>, all: seq<Row>)
    requires multiset(a) + multiset(b) == multiset(all)
    ensures AllIn(a, all) && AllIn(b, all)
  {
    forall r | r in a || r in b
      ensures r in all
    {
      assert r in multiset(a) || r in multiset(b);
      assert r in multiset(all);
    }
  }

  // ---- every set of comparable rows has a sorted arrangement

  function Insert(keys: seq<SortKey>, row: Row, rows: seq<Row>): seq<Row> {
    if rows == [] then [row]
    else if Before(keys, rows[0], row) then [rows[0]] + Insert(keys, row, rows[1..])
    else [row] + rows
  }

  function InsertionSort(keys: seq<SortKey>, rows: seq<Row>): seq<Row> {
    if rows == [] then [] else Insert(keys, rows[0], InsertionSort(keys, rows[1..]))
  }

  lemma SortedConcat(keys: seq<SortKey>, a: seq<Row>, b: seq<Row>)
    requires Sorted(keys, a) && Sorted(keys, b) && NoneBefore(keys, b, a)
    ensures Sorted(keys, a + b)
  {
    var s := a + b;
    forall i, j | 0 <= i < j < |s|
      ensures !Before(keys, s[j], s[i])
    {
      if i < |a| && |a| <= j {
        assert s[i] in a && s[j] in b;
      }
    }
  }

  lemma {:induction false} InsertAdds(keys: seq<SortKey>, row: Row, rows: seq<Row>)
    ensures multiset(Insert(keys, row, rows)) == multiset(rows) + multiset{row}
  {
    if rows != [] && Before(keys, rows[0], row) {
      InsertAdds(keys, row, rows[1..]);
      assert rows == [rows[0]] + rows[1..];
    }
  }

  lemma {:induction false} InsertSorts(keys: seq<SortKey>, row: Row, rows: seq<Row>, all: seq<Row>)
    requires Comparable(keys, all) && row in all && AllIn(rows, all)
    requires Sorted(keys, rows)
    ensures Sorted(keys, Insert(keys, row, rows))
  {
    if rows != [] {
      var first, rest := rows[0], rows[1..];
      assert first in rows;
      assert rows == [first] + rest;
      if Before(keys, first, row) {
        BeforeIsAsymmetric(keys, first, row);
        InsertSorts(keys, row, rest, all);
        InsertAdds(keys, row, rest);
        forall x | x in Insert(keys, row, rest)
          ensures !Before(keys, x, first)
        {
          assert x in multiset(Insert(keys, row, rest));
          if x != row {
            assert x in rest;
          }
        }
        SortedConcat(keys, [first], Insert(keys, row, rest));
      } else {
        forall x | x in rows
          ensures !Before(keys, x, row)
        {
          if Before(keys, x, row) {
            BeforeSplits(keys, x, first, row);
          }
        }
        SortedConcat(keys, [row], rows);
      }
    }
  }

  lemma {:induction false} InsertionSortSorts(keys: seq<SortKey>, rows: seq<Row>)
    requires Comparable(keys, rows)
    ensures SortsTo(keys, rows, InsertionSort(keys, rows))
  {
    if rows != [] {
      var rest := rows[1..];
      assert forall r :: r in rest ==> r in rows;
      InsertionSortSorts(keys, rest);
      var sorted := InsertionSort(keys, rest);
      assert rows[0] in rows && rows == [rows[0]] + rest;
      InsertAdds(keys, rows[0], sorted);
      forall r | r in sorted
        ensures r in rows
      {
        assert r in multiset(sorted);
      }
      InsertSorts(keys, rows[0], sorted, rows);
    }
  }

  // ---- the heap

  /** Removes a largest row; when several tie it may be any of them. */
  method PopTop(keys: seq<SortKey>, heap: seq<Row>) returns (top: Row, rest: seq<Row>)
    requires heap != [] && Comparable(keys, heap)
    ensures IsLargest(keys, heap, top)
    ensures multiset(rest) + multiset{top} == multiset(heap) && |rest| == |heap| - 1
  {
    var best := 0;
    var i := 1;
    BeforeIsIrreflexive(keys, heap[0]);
    while i < |heap|
      invariant 0 <= best < i <= |heap|
      invariant forall j :: 0 <= j < i ==> !Before(keys, heap[best], heap[j])
    {
      if Before(keys, heap[best], heap[i]) {
        forall j | 0 <= j < i
          ensures !Before(keys, heap[i], heap[j])
        {
          ComparatorIsStrictWeakOrder(keys, heap, heap[best], heap[i], heap[j]);
        }
        best := i;
      }
      BeforeIsIrreflexive(keys, heap[i]);
      i := i + 1;
    }
    top := heap[best];
    rest := heap[..best] + heap[best + 1..];
    RemovedOne(heap, best);
  }

  lemma RemovedOne(rows: seq<Row>, i: nat)
    requires i < |rows|
    ensures multiset(rows[..i] + rows[i + 1..]) + multiset{rows[i]} == multiset(rows)
  {
    assert rows == rows[..i] + [rows[i]] + rows[i + 1..];
  }

  /** Dropping a largest row after a push leaves every dropped row behind every kept one. */
  lemma DropKeepsOrder(keys: seq<SortKey>, all: seq<Row>, kept: seq<Row>, dropped: seq<Row>, top: Row, rest: seq<Row>,
                       row: Row)
    requires Comparable(keys, all) && AllIn(kept + [row], all) && AllIn(dropped, all)
    requires NoneBefore(keys, dropped, kept)
    requires IsLargest(keys, kept + [row], top)
    requires multiset(rest) + multiset{top} == multiset(kept + [row])
    ensures NoneBefore(keys, dropped + [top], rest)
  {
    forall x, y | x in dropped + [top] && y in rest
      ensures !Before(keys, x, y)
    {
      assert y in multiset(rest);
      assert y in multiset(kept + [row]);
      assert y in kept + [row];
      if x in dropped {
        if top in kept {
          NotBeforeIsTransitive(keys, x, top, y);
        } else {
          TopIsRow(kept, rest, top, row);
          assert y in multiset(kept);
        }
      }
    }
  }

  /** If the row that left is not one of the kept ones, it is the row just pushed. */
  lemma TopIsRow(kept: seq<Row>, rest: seq<Row>, top: Row, row: Row)
    requires multiset(rest) + multiset{top} == multiset(kept + [row])
    requires top !in kept
    ensures top == row && multiset(rest) == multiset(kept)
  {
    assert top in multiset(kept + [row]);
    assert multiset(kept + [row]) == multiset(kept) + multiset{row};
    assert multiset(rest) == multiset(kept) + multiset{row} - multiset{top};
  }

  class TopNExecutor {
    const orderBy: seq<SortKey>
    const n: nat
    /** The stack Next drains, its top first. */
    var tuples: seq<Row>

    constructor (orderBy: seq<SortKey>, n: nat)
      ensures this.orderBy == orderBy && this.n == n && tuples == []
    {
      this.orderBy, this.n, tuples := orderBy, n, [];
    }

    /** Keeps the n smallest rows seen so far in a heap whose top is the largest, then stacks them. */
    method Init(rows: seq<Row>)
      requires Comparable(orderBy, rows)
      requires tuples == []
      modifies this`tuples
      ensures IsTop(orderBy, n, rows, tuples)
    {
      var heap: seq<Row> := [];
      ghost var dropped: seq<Row> := [];
      var i := 0;
      while i < |rows|
        invariant 0 <= i <= |rows|
        invariant tuples == []
        invariant multiset(heap) + multiset(dropped) == multiset(rows[..i])
        invariant |heap| == if n < i then n else i
        invariant NoneBefore(orderBy, dropped, heap)
        invariant |heap| < n ==> dropped == []
      {
        assert rows[..i + 1] == rows[..i] + [rows[i]];
        SeenWithin(rows, i, heap, dropped);
        heap, dropped := Push(heap, rows[i], rows, dropped);
        i := i + 1;
      }
      assert rows[..i] == rows;
      Drain(heap, rows, dropped);
    }

    /** Pushes one row and pops a largest one if the heap has grown past n. */
    method Push(kept: seq<Row>, row: Row, ghost all: seq<Row>, ghost dropped: seq<Row>)
      returns (heap: seq<Row>, ghost out: seq<Row>)
      requires Comparable(orderBy, all) && AllIn(kept, all) && row in all && AllIn(dropped, all)
      requires |kept| <= n && NoneBefore(orderBy, dropped, kept)
      requires |kept| < n ==> dropped == []
      ensures multiset(heap) + multiset(out) == multiset(kept) + multiset(dropped) + multiset{row}
      ensures |heap| == if |kept| < n then |kept| + 1 else n
      ensures NoneBefore(orderBy, out, heap)
      ensures |heap| < n ==> out == []
    {
      heap, out := kept + [row], dropped;
      assert multiset(heap) == multiset(kept) + multiset{row};
      if |heap| > n {
        var top, rest := PopTop(orderBy, heap);
        DropKeepsOrder(orderBy, all, kept, dropped, top, rest, row);
        heap, out := rest, dropped + [top];
        assert multiset(rest) + multiset(out) == (multiset(rest) + multiset{top}) + multiset(dropped);
      }
      assert multiset(kept) + multiset(dropped) + multiset{row} == (multiset(kept) + multiset{row}) + multiset(dropped);
    }

    method Drain(kept: seq<Row>, ghost rows: seq<Row>, ghost dropped: seq<Row>)
      requires Comparable(orderBy, rows)
      requires tuples == []
      requires multiset(kept) + multiset(dropped) == multiset(rows)
      requires |kept| == if n < |rows| then n else |rows|
      requires NoneBefore(orderBy, dropped, kept)
      modifies this`tuples
      ensures IsTop(orderBy, n, rows, tuples)
    {
      var heap := kept;
      PartsWithin(kept, dropped, rows);
      while heap != []
        invariant multiset(heap) + multiset(tuples) == multiset(kept)
        invariant Sorted(orderBy, tuples) && NoneBefore(orderBy, tuples, heap)
        decreases |heap|
      {
        PartsWithin(heap, tuples, kept);
        var top, rest := PopTop(orderBy, heap);
        StackTop(orderBy, heap, tuples, top, rest);
        tuples := [top] + tuples;
        heap := rest;
      }
      KeptAreTop(orderBy, n, rows, kept, dropped, tuples);
    }

    /** Takes the next row off the stack, if any. */
    method Next() returns (row: Option<Row>)
      modifies this`tuples
      ensures old(tuples) == [] ==> row == None && tuples == []
      ensures old(tuples) != [] ==> row == Some(old(tuples)[0]) && tuples == old(tuples)[1..]
    {
      if tuples == [] {
        return None;
      }
      row := Some(tuples[0]);
      tuples := tuples[1..];
    }
  }

  lemma SeenWithin(rows: seq<Row>, i: nat, heap: seq<Row>, dropped: seq<Row>)
    requires i <= |rows| && multiset(heap) + multiset(dropped) == multiset(rows[..i])
    ensures AllIn(heap, rows) && AllIn(dropped, rows)
  {
    PartsWithin(heap, dropped, rows[..i]);
  }

  lemma StackTop(keys: seq<SortKey>, heap: seq<Row>, tuples: seq<Row>, top: Row, rest: seq<Row>)
    requires IsLargest(keys, heap, top)
    requires multiset(rest) + multiset{top} == multiset(heap)
    requires Sorted(keys, tuples) && NoneBefore(keys, tuples, heap)
    ensures Sorted(keys, [top] + tuples) && NoneBefore(keys, [top] + tuples, rest)
  {
    SortedConcat(keys, [top], tuples);
    forall x | x in rest
      ensures x in heap
    {
      assert x in multiset(rest);
      assert x in multiset(heap);
    }
  }

  /** The kept rows in order, followed by the dropped ones in order, are a sorted arrangement of the input. */
  lemma KeptAreTop(keys: seq<SortKey>, n: nat, rows: seq<Row>, kept: seq<Row>, dropped: seq<Row>, output: seq<Row>)
    requires Comparable(keys, rows)
    requires multiset(kept) + multiset(dropped) == multiset(rows)
    requires |kept| == if n < |rows| then n else |rows|
    requires NoneBefore(keys, dropped, kept)
    requires multiset(output) == multiset(kept) && Sorted(keys, output)
    ensures IsTop(keys, n, rows, output)
  {
    PartsWithin(kept, dropped, rows);
    InsertionSortSorts(keys, dropped);
    var rest := InsertionSort(keys, dropped);
    forall x, y | x in rest && y in output
      ensures !Before(keys, x, y)
    {
      assert x in multiset(rest) && y in multiset(output);
      assert x in dropped && y in kept;
    }
    SortedConcat(keys, output, rest);
    var all := output + rest;
    assert multiset(all) == multiset(rows);
    assert |output| == |multiset(output)| == |kept|;
    assert |all| == |multiset(all)| == |rows|;
    assert all[..|output|] == output;
    assert output == Prefix(all, n);
  }
}
