/**
 The waits-for graph of the deadlock detector and the depth-first search that
 looks for a cycle in it (src/concurrency/lock_manager.cpp).

 The graph maps a waiting transaction to the list of transactions it waits for.
 `Dfs` follows the recursive closure of `HasCycle`; what it reports is related
 here to walks and cycles, which are defined without it.
 */
module WaitsFor {
  import opened Collections

  type TxnId = int
  const INVALID_TXN_ID: TxnId := -1

  type Graph = map<TxnId, seq<TxnId>>

  predicate Edge(g: Graph, a: TxnId, b: TxnId) {
    a in g && b in g[a]
  }

  function Nodes(g: Graph): set<TxnId> {
    g.Keys + set a, b | a in g && b in g[a] :: b
  }

  /** Transaction ids are handed out from 0 upwards, so -1 can mean "none". */
  predicate ValidIds(g: Graph) {
    forall v :: v in Nodes(g) ==> 0 <= v
  }

  // ---------------------------------------------------------------- walks

  ghost predicate Walk(g: Graph, p: seq<TxnId>) {
    && p != []
    && forall i, j :: 0 <= i < j < |p| && j == i + 1 ==> Edge(g, p[i], p[j])
  }

  /** A closed walk with at least one edge. */
  ghost predicate Cycle(g: Graph, c: seq<TxnId>) {
    Walk(g, c) && 2 <= |c| && c[0] == c[|c| - 1]
  }

  ghost predicate Cyclic(g: Graph) {
    exists c :: Cycle(g, c)
  }

  ghost predicate Reaches(g: Graph, a: TxnId, b: TxnId) {
    exists p :: Walk(g, p) && p[0] == a && p[|p| - 1] == b
  }

  ghost predicate OnCycle(g: Graph, v: TxnId) {
    exists c :: Cycle(g, c) && v in c
  }

  ghost predicate Distinct(p: seq<TxnId>) {
    forall i, j :: 0 <= i < j < |p| ==> p[i] != p[j]
  }

  ghost function Elements(p: seq<TxnId>): set<TxnId> {
    set x | x in p
  }

  /** A repetition-free walk whose last node has an edge back to position h. */
  ghost predicate Lasso(g: Graph, w: seq<TxnId>, h: nat) {
    && Walk(g, w)
    && Distinct(w)
    && h < |w|
    && Edge(g, w[|w| - 1], w[h])
  }

  ghost predicate IsMaxOf(m: TxnId, s: set<TxnId>) {
    m in s && forall x :: x in s ==> x <= m
  }

  lemma WalkSlice(g: Graph, p: seq<TxnId>, lo: nat, hi: nat)
    requires Walk(g, p) && lo < hi <= |p|
    ensures Walk(g, p[lo..hi])
  {
  }

  lemma WalkExtend(g: Graph, p: seq<TxnId>, v: TxnId)
    requires Walk(g, p) && Edge(g, p[|p| - 1], v)
    ensures Walk(g, p + [v])
  {
  }

  lemma WalkConcat(g: Graph, p: seq<TxnId>, q: seq<TxnId>)
    requires Walk(g, p) && Walk(g, q) && p[|p| - 1] == q[0]
    ensures Walk(g, p + q[1..])
  {
  }

  /** The node waits, possibly through others, for a transaction on a cycle. */
  ghost predicate Live(g: Graph, v: TxnId) {
    exists c :: OnCycle(g, c) && Reaches(g, v, c)
  }

  /** No walk from v meets a node twice. */
  ghost predicate SimpleFrom(g: Graph, v: TxnId) {
    forall p :: Walk(g, p) && p[0] == v ==> Distinct(p)
  }

  /** From a node on a cycle a walk leads back to it. */
  lemma CycleFrom(g: Graph, v: TxnId) returns (c: seq<TxnId>)
    requires OnCycle(g, v)
    ensures Cycle(g, c) && c[0] == v
  {
    var d :| Cycle(g, d) && v in d;
    var i :| 0 <= i < |d| && d[i] == v;
    var n := |d| - 1;
    if i == n {
      c := d;
    } else {
      WalkSlice(g, d, i, |d|);
      WalkSlice(g, d, 0, i + 1);
      WalkConcat(g, d[i..], d[..i + 1]);
      c := d[i..] + d[..i + 1][1..];
      assert |c| == |d|;
      assert i > 0 ==> c[|c| - 1] == d[..i + 1][i];
      assert i == 0 ==> c[|c| - 1] == d[i..][n];
    }
  }

  lemma LiveRepeats(g: Graph, v: TxnId)
    requires Live(g, v)
    ensures !SimpleFrom(g, v)
  {
    var c :| OnCycle(g, c) && Reaches(g, v, c);
    var p :| Walk(g, p) && p[0] == v && p[|p| - 1] == c;
    var d := CycleFrom(g, c);
    WalkConcat(g, p, d);
    var q := p + d[1..];
    assert q[|p| - 1] == c && q[|q| - 1] == d[|d| - 1] && q[0] == v;
    assert !Distinct(q);
  }

  // ------------------------------------------------------ the DFS closure

  function Max(a: TxnId, b: TxnId): TxnId {
    if a < b then b else a
  }

  /** `dfs(id)` with the set of ids on the current path passed in. */
  function Dfs(g: Graph, id: TxnId, path: set<TxnId>): TxnId
    decreases Nodes(g) - path, 1, 0
  {
    if id !in g then INVALID_TXN_ID else DfsSuccs(g, id, g[id], path)
  }

  /** The loop of `dfs(id)` over the successors not yet tried. */
  function DfsSuccs(g: Graph, id: TxnId, succs: seq<TxnId>, path: set<TxnId>): TxnId
    requires forall s :: s in succs ==> Edge(g, id, s)
    decreases Nodes(g) - path, 0, |succs|
  {
    if succs == [] then INVALID_TXN_ID
    else if succs[0] in path then Max(id, succs[0])
    else
      assert Edge(g, id, succs[0]) && succs[0] in Nodes(g);
      var temp := Dfs(g, succs[0], path + {succs[0]});
      if temp == INVALID_TXN_ID then DfsSuccs(g, id, succs[1..], path) else Max(id, temp)
  }

  /** No walk from id comes back to a node of the path. */
  ghost predicate NoReturn(g: Graph, id: TxnId, path: set<TxnId>) {
    forall p, j :: Walk(g, p) && p[0] == id && 1 <= j < |p| ==> p[j] !in path
  }

  ghost predicate NoReturnVia(g: Graph, s: TxnId, path: set<TxnId>) {
    s !in path && NoReturn(g, s, path + {s}) && SimpleFrom(g, s)
  }

  /** If no successor leads back to the path or repeats a node, neither does the node itself. */
  lemma NoReturnFrom(g: Graph, id: TxnId, path: set<TxnId>)
    requires id in path && forall s :: Edge(g, id, s) ==> NoReturnVia(g, s, path)
    ensures NoReturn(g, id, path) && SimpleFrom(g, id)
  {
    forall p | Walk(g, p) && p[0] == id
      ensures Distinct(p) && forall j :: 1 <= j < |p| ==> p[j] !in path
    {
      if |p| > 1 {
        assert Edge(g, p[0], p[1]);
        assert NoReturnVia(g, p[1], path);
        WalkSlice(g, p, 1, |p|);
        var q := p[1..];
        assert Walk(g, q) && q[0] == p[1];
        assert Distinct(q);
        assert forall j :: 1 <= j < |p| ==> p[j] == q[j - 1];
        assert forall j :: 1 <= j < |q| ==> q[j] !in path + {p[1]};
      }
    }
  }

  /** A search that finds nothing: no walk from id comes back to the path, meets a node twice or reaches a cycle. */
  lemma {:induction false} DfsNone(g: Graph, id: TxnId, path: set<TxnId>)
    requires ValidIds(g) && id in path
    requires Dfs(g, id, path) == INVALID_TXN_ID
    ensures NoReturn(g, id, path) && SimpleFrom(g, id) && !Live(g, id)
    decreases Nodes(g) - path, 1, 0
  {
    if id in g { DfsSuccsNone(g, id, g[id], path); }
    NoReturnFrom(g, id, path);
    if Live(g, id) { LiveRepeats(g, id); }
  }

  lemma {:induction false} DfsSuccsNone(g: Graph, id: TxnId, succs: seq<TxnId>, path: set<TxnId>)
    requires ValidIds(g)
    requires forall s :: s in succs ==> Edge(g, id, s)
    requires DfsSuccs(g, id, succs, path) == INVALID_TXN_ID
    ensures forall s :: s in succs ==> NoReturnVia(g, s, path)
    decreases Nodes(g) - path, 0, |succs|
  {
    if succs != [] {
      assert Edge(g, id, succs[0]) && id in Nodes(g) && succs[0] in Nodes(g);
      DfsNone(g, succs[0], path + {succs[0]});
      DfsSuccsNone(g, id, succs[1..], path);
    }
  }

  /** The first successor in list order that is live. */
  ghost function FirstLive(g: Graph, succs: seq<TxnId>): Option<TxnId> {
    if succs == [] then None else if Live(g, succs[0]) then Some(succs[0]) else FirstLive(g, succs[1..])
  }

  /** b is the first live successor of a. */
  ghost predicate GoesTo(g: Graph, a: TxnId, b: TxnId) {
    a in g && FirstLive(g, g[a]) == Some(b)
  }

  /** What comes after position i of a lasso. */
  function NextOn(w: seq<TxnId>, h: nat, i: nat): TxnId
    requires h < |w| && i < |w|
  {
    if i + 1 < |w| then w[i + 1] else w[h]
  }

  /** From position `from` on the lasso goes to the first live successor. */
  ghost predicate FollowsLive(g: Graph, w: seq<TxnId>, h: nat, from: nat)
    requires h < |w|
  {
    forall i :: from <= i < |w| ==> GoesTo(g, w[i], NextOn(w, h, i))
  }

  /** The search below the walk w has run into the lasso (w', h), and m is the largest id from the end of w on. */
  ghost predicate Found(g: Graph, w: seq<TxnId>, w': seq<TxnId>, h: nat, m: TxnId) {
    w != [] && w <= w' && Lasso(g, w', h) && IsMaxOf(m, Elements(w'[|w| - 1..]) + {w'[h]}) && FollowsLive(g, w', h, |w|)
  }

  lemma {:induction false} DfsSome(g: Graph, id: TxnId, w: seq<TxnId>) returns (w': seq<TxnId>, h: nat)
    requires ValidIds(g)
    requires Walk(g, w) && Distinct(w) && w[|w| - 1] == id
    requires Dfs(g, id, Elements(w)) != INVALID_TXN_ID
    ensures Found(g, w, w', h, Dfs(g, id, Elements(w))) && FollowsLive(g, w', h, |w| - 1)
    decreases Nodes(g) - Elements(w), 1, 0
  {
    w', h := DfsSuccsSome(g, id, g[id], w);
    assert w'[|w| - 1] == w[|w| - 1];
  }

  lemma {:induction false} DfsSuccsSome(g: Graph, id: TxnId, succs: seq<TxnId>, w: seq<TxnId>)
    returns (w': seq<TxnId>, h: nat)
    requires ValidIds(g)
    requires Walk(g, w) && Distinct(w) && w[|w| - 1] == id
    requires forall s :: s in succs ==> Edge(g, id, s)
    requires DfsSuccs(g, id, succs, Elements(w)) != INVALID_TXN_ID
    ensures Found(g, w, w', h, DfsSuccs(g, id, succs, Elements(w)))
    ensures FirstLive(g, succs) == Some(NextOn(w', h, |w| - 1))
    decreases Nodes(g) - Elements(w), 0, |succs|
  {
    var s := succs[0];
    assert Edge(g, id, s) && s in Nodes(g);
    if s in w {
      h :| 0 <= h < |w| && w[h] == s;
      w' := w;
      FoundHere(g, w, h);
      FirstIsLive(g, succs, w, h, h);
    } else {
      var ws := w + [s];
      WalkExtend(g, w, s);
      assert Elements(ws) == Elements(w) + {s};
      if Dfs(g, s, Elements(ws)) == INVALID_TXN_ID {
        DfsNone(g, s, Elements(ws));
        w', h := DfsSuccsSome(g, id, succs[1..], w);
      } else {
        w', h := DfsSome(g, s, ws);
        FoundBelow(g, w, s, w', h, Dfs(g, s, Elements(ws)));
        FirstIsLive(g, succs, w', h, |w|);
      }
    }
  }

  lemma FoundHere(g: Graph, w: seq<TxnId>, h: nat)
    requires Walk(g, w) && Distinct(w) && h < |w| && Edge(g, w[|w| - 1], w[h])
    ensures Found(g, w, w, h, Max(w[|w| - 1], w[h]))
  {
    assert w[|w| - 1..] == [w[|w| - 1]];
  }

  lemma FoundBelow(g: Graph, w: seq<TxnId>, s: TxnId, w': seq<TxnId>, h: nat, m: TxnId)
    requires w != [] && Found(g, w + [s], w', h, m) && FollowsLive(g, w', h, |w|)
    ensures Found(g, w, w', h, Max(w[|w| - 1], m)) && |w| < |w'| && w'[|w|] == s
  {
    PrefixOfLonger(w, s, w');
    MaxWithHead(w', |w| - 1, h, m);
  }

  lemma PrefixOfLonger(w: seq<TxnId>, s: TxnId, w': seq<TxnId>)
    requires w != [] && w + [s] <= w'
    ensures w <= w' && |w| < |w'| && w'[|w|] == s && w'[|w| - 1] == w[|w| - 1]
  {
    var ws := w + [s];
    assert w'[..|ws|] == ws;
    assert w'[|w| - 1] == ws[|w| - 1] && w'[|w|] == ws[|w|];
    assert w == ws[..|w|] == w'[..|w|];
  }

  lemma FirstIsLive(g: Graph, succs: seq<TxnId>, w: seq<TxnId>, h: nat, k: nat)
    requires Lasso(g, w, h) && k < |w| && succs != [] && succs[0] == w[k]
    ensures FirstLive(g, succs) == Some(w[k])
  {
    LassoReachesCycle(g, w, h, k);
  }

  lemma LassoHasCycle(g: Graph, w: seq<TxnId>, h: nat)
    requires Lasso(g, w, h)
    ensures Cycle(g, w[h..] + [w[h]])
  {
    WalkSlice(g, w, h, |w|);
    WalkExtend(g, w[h..], w[h]);
  }

  /** Every node of a lasso is live and has an edge out. */
  lemma LassoReachesCycle(g: Graph, w: seq<TxnId>, h: nat, k: nat)
    requires Lasso(g, w, h) && k < |w|
    ensures w[k] in g && g[w[k]] != [] && Live(g, w[k])
  {
    LassoHasCycle(g, w, h);
    var last := |w| - 1;
    assert k < last ==> Edge(g, w[k], w[k + 1]);
    WalkSlice(g, w, k, |w|);
    var tail := w[k..];
    assert tail[0] == w[k] && tail[|tail| - 1] == w[last];
    assert Reaches(g, w[k], w[last]);
    assert w[h..][last - h] == w[last];
    assert w[last] in w[h..] + [w[h]];
    assert OnCycle(g, w[last]);
  }

  lemma MaxWithHead(w: seq<TxnId>, j: nat, h: nat, m: TxnId)
    requires j + 1 < |w| && h < |w| && IsMaxOf(m, Elements(w[j + 1..]) + {w[h]})
    ensures IsMaxOf(if m < w[j] then w[j] else m, Elements(w[j..]) + {w[h]})
  {
    assert w[j..] == [w[j]] + w[j + 1..];
    assert Elements(w[j..]) == {w[j]} + Elements(w[j + 1..]);
  }

  // ------------------------------------------------------------- HasCycle

  ghost predicate IsLeast(m: TxnId, keys: set<TxnId>) {
    m in keys && forall x :: x in keys ==> m <= x
  }

  /** The keys in increasing order. */
  ghost function Ascending(keys: set<TxnId>): (s: seq<TxnId>)
    ensures forall x :: x in s <==> x in keys
    ensures forall i, j :: 0 <= i < j < |s| ==> s[i] < s[j]
  {
    if keys == {} then []
    else
      LeastExists(keys);
      var m :| IsLeast(m, keys);
      [m] + Ascending(keys - {m})
  }

  lemma {:induction false} LeastExists(keys: set<TxnId>)
    requires keys != {}
    ensures exists m :: IsLeast(m, keys)
  {
    var k := Pick(keys);
    if keys == {k} {
      assert IsLeast(k, keys);
    } else {
      assert keys == (keys - {k}) + {k};
      LeastExists(keys - {k});
      var m :| IsLeast(m, keys - {k});
      assert IsLeast(if k < m then k else m, keys);
    }
  }

  /**
   The sorted list of starting points: the vector is created with one zero per
   key and the keys are pushed behind the zeros, so the search begins at id 0
   whether or not that transaction waits.
   */
  ghost function Starts(g: Graph): seq<TxnId> {
    seq(|g|, _ => 0) + Ascending(g.Keys)
  }

  function FirstVictim(g: Graph, starts: seq<TxnId>): TxnId {
    if starts == [] then INVALID_TXN_ID
    else
      var v := Dfs(g, starts[0], {starts[0]});
      if v != INVALID_TXN_ID then v else FirstVictim(g, starts[1..])
  }

  /** The id `HasCycle` stores, or -1 when it returns false. */
  ghost function VictimOf(g: Graph): TxnId {
    FirstVictim(g, Starts(g))
  }

  lemma {:induction false} FirstVictimNone(g: Graph, starts: seq<TxnId>)
    requires ValidIds(g)
    requires FirstVictim(g, starts) == INVALID_TXN_ID
    ensures forall s :: s in starts ==> NoReturn(g, s, {s}) && !Live(g, s)
  {
    if starts != [] {
      DfsNone(g, starts[0], {starts[0]});
      FirstVictimNone(g, starts[1..]);
    }
  }

  lemma {:induction false} FirstVictimSome(g: Graph, starts: seq<TxnId>) returns (w: seq<TxnId>, h: nat)
    requires ValidIds(g)
    requires FirstVictim(g, starts) != INVALID_TXN_ID
    ensures Lasso(g, w, h) && FollowsLive(g, w, h, 0) && FirstLive(g, starts) == Some(w[0])
    ensures IsMaxOf(FirstVictim(g, starts), Elements(w))
  {
    var s := starts[0];
    if Dfs(g, s, {s}) != INVALID_TXN_ID {
      assert Elements([s]) == {s};
      w, h := DfsSome(g, s, [s]);
      assert Found(g, [s], w, h, Dfs(g, s, {s}));
      assert w[0] == [s][0];
      assert w[0..] == w;
      assert Elements(w[0..]) + {w[h]} == Elements(w);
      LassoReachesCycle(g, w, h, 0);
    } else {
      DfsNone(g, s, {s});
      w, h := FirstVictimSome(g, starts[1..]);
    }
  }

  /** `HasCycle` returns true exactly when the graph has a directed cycle. */
  lemma HasCycleIffCyclic(g: Graph)
    requires ValidIds(g)
    ensures VictimOf(g) != INVALID_TXN_ID <==> Cyclic(g)
  {
    if VictimOf(g) != INVALID_TXN_ID {
      var w, h := FirstVictimSome(g, Starts(g));
      LassoHasCycle(g, w, h);
    } else {
      FirstVictimNone(g, Starts(g));
      forall c ensures !Cycle(g, c) {
        if Walk(g, c) && 2 <= |c| {
          assert Edge(g, c[0], c[1]);
          assert c[0] in Starts(g);
        }
      }
    }
  }

  // ------------------------------------------------------------ the trail

  /** v is the least key from which a cycle can be reached. */
  ghost predicate IsLeastLive(g: Graph, v: TxnId) {
    v in g && Live(g, v) && forall u :: u in g && Live(g, u) ==> v <= u
  }

  /**
   A walk from the least live key that goes from each node to the first of its
   successors that is live. The graph alone determines these walks; the search
   is not mentioned.
   */
  ghost predicate TrailWalk(g: Graph, p: seq<TxnId>) {
    p != [] && IsLeastLive(g, p[0]) && LiveSteps(g, p)
  }

  ghost predicate LiveSteps(g: Graph, p: seq<TxnId>) {
    forall i :: 0 <= i < |p| - 1 ==> GoesTo(g, p[i], p[i + 1])
  }

  ghost predicate OnTrail(g: Graph, v: TxnId) {
    exists p :: TrailWalk(g, p) && v in p
  }

  /** The first live start is the least live key: the zeros in front add nothing. */
  lemma FirstStartIsLeast(g: Graph, v: TxnId)
    requires ValidIds(g) && FirstLive(g, Starts(g)) == Some(v) && v in g
    ensures IsLeastLive(g, v)
  {
    var starts := Starts(g);
    var i := FirstLiveAt(g, starts, v);
    var asc := Ascending(g.Keys);
    forall u | u in g && Live(g, u) ensures v <= u {
      assert u in asc;
      var j :| 0 <= j < |asc| && asc[j] == u;
      assert starts[|g| + j] == u;
      if i < |g| {
        assert v == 0 && u in Nodes(g);
      } else {
        assert v == asc[i - |g|] && i <= |g| + j;
      }
    }
  }

  lemma {:induction false} FirstLiveAt(g: Graph, succs: seq<TxnId>, v: TxnId) returns (i: nat)
    requires FirstLive(g, succs) == Some(v)
    ensures i < |succs| && succs[i] == v && Live(g, v) && forall j :: 0 <= j < i ==> !Live(g, succs[j])
  {
    if Live(g, succs[0]) {
      i := 0;
    } else {
      var k := FirstLiveAt(g, succs[1..], v);
      i := k + 1;
      assert forall j :: 1 <= j < i ==> succs[j] == succs[1..][j - 1];
    }
  }

  /** Trail walks never leave a lasso that starts like them and follows the first live successor. */
  lemma {:induction false} TrailStaysOnLasso(g: Graph, w: seq<TxnId>, h: nat, p: seq<TxnId>, i: nat)
    requires h < |w| && FollowsLive(g, w, h, 0) && IsLeastLive(g, w[0]) && TrailWalk(g, p) && i < |p|
    ensures p[i] in w
  {
    if i == 0 {
      assert p[0] == w[0];
    } else {
      TrailStaysOnLasso(g, w, h, p, i - 1);
      var k :| 0 <= k < |w| && w[k] == p[i - 1];
      assert GoesTo(g, p[i - 1], p[i - 1 + 1]) && GoesTo(g, w[k], NextOn(w, h, k));
    }
  }

  /** The nodes of the lasso are exactly the nodes of the trail. */
  lemma LassoIsTrail(g: Graph, w: seq<TxnId>, h: nat, v: TxnId)
    requires h < |w| && FollowsLive(g, w, h, 0) && IsLeastLive(g, w[0])
    ensures v in w <==> OnTrail(g, v)
  {
    LassoSteps(g, w, h);
    if OnTrail(g, v) {
      var p :| TrailWalk(g, p) && v in p;
      TrailWithinLasso(g, w, h, p, v);
    }
  }

  lemma LassoSteps(g: Graph, w: seq<TxnId>, h: nat)
    requires h < |w| && FollowsLive(g, w, h, 0)
    ensures LiveSteps(g, w)
  {
    forall i | 0 <= i < |w| - 1 ensures GoesTo(g, w[i], w[i + 1]) {
      assert NextOn(w, h, i) == w[i + 1];
    }
  }

  lemma TrailWithinLasso(g: Graph, w: seq<TxnId>, h: nat, p: seq<TxnId>, v: TxnId)
    requires h < |w| && FollowsLive(g, w, h, 0) && IsLeastLive(g, w[0]) && TrailWalk(g, p) && v in p
    ensures v in w
  {
    var i :| 0 <= i < |p| && p[i] == v;
    TrailStaysOnLasso(g, w, h, p, i);
  }

  /**
   What a reported victim is: the largest id on the trail. It waits for somebody
   and reaches a cycle. The search itself exhibits the trail as a walk that runs
   back into itself.
   */
  lemma VictimIsMaxOfTrail(g: Graph) returns (w: seq<TxnId>, h: nat)
    requires ValidIds(g) && VictimOf(g) != INVALID_TXN_ID
    ensures Lasso(g, w, h) && IsLeastLive(g, w[0]) && forall v :: v in w <==> OnTrail(g, v)
    ensures OnTrail(g, VictimOf(g)) && forall v :: OnTrail(g, v) ==> v <= VictimOf(g)
    ensures VictimOf(g) in g && g[VictimOf(g)] != [] && Live(g, VictimOf(g))
  {
    w, h := FirstVictimSome(g, Starts(g));
    LassoReachesCycle(g, w, h, 0);
    FirstStartIsLeast(g, w[0]);
    var v := VictimOf(g);
    assert v in Elements(w);
    var k :| 0 <= k < |w| && w[k] == v;
    LassoReachesCycle(g, w, h, k);
    forall u ensures u in w <==> OnTrail(g, u) {
      LassoIsTrail(g, w, h, u);
    }
    assert forall u :: u in w ==> u in Elements(w);
  }

  /**
   The interface calls the victim the newest transaction in the cycle. It is on
   a cycle exactly when every trail node that is on none is smaller than some
   trail node that is on one.
   */
  lemma VictimOnCycleIff(g: Graph)
    requires ValidIds(g) && VictimOf(g) != INVALID_TXN_ID
    ensures OnCycle(g, VictimOf(g)) <==>
            forall t :: OnTrail(g, t) && !OnCycle(g, t) ==> exists c :: OnTrail(g, c) && OnCycle(g, c) && t < c
  {
    var w, h := VictimIsMaxOfTrail(g);
    var v := VictimOf(g);
    if OnCycle(g, v) {
      forall t | OnTrail(g, t) && !OnCycle(g, t) ensures OnTrail(g, v) && OnCycle(g, v) && t < v {
        assert t <= v;
      }
    }
  }

  /** Where only transactions on cycles wait for cycles, the victim is on one. */
  lemma VictimOnCycleIfNoTails(g: Graph)
    requires ValidIds(g) && VictimOf(g) != INVALID_TXN_ID
    requires forall v :: v in g && Live(g, v) ==> OnCycle(g, v)
    ensures OnCycle(g, VictimOf(g))
  {
    var w, h := VictimIsMaxOfTrail(g);
  }

  /** The search starts at 1 and folds the waiting transaction 5 into the victim of the cycle 2, 3. */
  lemma VictimNeedNotBeOnCycle(g: Graph)
    requires g == map[1 := [5], 5 := [2], 2 := [3], 3 := [2]]
    ensures VictimOf(g) == 5 && !OnCycle(g, 5)
  {
    VictimOfExample(g);
    forall c | Cycle(g, c) ensures 5 !in c {
      OnlyTheCycle(g, c);
    }
  }

  lemma OnlyTheCycle(g: Graph, c: seq<TxnId>)
    requires g == map[1 := [5], 5 := [2], 2 := [3], 3 := [2]]
    requires Cycle(g, c)
    ensures forall k :: 0 <= k < |c| ==> c[k] in {2, 3}
  {
    assert Edge(g, c[0], c[1]);
    LeavesTail(g, c);
    forall k | 0 <= k < |c| ensures c[k] in {2, 3} {
      StaysInPair(g, c, 0, k);
    }
  }

  lemma LeavesTail(g: Graph, c: seq<TxnId>)
    requires g == map[1 := [5], 5 := [2], 2 := [3], 3 := [2]]
    requires Cycle(g, c)
    ensures c[0] in {2, 3}
  {
    var n := |c| - 1;
    assert Edge(g, c[0], c[1]);
    if c[1] in {2, 3} {
      StaysInPair(g, c, 1, n);
    } else if 2 <= n {
      assert Edge(g, c[1], c[2]);
      StaysInPair(g, c, 2, n);
    }
  }

  lemma VictimOfExample(g: Graph)
    requires g == map[1 := [5], 5 := [2], 2 := [3], 3 := [2]]
    ensures VictimOf(g) == 5
  {
    ExampleKeys(g);
    var asc := Ascending(g.Keys);
    FirstOfExample(g.Keys, asc);
    assert Dfs(g, 0, {0}) == INVALID_TXN_ID;
    ZerosSkipped(g, 4, asc);
    DfsExample(g);
  }

  lemma ExampleKeys(g: Graph)
    requires g == map[1 := [5], 5 := [2], 2 := [3], 3 := [2]]
    ensures g.Keys == {1, 5, 2, 3} && |g| == 4
  {
    assert g.Keys == {1, 5, 2, 3};
  }

  lemma FirstOfExample(keys: set<TxnId>, asc: seq<TxnId>)
    requires keys == {1, 5, 2, 3} && asc == Ascending(keys)
    ensures asc != [] && asc[0] == 1
  {
    assert 1 in asc;
    assert asc[0] in keys;
  }

  lemma DfsExample(g: Graph)
    requires g == map[1 := [5], 5 := [2], 2 := [3], 3 := [2]]
    ensures Dfs(g, 1, {1}) == 5
  {
    var p3 := {1} + {5} + {2} + {3};
    assert DfsSuccs(g, 3, [2], p3) == 3;
    assert DfsSuccs(g, 2, [3], {1} + {5} + {2}) == 3;
    assert DfsSuccs(g, 5, [2], {1} + {5}) == 5;
    assert DfsSuccs(g, 1, [5], {1}) == 5;
  }

  lemma {:induction false} ZerosSkipped(g: Graph, n: nat, rest: seq<TxnId>)
    requires Dfs(g, 0, {0}) == INVALID_TXN_ID
    ensures FirstVictim(g, seq(n, _ => 0) + rest) == FirstVictim(g, rest)
  {
    if n == 0 {
      assert seq(0, _ => 0) + rest == rest;
    } else {
      var s := seq(n, _ => 0) + rest;
      assert s[1..] == seq(n - 1, _ => 0) + rest;
      ZerosSkipped(g, n - 1, rest);
    }
  }

  lemma {:induction false} StaysInPair(g: Graph, c: seq<TxnId>, i: nat, j: nat)
    requires g == map[1 := [5], 5 := [2], 2 := [3], 3 := [2]]
    requires Walk(g, c) && i <= j < |c| && c[i] in {2, 3}
    ensures c[j] in {2, 3}
    decreases j - i
  {
    if i < j {
      assert Edge(g, c[i], c[i + 1]);
      StaysInPair(g, c, i + 1, j);
    }
  }

  // ----------------------------------------------- breaking every cycle

  function RemoveFirst(s: seq<TxnId>, x: TxnId): (r: seq<TxnId>)
    ensures x !in s ==> r == s
    ensures x in s ==> |r| == |s| - 1
    ensures forall y :: y != x ==> (y in r <==> y in s)
  {
    if s == [] then []
    else if s[0] == x then s[1..]
    else [s[0]] + RemoveFirst(s[1..], x)
  }

  /** `AddEdge` keeps each list free of repetitions and never leaves one empty. */
  ghost predicate WellFormed(g: Graph) {
    && ValidIds(g)
    && forall k :: k in g ==> g[k] != [] && Distinct(g[k])
  }

  function WithEdge(g: Graph, a: TxnId, b: TxnId): Graph {
    if a !in g then g[a := [b]]
    else if b in g[a] then g
    else g[a := g[a] + [b]]
  }

  function WithoutEdge(g: Graph, a: TxnId, b: TxnId): Graph {
    if a !in g || b !in g[a] then g
    else if RemoveFirst(g[a], b) == [] then g - {a}
    else g[a := RemoveFirst(g[a], b)]
  }

  /** The graph with node v and every edge into it gone; lists that become empty go too. */
  function WithoutNode(g: Graph, v: TxnId): Graph {
    map k | k in g && k != v && RemoveFirst(g[k], v) != [] :: RemoveFirst(g[k], v)
  }

  lemma {:induction false} RemoveFirstDistinct(s: seq<TxnId>, x: TxnId)
    requires Distinct(s)
    ensures Distinct(RemoveFirst(s, x)) && x !in RemoveFirst(s, x)
  {
    if s != [] {
      var t := s[1..];
      assert forall i, j :: 0 <= i < j < |t| ==> t[i] == s[i + 1] && t[j] == s[j + 1];
      if s[0] == x {
        assert forall j :: 0 <= j < |t| ==> t[j] == s[j + 1];
      } else {
        RemoveFirstDistinct(t, x);
        var r := RemoveFirst(t, x);
        assert s[0] !in t;
        assert forall j :: 0 <= j < |r| ==> r[j] in r;
      }
    }
  }

  lemma WithEdgeEdges(g: Graph, a: TxnId, b: TxnId)
    requires WellFormed(g) && 0 <= a && 0 <= b
    ensures WellFormed(WithEdge(g, a, b))
    ensures forall x, y :: Edge(WithEdge(g, a, b), x, y) <==> Edge(g, x, y) || (x == a && y == b)
  {
    var g' := WithEdge(g, a, b);
    forall v | v in Nodes(g') ensures 0 <= v {
      assert v in Nodes(g) || v == a || v == b;
    }
  }

  lemma WithoutNodeEdges(g: Graph, v: TxnId)
    requires WellFormed(g)
    ensures WellFormed(WithoutNode(g, v))
    ensures forall x, y :: Edge(WithoutNode(g, v), x, y) <==> Edge(g, x, y) && x != v && y != v
  {
    var g' := WithoutNode(g, v);
    forall k | k in g ensures Distinct(RemoveFirst(g[k], v)) && v !in RemoveFirst(g[k], v) {
      RemoveFirstDistinct(g[k], v);
    }
    forall x, y | Edge(g, x, y) && x != v && y != v ensures Edge(g', x, y) {
      assert y in RemoveFirst(g[x], v);
    }
    forall n | n in Nodes(g') ensures n in Nodes(g) {
      if n !in g' {
        var a :| a in g' && n in g'[a];
        assert n in g[a];
      }
    }
  }

  /** The victims of the detection loop, in the order in which they are aborted. */
  ghost function Victims(g: Graph): seq<TxnId>
    decreases |g|
  {
    var v := VictimOf(g);
    if v == INVALID_TXN_ID || v !in g then []
    else
      FewerKeys(g, v);
      [v] + Victims(WithoutNode(g, v))
  }

  /** The graph left when the detection loop ends. */
  ghost function Residue(g: Graph): Graph
    decreases |g|
  {
    var v := VictimOf(g);
    if v == INVALID_TXN_ID || v !in g then g
    else
      FewerKeys(g, v);
      Residue(WithoutNode(g, v))
  }

  lemma FewerKeys(g: Graph, v: TxnId)
    requires v in g
    ensures |WithoutNode(g, v)| < |g|
  {
    assert WithoutNode(g, v).Keys <= g.Keys - {v};
    SubsetSize(WithoutNode(g, v).Keys, g.Keys - {v});
  }

  /**
   The detection loop ends with an acyclic graph whose edges are exactly the
   original edges between transactions that were not aborted; every victim was
   waiting, and nobody is aborted when there was no cycle to begin with.
   */
  lemma {:induction false} DetectionBreaksEveryCycle(g: Graph)
    requires WellFormed(g)
    ensures WellFormed(Residue(g)) && !Cyclic(Residue(g))
    ensures forall x, y :: Edge(Residue(g), x, y) <==>
                           Edge(g, x, y) && x !in Victims(g) && y !in Victims(g)
    ensures forall v :: v in Victims(g) ==> v in g
    ensures Distinct(Victims(g))
    ensures Victims(g) == [] <==> !Cyclic(g)
    decreases |g|
  {
    HasCycleIffCyclic(g);
    var v := VictimOf(g);
    if v != INVALID_TXN_ID {
      VictimIsKey(g);
      var g' := WithoutNode(g, v);
      FewerKeys(g, v);
      WithoutNodeEdges(g, v);
      DetectionBreaksEveryCycle(g');
      VictimsGrow(g, g', v, Victims(g'));
      assert Victims(g) == [v] + Victims(g');
    }
  }

  lemma VictimIsKey(g: Graph)
    requires ValidIds(g) && VictimOf(g) != INVALID_TXN_ID
    ensures VictimOf(g) in g
  {
    var _, _ := VictimIsMaxOfTrail(g);
  }

  lemma VictimsGrow(g: Graph, g': Graph, v: TxnId, vs: seq<TxnId>)
    requires v in g && g'.Keys <= g.Keys - {v}
    requires Distinct(vs) && forall u :: u in vs ==> u in g'
    ensures Distinct([v] + vs) && forall u :: u in [v] + vs ==> u in g
  {
    assert forall j :: 0 <= j < |vs| ==> vs[j] in vs;
  }

  // --------------------------------------- a set nobody can leave is cyclic

  ghost predicate WaitsInside(g: Graph, d: set<TxnId>, x: TxnId) {
    exists y :: y in d && Edge(g, x, y)
  }

  ghost predicate Trapped(g: Graph, d: set<TxnId>) {
    forall x {:trigger WaitsInside(g, d, x)} :: x in d ==> WaitsInside(g, d, x)
  }

  lemma {:induction false} WalkInside(g: Graph, d: set<TxnId>, v: TxnId, n: nat) returns (p: seq<TxnId>)
    requires v in d && Trapped(g, d)
    ensures Walk(g, p) && |p| == n + 1 && p[0] == v && forall i :: 0 <= i < |p| ==> p[i] in d
  {
    if n == 0 {
      p := [v];
    } else {
      var q := WalkInside(g, d, v, n - 1);
      assert WaitsInside(g, d, q[n - 1]);
      var y :| y in d && Edge(g, q[n - 1], y);
      WalkExtend(g, q, y);
      p := q + [y];
    }
  }

  lemma {:induction false} Pigeonhole(p: seq<TxnId>, d: set<TxnId>)
    requires forall i :: 0 <= i < |p| ==> p[i] in d
    requires Distinct(p)
    ensures |p| <= |d|
  {
    if p != [] {
      var n := |p| - 1;
      var q := p[..n];
      assert forall i :: 0 <= i < |q| ==> q[i] == p[i] && q[i] in d - {p[n]};
      Pigeonhole(q, d - {p[n]});
    }
  }

  /** Where every member of a finite set has an edge to a member, every member reaches a cycle. */
  lemma TrappedIsLive(g: Graph, d: set<TxnId>, v: TxnId)
    requires v in d && Trapped(g, d)
    ensures Live(g, v)
  {
    var p := WalkInside(g, d, v, |d|);
    assert !Distinct(p) by {
      if Distinct(p) { Pigeonhole(p, d); }
    }
    var i, j :| 0 <= i < j < |p| && p[i] == p[j];
    WalkSlice(g, p, i, j + 1);
    var c := p[i..j + 1];
    assert Cycle(g, c) && c[0] == p[i];
    assert OnCycle(g, p[i]);
    WalkSlice(g, p, 0, i + 1);
    assert Walk(g, p[0..i + 1]) && p[0..i + 1][i] == p[i];
    assert Reaches(g, v, p[i]);
  }

  /** A nonempty finite set in which every member has an edge to a member contains a cycle. */
  lemma TrappedSetIsCyclic(g: Graph, d: set<TxnId>)
    requires d != {} && Trapped(g, d)
    ensures Cyclic(g)
  {
    var v := Pick(d);
    TrappedIsLive(g, d, v);
  }
}
