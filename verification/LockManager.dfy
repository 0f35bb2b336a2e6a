/**
 The lock manager object (src/concurrency/lock_manager.cpp). Its methods update
 the queues, the transactions and the waits-for graph in place; each is tied to
 the step function of the state machine or to the graph functions.
 */
module LockManagerImpl {
  import opened Collections
  import opened WaitsFor
  import opened LockQueue
  import opened LockProtocol
  import opened LockInvariants
  import opened LockRuns
  import opened LockDeadlock
  import opened LockProgress

  // ------------------------------------------------- waits-for edges of a queue

  ghost predicate GrantedTo(rs: seq<Request>, t: TxnId) {
    exists j :: 0 <= j < |rs| && rs[j].granted && rs[j].txn == t
  }

  ghost predicate WaitingFor(rs: seq<Request>, t: TxnId) {
    exists j :: 0 <= j < |rs| && !rs[j].granted && rs[j].txn == t
  }

  lemma GrantedToExtend(rs: seq<Request>, j: nat, t: TxnId)
    requires j < |rs|
    ensures GrantedTo(rs[..j + 1], t) <==> GrantedTo(rs[..j], t) || (rs[j].granted && rs[j].txn == t)
  {
    var a, b := rs[..j], rs[..j + 1];
    assert b == a + [rs[j]];
    if GrantedTo(a, t) {
      var k :| 0 <= k < |a| && a[k].granted && a[k].txn == t;
      assert b[k] == a[k];
    }
    if rs[j].granted && rs[j].txn == t { assert b[j] == rs[j]; }
  }

  lemma WaitingForExtend(rs: seq<Request>, j: nat, t: TxnId)
    requires j < |rs|
    ensures WaitingFor(rs[..j + 1], t) <==> WaitingFor(rs[..j], t) || (!rs[j].granted && rs[j].txn == t)
  {
    var a, b := rs[..j], rs[..j + 1];
    assert b == a + [rs[j]];
    if WaitingFor(a, t) {
      var k :| 0 <= k < |a| && !a[k].granted && a[k].txn == t;
      assert b[k] == a[k];
    }
    if !rs[j].granted && rs[j].txn == t { assert b[j] == rs[j]; }
  }

  lemma QueueEdgeIsWaitsOn(s: State, tg: Target, a: TxnId, b: TxnId)
    requires tg in s.queues && OnePerTxn(s.queues[tg].requests)
    ensures WaitsOnAt(s, a, b, tg) <==>
            WaitingFor(s.queues[tg].requests, a) && GrantedTo(s.queues[tg].requests, b)
  {
    var rs := s.queues[tg].requests;
    LookupIsPosition(rs, a);
    LookupIsPosition(rs, b);
  }

  // --------------------------------------------------------------- sorting

  function InsertSorted(x: TxnId, s: seq<TxnId>): (r: seq<TxnId>)
    requires IsSorted(s)
    ensures IsSorted(r) && multiset(r) == multiset(s) + multiset{x}
  {
    if s == [] then [x]
    else if x <= s[0] then [x] + s
    else
      assert s == [s[0]] + s[1..];
      var t := InsertSorted(x, s[1..]);
      ConsSorted(s[0], t, multiset(s[1..]) + multiset{x});
      [s[0]] + t
  }

  lemma ConsSorted(h: TxnId, t: seq<TxnId>, m: multiset<TxnId>)
    requires IsSorted(t) && multiset(t) == m && forall y :: y in m ==> h <= y
    ensures IsSorted([h] + t)
  {
    assert forall i :: 0 <= i < |t| ==> t[i] in multiset(t);
  }

  predicate IsSorted(s: seq<TxnId>) {
    forall i, j :: 0 <= i < j < |s| ==> s[i] <= s[j]
  }

  /** std::sort on a vector of transaction ids. */
  function SortIds(s: seq<TxnId>): (r: seq<TxnId>)
    ensures IsSorted(r) && multiset(r) == multiset(s)
  {
    if s == [] then []
    else
      assert s == [s[0]] + s[1..];
      InsertSorted(s[0], SortIds(s[1..]))
  }

  lemma FirstIsSmallest(a: seq<TxnId>, x: TxnId)
    requires IsSorted(a) && x in multiset(a)
    ensures a != [] && a[0] <= x
  {
    assert x in a;
  }

  lemma FirstOfSorted(a: seq<TxnId>, b: seq<TxnId>)
    requires IsSorted(a) && IsSorted(b) && multiset(a) == multiset(b) && a != []
    ensures b != [] && a[0] == b[0]
  {
    assert a[0] in multiset(a);
    FirstIsSmallest(b, a[0]);
    assert b[0] in multiset(b);
    FirstIsSmallest(a, b[0]);
  }

  lemma TailMultiset(a: seq<TxnId>)
    requires a != []
    ensures multiset(a[1..]) == multiset(a) - multiset{a[0]}
  {
    assert a == [a[0]] + a[1..];
  }

  lemma {:induction false} SortedUnique(a: seq<TxnId>, b: seq<TxnId>)
    requires IsSorted(a) && IsSorted(b) && multiset(a) == multiset(b)
    ensures a == b
  {
    if a == [] {
      assert |multiset(b)| == 0;
    } else {
      FirstOfSorted(a, b);
      TailMultiset(a);
      TailMultiset(b);
      SortedUnique(a[1..], b[1..]);
      assert a == [a[0]] + a[1..] && b == [b[0]] + b[1..];
    }
  }

  lemma {:induction false} AscendingMultiset(keys: set<TxnId>)
    ensures multiset(Ascending(keys)) == multiset(keys)
  {
    var s := Ascending(keys);
    forall x ensures multiset(s)[x] == multiset(keys)[x] {
      DistinctCount(s, x);
    }
  }

  lemma {:induction false} DistinctCount(s: seq<TxnId>, x: TxnId)
    requires forall i, j :: 0 <= i < j < |s| ==> s[i] < s[j]
    ensures multiset(s)[x] == if x in s then 1 else 0
  {
    if s != [] {
      assert s == [s[0]] + s[1..];
      DistinctCount(s[1..], x);
      assert s[0] !in s[1..];
    }
  }

  lemma StartsAreSorted(g: Graph)
    requires ValidIds(g)
    ensures IsSorted(Starts(g))
    ensures multiset(Starts(g)) == multiset(seq(|g|, _ => 0)) + multiset(g.Keys)
  {
    AscendingMultiset(g.Keys);
    var asc := Ascending(g.Keys);
    forall i | 0 <= i < |asc| ensures 0 <= asc[i] {
      assert asc[i] in g.Keys && asc[i] in Nodes(g);
    }
  }

  lemma {:induction false} RemoveFirstAt(s: seq<TxnId>, k: nat, x: TxnId)
    requires k < |s| && s[k] == x && x !in s[..k]
    ensures RemoveFirst(s, x) == s[..k] + s[k + 1..]
  {
    if k > 0 {
      assert s[0] in s[..k];
      assert s[1..][..k - 1] == s[1..k];
      assert forall y :: y in s[1..k] ==> y in s[..k];
      RemoveFirstAt(s[1..], k - 1, x);
      assert s[..k] + s[k + 1..] == [s[0]] + (s[1..][..k - 1] + s[1..][k..]);
    }
  }

  /** The state with the given transactions set to ABORTED. */
  ghost function AbortAll(s: State, vs: seq<TxnId>): State {
    s.(txns := map t | t in s.txns :: if t in vs then s.txns[t].(state := ABORTED) else s.txns[t])
  }

  class LockManager {
    var queues: map<Target, Queue>
    var txns: map<TxnId, Txn>
    /** Where the thread of a blocked transaction sleeps. */
    var waits: map<TxnId, Wait>
    var waitsFor: Graph
    /** The ids on the path of the running depth-first search. */
    var idset: set<TxnId>

    constructor ()
      ensures View() == INIT && waitsFor == map[] && idset == {}
    {
      queues, txns, waits, waitsFor, idset := map[], map[], map[], map[], {};
    }

    ghost function View(): State
      reads this
    {
      State(queues, txns, waits)
    }

    // ------------------------------------------------------------ locking

    static method FindRequest(rs: seq<Request>, t: TxnId) returns (i: nat)
      ensures i == Position(rs, t)
    {
      i := 0;
      while i < |rs|
        invariant i <= |rs| && Position(rs, t) == i + Position(rs[i..], t)
      {
        if rs[i].txn == t {
          return;
        }
        assert rs[i..][1..] == rs[i + 1..];
        i := i + 1;
      }
    }

    static method FindInsertionPoint(rs: seq<Request>) returns (i: nat)
      ensures i == FirstWaiting(rs)
    {
      i := 0;
      while i < |rs|
        invariant i <= |rs| && FirstWaiting(rs) == i + FirstWaiting(rs[i..])
      {
        if !rs[i].granted {
          return;
        }
        assert rs[i..][1..] == rs[i + 1..];
        i := i + 1;
      }
    }

    method SetState(t: TxnId, st: TxnState)
      requires t in txns
      modifies this`txns
      ensures View() == SetTxnState(old(View()), t, st)
    {
      txns := txns[t := txns[t].(state := st)];
    }

    /** The wait loop entered with the request at position i: grant it or go to sleep. */
    method GrantOrSleep(t: TxnId, tg: Target, rs: seq<Request>, i: nat, upgrading: TxnId, upgrade: bool)
      returns (o: Outcome)
      requires t in txns && i < |rs| && !rs[i].granted
      modifies this`queues, this`txns, this`waits
      ensures (View(), o) == Settle(old(View()), t, tg, rs, i, upgrading, upgrade)
    {
      var ok := CheckGrant(rs, i);
      if !ok {
        queues := queues[tg := Queue(rs, upgrading)];
        waits := waits[t := Wait(tg, upgrade)];
        return Sleeping;
      }
      txns := txns[t := txns[t].(locks := AddLock(txns[t].locks, rs[i].mode, tg, rs[i].oid))];
      queues := queues[tg := Queue(rs[i := rs[i].(granted := true)], if upgrade then INVALID_TXN_ID else upgrading)];
      waits := waits - {t};
      return Returned(true);
    }

    method Request(t: TxnId, m: Mode, tg: Target, oid: Oid) returns (o: Outcome)
      requires t in txns
      modifies this`queues, this`txns, this`waits
      ensures (View(), o) == RequestLock(old(View()), t, m, tg, oid)
    {
      if tg !in queues {
        queues := queues[tg := Queue([LockQueue.Request(t, m, oid, true)], INVALID_TXN_ID)];
        txns := txns[t := txns[t].(locks := AddLock(txns[t].locks, m, tg, oid))];
        return Returned(true);
      }
      var q := queues[tg];
      var i := FindRequest(q.requests, t);
      if i < |q.requests| {
        var held := q.requests[i].mode;
        if held == m {
          return Returned(true);
        }
        if q.upgrading != INVALID_TXN_ID {
          SetState(t, ABORTED);
          return Thrown(UPGRADE_CONFLICT);
        }
        if !UpgradeAllowed(held, m) {
          SetState(t, ABORTED);
          return Thrown(UPGRADE_CONFLICT);
        }
        o := Upgrade(t, m, tg, oid, i);
        return;
      }
      o := GrantOrSleep(t, tg, q.requests + [LockQueue.Request(t, m, oid, false)], |q.requests|, q.upgrading, false);
    }

    /** Replaces the request at position i by a waiting one ahead of the other waiting requests. */
    method Upgrade(t: TxnId, m: Mode, tg: Target, oid: Oid, i: nat) returns (o: Outcome)
      requires t in txns && tg in queues && i == Position(queues[tg].requests, t) < |queues[tg].requests|
      requires queues[tg].requests[i].mode != m && UpgradeAllowed(queues[tg].requests[i].mode, m)
      requires queues[tg].upgrading == INVALID_TXN_ID
      modifies this`queues, this`txns, this`waits
      ensures (View(), o) == RequestLock(old(View()), t, m, tg, oid)
    {
      var q := queues[tg];
      txns := txns[t := txns[t].(locks := DeleteLock(txns[t].locks, q.requests[i].mode, tg, oid))];
      var rest := q.requests[..i] + q.requests[i + 1..];
      var k := FindInsertionPoint(rest);
      ghost var s := View();
      o := GrantOrSleep(t, tg, rest[..k] + [LockQueue.Request(t, m, oid, false)] + rest[k..], k, t, true);
      assert (View(), o) == Settle(s, t, tg, InsertAt(rest, k, LockQueue.Request(t, m, oid, false)), k, t, true);
    }

    method LockTable(t: TxnId, m: Mode, oid: Oid, ghost owner: Rid -> Oid) returns (o: Outcome)
      requires Inv(View(), owner) && Enabled(View(), LockTableCall(t, m, oid), owner)
      modifies this`queues, this`txns, this`waits
      ensures (View(), o) == Apply(old(View()), LockTableCall(t, m, oid), owner) && Inv(View(), owner)
    {
      ApplyKeepsInv(View(), LockTableCall(t, m, oid), owner);
      var e := CheckLock(txns[t], m, false);
      if e.Some? {
        SetState(t, ABORTED);
        return Thrown(e.value);
      }
      o := Request(t, m, Table(oid), oid);
    }

    method LockRow(t: TxnId, m: Mode, oid: Oid, rid: Rid, ghost owner: Rid -> Oid) returns (o: Outcome)
      requires Inv(View(), owner) && Enabled(View(), LockRowCall(t, m, oid, rid), owner)
      modifies this`queues, this`txns, this`waits
      ensures (View(), o) == Apply(old(View()), LockRowCall(t, m, oid, rid), owner) && Inv(View(), owner)
    {
      ApplyKeepsInv(View(), LockRowCall(t, m, oid, rid), owner);
      var e := CheckLock(txns[t], m, true);
      if e.Some? {
        SetState(t, ABORTED);
        return Thrown(e.value);
      }
      e := CheckTableIntentionLock(txns[t].locks, m, oid);
      if e.Some? {
        SetState(t, ABORTED);
        return Thrown(e.value);
      }
      o := Request(t, m, Row(rid), oid);
    }

    /** What a sleeping lock call does each time it is woken. */
    method WakeUp(t: TxnId, ghost owner: Rid -> Oid) returns (o: Outcome)
      requires Inv(View(), owner) && Enabled(View(), Event.WakeUp(t), owner)
      modifies this`queues, this`txns, this`waits
      ensures (View(), o) == Apply(old(View()), Event.WakeUp(t), owner) && Inv(View(), owner)
    {
      ApplyKeepsInv(View(), Event.WakeUp(t), owner);
      SleeperIsQueued(View(), t);
      var w := waits[t];
      var q := queues[w.target];
      var i := FindRequest(q.requests, t);
      if txns[t].state == ABORTED {
        var upgrading := if w.upgrade then INVALID_TXN_ID else q.upgrading;
        queues := queues[w.target := Queue(q.requests[..i] + q.requests[i + 1..], upgrading)];
        waits := waits - {t};
        return Returned(false);
      }
      o := GrantOrSleep(t, w.target, q.requests, i, q.upgrading, w.upgrade);
    }

    method ReleaseLock(t: TxnId, tg: Target, oid: Oid) returns (o: Outcome)
      requires t in txns && tg in queues
      requires OnePerTxn(queues[tg].requests)
      modifies this`queues, this`txns
      ensures (View(), o) == Release(old(View()), t, tg, oid)
    {
      var q := queues[tg];
      var i := 0;
      while i < |q.requests|
        invariant 0 <= i <= |q.requests|
        invariant forall j :: 0 <= j < i ==> q.requests[j].txn != t || !q.requests[j].granted
        invariant View() == old(View())
      {
        if q.requests[i].txn == t && q.requests[i].granted {
          assert i == Position(q.requests, t);
          var m := q.requests[i].mode;
          var st := AfterRelease(txns[t], m);
          if st.None? {
            SetState(t, ABORTED);
            return Thrown(READ_UNCOMMITTED_USED_SHARED);
          }
          SetState(t, st.value);
          txns := txns[t := txns[t].(locks := DeleteLock(txns[t].locks, m, tg, oid))];
          queues := queues[tg := q.(requests := q.requests[..i] + q.requests[i + 1..])];
          return Returned(true);
        }
        i := i + 1;
      }
      SetState(t, ABORTED);
      return Thrown(ATTEMPTED_UNLOCK_BUT_NO_LOCK_HELD);
    }

    method UnlockTable(t: TxnId, oid: Oid, ghost owner: Rid -> Oid) returns (o: Outcome)
      requires Inv(View(), owner) && Enabled(View(), UnlockTableCall(t, oid), owner)
      modifies this`queues, this`txns
      ensures (View(), o) == Apply(old(View()), UnlockTableCall(t, oid), owner) && Inv(View(), owner)
    {
      ApplyKeepsInv(View(), UnlockTableCall(t, oid), owner);
      if Table(oid) !in queues {
        SetState(t, ABORTED);
        return Thrown(ATTEMPTED_UNLOCK_BUT_NO_LOCK_HELD);
      }
      if RowsStillLocked(txns[t].locks, oid) {
        SetState(t, ABORTED);
        return Thrown(TABLE_UNLOCKED_BEFORE_UNLOCKING_ROWS);
      }
      o := ReleaseLock(t, Table(oid), oid);
    }

    method UnlockRow(t: TxnId, oid: Oid, rid: Rid, ghost owner: Rid -> Oid) returns (o: Outcome)
      requires Inv(View(), owner) && Enabled(View(), UnlockRowCall(t, oid, rid), owner)
      modifies this`queues, this`txns
      ensures (View(), o) == Apply(old(View()), UnlockRowCall(t, oid, rid), owner) && Inv(View(), owner)
    {
      ApplyKeepsInv(View(), UnlockRowCall(t, oid, rid), owner);
      if Row(rid) !in queues {
        SetState(t, ABORTED);
        return Thrown(ATTEMPTED_UNLOCK_BUT_NO_LOCK_HELD);
      }
      o := ReleaseLock(t, Row(rid), oid);
    }

    // ---------------------------------------------------- the waits-for graph

    method AddEdge(t1: TxnId, t2: TxnId)
      modifies this`waitsFor
      ensures waitsFor == WithEdge(old(waitsFor), t1, t2)
      ensures WellFormed(old(waitsFor)) && 0 <= t1 && 0 <= t2 ==>
                && WellFormed(waitsFor)
                && forall a, b :: Edge(waitsFor, a, b) <==> Edge(old(waitsFor), a, b) || (a == t1 && b == t2)
    {
      if WellFormed(waitsFor) && 0 <= t1 && 0 <= t2 {
        WithEdgeEdges(waitsFor, t1, t2);
      }
      if t1 !in waitsFor {
        waitsFor := waitsFor[t1 := [t2]];
        return;
      }
      var k := 0;
      while k < |waitsFor[t1]|
        invariant waitsFor == old(waitsFor)
        invariant 0 <= k <= |waitsFor[t1]| && t2 !in waitsFor[t1][..k]
      {
        if waitsFor[t1][k] == t2 {
          return;
        }
        k := k + 1;
      }
      assert waitsFor[t1][..k] == waitsFor[t1];
      waitsFor := waitsFor[t1 := waitsFor[t1] + [t2]];
    }

    method RemoveEdge(t1: TxnId, t2: TxnId)
      modifies this`waitsFor
      ensures waitsFor == WithoutEdge(old(waitsFor), t1, t2)
    {
      if t1 !in waitsFor {
        return;
      }
      var s := waitsFor[t1];
      var k := 0;
      while k < |s|
        invariant waitsFor == old(waitsFor)
        invariant 0 <= k <= |s| && t2 !in s[..k]
      {
        if s[k] == t2 {
          RemoveFirstAt(s, k, t2);
          waitsFor := waitsFor[t1 := s[..k] + s[k + 1..]];
          if waitsFor[t1] == [] {
            waitsFor := waitsFor - {t1};
            assert waitsFor == old(waitsFor) - {t1};
          }
          return;
        }
        k := k + 1;
      }
      assert s[..k] == s;
    }

    /** The recursive closure of `HasCycle`; on "no cycle" the path is as it was. */
    method Dfs(id: TxnId) returns (victim: TxnId)
      requires ValidIds(waitsFor)
      modifies this`idset
      ensures victim == WaitsFor.Dfs(waitsFor, id, old(idset))
      ensures victim == INVALID_TXN_ID ==> idset == old(idset)
      decreases Nodes(waitsFor) - idset
    {
      if id !in waitsFor {
        return INVALID_TXN_ID;
      }
      var k := 0;
      while k < |waitsFor[id]|
        invariant 0 <= k <= |waitsFor[id]| && idset == old(idset)
        invariant DfsSuccs(waitsFor, id, waitsFor[id][k..], idset) == WaitsFor.Dfs(waitsFor, id, old(idset))
      {
        var i := waitsFor[id][k];
        assert waitsFor[id][k..][1..] == waitsFor[id][k + 1..];
        if i in idset {
          return Max(id, i);
        }
        assert Edge(waitsFor, id, i) && i in Nodes(waitsFor);
        idset := idset + {i};
        var temp := Dfs(i);
        if temp != INVALID_TXN_ID {
          return Max(id, temp);
        }
        idset := idset - {i};
        k := k + 1;
      }
      return INVALID_TXN_ID;
    }

    /** The ids to start from: one zero per key, then the keys, sorted. */
    method StartIds() returns (ids: seq<TxnId>)
      requires ValidIds(waitsFor)
      ensures ids == Starts(waitsFor)
    {
      var v := seq(|waitsFor|, _ => 0);
      var left := waitsFor.Keys;
      while left != {}
        invariant left <= waitsFor.Keys
        invariant multiset(v) + multiset(left) == multiset(seq(|waitsFor|, _ => 0)) + multiset(waitsFor.Keys)
      {
        ghost var some := Pick(left);
        var k :| k in left;
        v := v + [k];
        left := left - {k};
      }
      ids := SortIds(v);
      StartsAreSorted(waitsFor);
      SortedUnique(ids, Starts(waitsFor));
    }

    method HasCycle() returns (found: bool, victim: TxnId)
      requires ValidIds(waitsFor)
      modifies this`idset
      ensures victim == VictimOf(waitsFor) && found == (victim != INVALID_TXN_ID)
      ensures found <==> Cyclic(waitsFor)
      ensures !found ==> idset == {}
    {
      idset := {};
      var ids := StartIds();
      victim := SearchFrom(ids);
      found := victim != INVALID_TXN_ID;
      HasCycleIffCyclic(waitsFor);
    }

    /** The loop over the starting points; it stops at the first one that meets a cycle. */
    method SearchFrom(ids: seq<TxnId>) returns (victim: TxnId)
      requires ValidIds(waitsFor) && idset == {}
      modifies this`idset
      ensures victim == FirstVictim(waitsFor, ids)
      ensures victim == INVALID_TXN_ID ==> idset == {}
    {
      victim := INVALID_TXN_ID;
      var n := 0;
      while n < |ids|
        invariant 0 <= n <= |ids| && idset == {} && victim == INVALID_TXN_ID
        invariant FirstVictim(waitsFor, ids[n..]) == FirstVictim(waitsFor, ids)
      {
        assert ids[n..][1..] == ids[n + 1..];
        idset := idset + {ids[n]};
        assert idset == {ids[n]};
        victim := Dfs(ids[n]);
        idset := idset - {ids[n]};
        if victim != INVALID_TXN_ID {
          return;
        }
        n := n + 1;
      }
    }

    /** The inner loop of the graph construction, for the request at position i. */
    method AddEdgesFrom(rs: seq<LockQueue.Request>, i: nat)
      requires i < |rs| && WellFormed(waitsFor) && forall j :: 0 <= j < |rs| ==> 0 <= rs[j].txn
      modifies this`waitsFor
      ensures WellFormed(waitsFor)
      ensures forall a, b :: Edge(waitsFor, a, b) <==>
                Edge(old(waitsFor), a, b) || (!rs[i].granted && a == rs[i].txn && GrantedTo(rs, b))
    {
      var j := 0;
      while j < |rs|
        invariant 0 <= j <= |rs| && WellFormed(waitsFor)
        invariant forall a, b :: Edge(waitsFor, a, b) <==>
                    Edge(old(waitsFor), a, b) || (!rs[i].granted && a == rs[i].txn && GrantedTo(rs[..j], b))
      {
        if i != j && !rs[i].granted && rs[j].granted {
          WithEdgeEdges(waitsFor, rs[i].txn, rs[j].txn);
          AddEdge(rs[i].txn, rs[j].txn);
        }
        forall b ensures GrantedTo(rs[..j + 1], b) <==> GrantedTo(rs[..j], b) || (rs[j].granted && rs[j].txn == b) {
          GrantedToExtend(rs, j, b);
        }
        j := j + 1;
      }
      assert rs[..j] == rs;
    }

    method AddQueueEdges(rs: seq<LockQueue.Request>)
      requires WellFormed(waitsFor) && forall j :: 0 <= j < |rs| ==> 0 <= rs[j].txn
      modifies this`waitsFor
      ensures WellFormed(waitsFor)
      ensures forall a, b :: Edge(waitsFor, a, b) <==>
                Edge(old(waitsFor), a, b) || (WaitingFor(rs, a) && GrantedTo(rs, b))
    {
      var i := 0;
      while i < |rs|
        invariant 0 <= i <= |rs| && WellFormed(waitsFor)
        invariant forall a, b :: Edge(waitsFor, a, b) <==>
                    Edge(old(waitsFor), a, b) || (WaitingFor(rs[..i], a) && GrantedTo(rs, b))
      {
        AddEdgesFrom(rs, i);
        forall a ensures WaitingFor(rs[..i + 1], a) <==> WaitingFor(rs[..i], a) || (!rs[i].granted && rs[i].txn == a) {
          WaitingForExtend(rs, i, a);
        }
        i := i + 1;
      }
      assert rs[..i] == rs;
    }

    /** The first half of a detection round: rebuild the graph from all queues. */
    method BuildGraph(ghost owner: Rid -> Oid)
      requires Inv(View(), owner)
      modifies this`waitsFor
      ensures IsWaitsForGraph(waitsFor, View())
    {
      waitsFor := map[];
      var left := queues.Keys;
      ghost var done: set<Target> := {};
      while left != {}
        invariant left + done == queues.Keys && WellFormed(waitsFor)
        invariant forall a, b :: Edge(waitsFor, a, b) <==> WaitsOnWithin(View(), a, b, done)
      {
        var tg :| tg in left;
        IdsInQueue(View(), tg, owner);
        AddQueueEdges(queues[tg].requests);
        forall a, b ensures WaitsOnWithin(View(), a, b, done + {tg}) <==>
                            WaitsOnWithin(View(), a, b, done) ||
                            (WaitingFor(queues[tg].requests, a) && GrantedTo(queues[tg].requests, b))
        {
          QueueEdgeIsWaitsOn(View(), tg, a, b);
          WaitsOnWithinGrows(View(), a, b, done, tg);
        }
        left, done := left - {tg}, done + {tg};
      }
      forall a, b ensures WaitsOnWithin(View(), a, b, done) <==> WaitsOn(View(), a, b) {
        WaitsOnWithinAll(View(), a, b);
        assert done == queues.Keys;
      }
    }

    /** The transactions with an edge into v. */
    method CollectWaiters(v: TxnId) returns (tvec: seq<TxnId>)
      ensures forall k :: k in tvec <==> k in waitsFor && v in waitsFor[k]
    {
      tvec := [];
      var left := waitsFor.Keys;
      while left != {}
        invariant left <= waitsFor.Keys
        invariant forall k :: k in tvec <==> k in waitsFor && k !in left && v in waitsFor[k]
      {
        ghost var some := Pick(left);
        var i :| i in left;
        var j := 0;
        ghost var before := tvec;
        while j < |waitsFor[i]|
          invariant 0 <= j <= |waitsFor[i]|
          invariant forall k :: k in tvec <==> k in before || (k == i && v in waitsFor[i][..j])
        {
          assert waitsFor[i][..j + 1] == waitsFor[i][..j] + [waitsFor[i][j]];
          if waitsFor[i][j] == v {
            tvec := tvec + [i];
          }
          j := j + 1;
        }
        assert waitsFor[i][..j] == waitsFor[i];
        left := left - {i};
      }
    }

    /** The second half: drop a victim and every edge into it. */
    method RemoveNode(v: TxnId)
      requires WellFormed(waitsFor)
      modifies this`waitsFor
      ensures waitsFor == WithoutNode(old(waitsFor), v)
    {
      ghost var g := waitsFor;
      if v in waitsFor {
        waitsFor := waitsFor - {v};
      }
      var tvec := CollectWaiters(v);
      RemoveEdgesInto(tvec, v);
      DropEdgesAll(g, v, Elements(tvec));
    }

    method RemoveEdgesInto(tvec: seq<TxnId>, v: TxnId)
      requires forall x :: x in waitsFor ==> waitsFor[x] != [] && Distinct(waitsFor[x])
      modifies this`waitsFor
      ensures waitsFor == DropEdges(old(waitsFor), v, Elements(tvec))
    {
      var n := 0;
      while n < |tvec|
        invariant 0 <= n <= |tvec|
        invariant waitsFor == DropEdges(old(waitsFor), v, Elements(tvec[..n]))
      {
        assert tvec[..n + 1] == tvec[..n] + [tvec[n]];
        assert Elements(tvec[..n + 1]) == Elements(tvec[..n]) + {tvec[n]};
        DropEdgesGrows(old(waitsFor), v, Elements(tvec[..n]), tvec[n]);
        RemoveEdge(tvec[n], v);
        n := n + 1;
      }
      assert tvec[..n] == tvec;
    }

    /** The victim loop: abort and remove one victim after another until no cycle is left. */
    method BreakCycles() returns (victims: seq<TxnId>)
      requires WellFormed(waitsFor) && waitsFor.Keys <= txns.Keys
      modifies this`waitsFor, this`txns, this`idset
      ensures victims == Victims(old(waitsFor)) && waitsFor == Residue(old(waitsFor))
      ensures View() == AbortAll(old(View()), victims)
    {
      ghost var s0, g0 := View(), waitsFor;
      victims := [];
      AbortAllNone(s0);
      var found, v := HasCycle();
      while found
        invariant found == (v != INVALID_TXN_ID) && v == VictimOf(waitsFor)
        invariant Progress(g0, waitsFor, victims, s0)
        invariant View() == AbortAll(s0, victims)
        decreases |waitsFor|
      {
        AbortVictim(v, g0, s0, victims);
        victims := victims + [v];
        found, v := HasCycle();
      }
    }

    /** Aborts the victim of the current graph and takes its node out. */
    method AbortVictim(v: TxnId, ghost g0: Graph, ghost s0: State, ghost victims: seq<TxnId>)
      requires v == VictimOf(waitsFor) && v != INVALID_TXN_ID
      requires Progress(g0, waitsFor, victims, s0) && View() == AbortAll(s0, victims)
      modifies this`waitsFor, this`txns
      ensures Progress(g0, waitsFor, victims + [v], s0) && View() == AbortAll(s0, victims + [v])
      ensures |waitsFor| < |old(waitsFor)|
    {
      DetectionStep(g0, waitsFor, v, WithoutNode(waitsFor, v), victims, s0);
      AbortAllSnoc(s0, victims, v);
      SetState(v, ABORTED);
      RemoveNode(v);
    }

    /**
     One detection round. It aborts exactly the victims of the graph built from the
     queues and ends with the graph free of cycles; queues and sleepers are untouched.
     */
    method RunCycleDetection(ghost owner: Rid -> Oid) returns (victims: seq<TxnId>, ghost g: Graph)
      requires Inv(View(), owner)
      modifies this`waitsFor, this`txns, this`idset
      ensures IsWaitsForGraph(g, old(View()))
      ensures victims == Victims(g) && waitsFor == Residue(g) && !Cyclic(waitsFor)
      ensures forall v :: v in victims ==> v in old(waits) && v in old(txns)
      ensures View() == AbortAll(old(View()), victims) && Inv(View(), owner)
      ensures forall d :: Deadlocked(old(View()), d) ==> exists v :: v in d && v in victims
      ensures forall d :: !Stuck(View(), d)
    {
      BuildGraph(owner);
      g := waitsFor;
      DetectionBreaksEveryCycle(g);
      KeysSleep(View(), g, owner);
      victims := BreakCycles();
      AbortAllKeepsInv(old(View()), victims, owner);
      forall d | Deadlocked(old(View()), d) ensures exists v :: v in d && v in victims {
        DeadlockIsDetected(old(View()), d, g, owner);
      }
      NobodyIsStuck(old(View()), View(), victims);
    }
  }

  lemma AbortAllKeepsInv(s: State, vs: seq<TxnId>, owner: Rid -> Oid)
    requires Inv(s, owner)
    ensures Inv(AbortAll(s, vs), owner)
  {
    assert SameQueues(s, AbortAll(s, vs));
    SameQueuesKeepInv(s, AbortAll(s, vs), owner);
  }

  /** WaitsOn through one of the given targets. */
  ghost predicate WaitsOnWithin(s: State, a: TxnId, b: TxnId, tgs: set<Target>) {
    exists tg :: tg in tgs && WaitsOnAt(s, a, b, tg)
  }

  lemma WaitsOnWithinGrows(s: State, a: TxnId, b: TxnId, tgs: set<Target>, tg: Target)
    ensures WaitsOnWithin(s, a, b, tgs + {tg}) <==> WaitsOnWithin(s, a, b, tgs) || WaitsOnAt(s, a, b, tg)
  {
    if WaitsOnAt(s, a, b, tg) { assert tg in tgs + {tg}; }
    if WaitsOnWithin(s, a, b, tgs) {
      var t :| t in tgs && WaitsOnAt(s, a, b, t);
      assert t in tgs + {tg};
    }
  }

  lemma WaitsOnWithinAll(s: State, a: TxnId, b: TxnId)
    ensures WaitsOnWithin(s, a, b, s.queues.Keys) <==> WaitsOn(s, a, b)
  {
    if WaitsOn(s, a, b) {
      var tg :| WaitsOnAt(s, a, b, tg);
      assert tg in s.queues.Keys;
    }
  }

  lemma IdsInQueue(s: State, tg: Target, owner: Rid -> Oid)
    requires Inv(s, owner) && tg in s.queues
    ensures forall j :: 0 <= j < |s.queues[tg].requests| ==> 0 <= s.queues[tg].requests[j].txn
  {
    var rs := s.queues[tg].requests;
    forall j | 0 <= j < |rs| ensures 0 <= rs[j].txn {
      assert Entry(s, tg, rs[j].txn).Some?;
    }
  }

  lemma KeysSleep(s: State, g: Graph, owner: Rid -> Oid)
    requires Inv(s, owner) && IsWaitsForGraph(g, s)
    ensures forall v :: v in g ==> v in s.waits && v in s.txns
  {
    forall v | v in g ensures v in s.waits && v in s.txns {
      assert Edge(g, v, g[v][0]);
      var tg :| WaitsOnAt(s, v, g[v][0], tg);
    }
  }

  /** g without the edges from the nodes of `from` into v. */
  ghost function DropEdges(g: Graph, v: TxnId, from: set<TxnId>): Graph {
    map k | k in g && (k in from ==> RemoveFirst(g[k], v) != []) ::
      if k in from then RemoveFirst(g[k], v) else g[k]
  }

  lemma DropEdgesGrows(g: Graph, v: TxnId, from: set<TxnId>, k: TxnId)
    requires forall x :: x in g ==> g[x] != [] && Distinct(g[x])
    ensures DropEdges(g, v, from + {k}) == WithoutEdge(DropEdges(g, v, from), k, v)
  {
    if k in g { RemoveFirstDistinct(g[k], v); }
  }

  lemma {:induction false} RemoveFirstAbsent(s: seq<TxnId>, x: TxnId)
    requires x !in s
    ensures RemoveFirst(s, x) == s
  {
    if s != [] {
      RemoveFirstAbsent(s[1..], x);
    }
  }

  lemma DropEdgesAll(g: Graph, v: TxnId, from: set<TxnId>)
    requires WellFormed(g)
    requires forall k :: k in from <==> k in g && k != v && v in g[k]
    ensures DropEdges(g - {v}, v, from) == WithoutNode(g, v)
  {
    var g1 := g - {v};
    var a := DropEdges(g1, v, from);
    var b := WithoutNode(g, v);
    assert forall k :: k in g1 ==> g1[k] == g[k];
    forall k | k in g && k !in from && k != v ensures RemoveFirst(g[k], v) == g[k] {
      RemoveFirstAbsent(g[k], v);
    }
    assert a.Keys == b.Keys;
    assert forall k :: k in a ==> a[k] == b[k];
  }

  lemma AbortAllNone(s: State)
    ensures AbortAll(s, []) == s
  {
  }

  lemma AbortAllSnoc(s: State, vs: seq<TxnId>, v: TxnId)
    requires v in s.txns
    ensures AbortAll(s, vs + [v]) == SetTxnState(AbortAll(s, vs), v, ABORTED)
  {
    var a := AbortAll(s, vs + [v]).txns;
    var b := SetTxnState(AbortAll(s, vs), v, ABORTED).txns;
    assert a.Keys == b.Keys;
    assert forall t :: t in a ==> a[t] == b[t];
  }

  /** What the victim loop has done and still has to do, from graph g0 on. */
  ghost predicate Progress(g0: Graph, g: Graph, vs: seq<TxnId>, s0: State) {
    && WellFormed(g) && g.Keys <= s0.txns.Keys
    && vs + Victims(g) == Victims(g0)
    && Residue(g) == Residue(g0)
  }

  lemma VictimsStep(g: Graph)
    requires WellFormed(g) && VictimOf(g) != INVALID_TXN_ID
    ensures VictimOf(g) in g && WellFormed(WithoutNode(g, VictimOf(g)))
    ensures WithoutNode(g, VictimOf(g)).Keys <= g.Keys && |WithoutNode(g, VictimOf(g))| < |g|
    ensures Victims(g) == [VictimOf(g)] + Victims(WithoutNode(g, VictimOf(g)))
    ensures Residue(g) == Residue(WithoutNode(g, VictimOf(g)))
  {
    VictimIsKey(g);
    FewerKeys(g, VictimOf(g));
    WithoutNodeEdges(g, VictimOf(g));
  }

  lemma DetectionStep(g0: Graph, g: Graph, v: TxnId, g': Graph, vs: seq<TxnId>, s0: State)
    requires Progress(g0, g, vs, s0) && v != INVALID_TXN_ID && v == VictimOf(g) && g' == WithoutNode(g, v)
    ensures v in s0.txns && |g'| < |g|
    ensures Progress(g0, g', vs + [v], s0)
  {
    VictimsStep(g);
    SnocThenRest(vs, v, Victims(g'));
  }

  lemma SnocThenRest(vs: seq<TxnId>, v: TxnId, rest: seq<TxnId>)
    ensures vs + ([v] + rest) == (vs + [v]) + rest
  {
  }
}
