/**
 Deadlocks proper against what the detector looks for. A transaction is blocked
 by the requests that stand ahead of its own and conflict with it; the detector
 draws an edge to every holder in the queue, whether it conflicts or not.
 */
module LockDeadlock {
  import opened Collections
  import opened WaitsFor
  import opened LockQueue
  import opened LockProtocol
  import opened LockInvariants
  import opened LockRuns

  // ----------------------------------------------- the order of a queue

  /** The requests of everybody but t, in order. */
  function Others(rs: seq<Request>, t: TxnId): seq<Request> {
    if rs == [] then [] else (if rs[0].txn == t then [] else [rs[0]]) + Others(rs[1..], t)
  }

  lemma {:induction false} OthersConcat(a: seq<Request>, b: seq<Request>, t: TxnId)
    ensures Others(a + b, t) == Others(a, t) + Others(b, t)
  {
    if a == [] {
      assert a + b == b;
    } else {
      assert (a + b)[1..] == a[1..] + b;
      OthersConcat(a[1..], b, t);
    }
  }

  lemma OthersWithout(a: seq<Request>, r: Request, b: seq<Request>)
    ensures Others(a + [r] + b, r.txn) == Others(a + b, r.txn)
  {
    OthersConcat(a + [r], b, r.txn);
    OthersConcat(a, [r], r.txn);
    OthersConcat(a, b, r.txn);
    assert Others([r], r.txn) == [];
  }

  lemma SplitAt(rs: seq<Request>, i: nat)
    requires i < |rs|
    ensures rs == rs[..i] + [rs[i]] + rs[i + 1..]
  {
  }

  lemma OthersErase(rs: seq<Request>, i: nat)
    requires i < |rs|
    ensures Others(Erase(rs, i), rs[i].txn) == Others(rs, rs[i].txn)
  {
    var a, r, b := rs[..i], rs[i], rs[i + 1..];
    SplitAt(rs, i);
    OthersWithout(a, r, b);
  }

  lemma OthersInsert(rs: seq<Request>, k: nat, r: Request)
    requires k <= |rs|
    ensures Others(InsertAt(rs, k, r), r.txn) == Others(rs, r.txn)
  {
    assert rs == rs[..k] + rs[k..];
    OthersWithout(rs[..k], r, rs[k..]);
  }

  lemma OthersGrant(rs: seq<Request>, i: nat)
    requires i < |rs|
    ensures Others(Grant(rs, i), rs[i].txn) == Others(rs, rs[i].txn)
  {
    var a, b, r := rs[..i], rs[i + 1..], rs[i].(granted := true);
    SplitAt(rs, i);
    SplitAt(Grant(rs, i), i);
    assert Grant(rs, i)[..i] == a && Grant(rs, i)[i + 1..] == b;
    OthersWithout(a, rs[i], b);
    OthersWithout(a, r, b);
  }

  /** The request of u stands ahead of the request of t. */
  predicate Ahead(rs: seq<Request>, u: TxnId, t: TxnId) {
    Position(rs, u) < Position(rs, t) < |rs|
  }

  lemma PositionCons(r: Request, rs: seq<Request>, t: TxnId)
    ensures Position([r] + rs, t) == if r.txn == t then 0 else 1 + Position(rs, t)
    ensures Lookup([r] + rs, t) == if r.txn == t then Some(r) else Lookup(rs, t)
  {
    assert ([r] + rs)[1..] == rs;
  }

  lemma AheadCons(r: Request, rs: seq<Request>, u: TxnId, t: TxnId)
    ensures Ahead([r] + rs, u, t) <==>
            r.txn != t && Lookup(rs, t).Some? && (r.txn == u || Ahead(rs, u, t))
  {
    PositionCons(r, rs, u);
    PositionCons(r, rs, t);
    LookupIsPosition(rs, t);
  }

  /** Taking out a third transaction changes neither the order of two others nor their requests. */
  lemma {:induction false} OthersKeepOrder(rs: seq<Request>, x: TxnId, u: TxnId, t: TxnId)
    requires u != x && t != x
    ensures Ahead(Others(rs, x), u, t) <==> Ahead(rs, u, t)
    ensures Lookup(Others(rs, x), u) == Lookup(rs, u) && Lookup(Others(rs, x), t) == Lookup(rs, t)
  {
    if rs != [] {
      var r, rest := rs[0], rs[1..];
      assert rs == [r] + rest;
      OthersKeepOrder(rest, x, u, t);
      AheadCons(r, rest, u, t);
      AheadCons(r, Others(rest, x), u, t);
      PositionCons(r, Others(rest, x), u);
      PositionCons(r, Others(rest, x), t);
      assert Others(rs, x) == if r.txn == x then Others(rest, x) else [r] + Others(rest, x);
    }
  }

  // ------------------------------------------ a step leaves others in order

  ghost predicate OrderKept(s: State, s': State, x: TxnId) {
    forall tg :: Others(QueueAt(s', tg).requests, x) == Others(QueueAt(s, tg).requests, x)
  }

  lemma OneQueueChanged(s: State, s': State, tg: Target, q: Queue, x: TxnId)
    requires s'.queues == s.queues[tg := q]
    requires Others(q.requests, x) == Others(QueueAt(s, tg).requests, x)
    ensures OrderKept(s, s', x)
  {
  }

  lemma SettleKeepsOrder(s: State, t: TxnId, tg: Target, rs: seq<Request>, i: nat, upgrading: TxnId, upgrade: bool)
    requires t in s.txns && i < |rs| && rs[i].txn == t
    requires Others(rs, t) == Others(QueueAt(s, tg).requests, t)
    ensures OrderKept(s, Settle(s, t, tg, rs, i, upgrading, upgrade).0, t)
  {
    OthersGrant(rs, i);
    var q := if CanGrant(rs, i) then Queue(Grant(rs, i), if upgrade then INVALID_TXN_ID else upgrading)
             else Queue(rs, upgrading);
    OneQueueChanged(s, Settle(s, t, tg, rs, i, upgrading, upgrade).0, tg, q, t);
  }

  lemma RequestKeepsOrder(s: State, t: TxnId, m: Mode, tg: Target, oid: Oid)
    requires t in s.txns
    ensures OrderKept(s, RequestLock(s, t, m, tg, oid).0, t)
  {
    var rs := QueueAt(s, tg).requests;
    var i := Position(rs, t);
    if tg !in s.queues {
      OthersWithout([], Request(t, m, oid, true), []);
      assert [] + [Request(t, m, oid, true)] + [] == [Request(t, m, oid, true)];
    } else if i == |rs| {
      var r := Request(t, m, oid, false);
      OthersWithout(rs, r, []);
      assert rs + [r] + [] == rs + [r] && rs + [] == rs;
      SettleKeepsOrder(s, t, tg, rs + [r], i, s.queues[tg].upgrading, false);
    } else if rs[i].mode != m && s.queues[tg].upgrading == INVALID_TXN_ID && UpgradeAllowed(rs[i].mode, m) {
      UpgradeKeepsOrder(s, t, m, tg, oid, i);
    }
  }

  lemma OthersReplaced(rs: seq<Request>, i: nat, k: nat, r: Request)
    requires i < |rs| && rs[i].txn == r.txn && k < |rs|
    ensures Others(InsertAt(Erase(rs, i), k, r), r.txn) == Others(rs, r.txn)
  {
    OthersErase(rs, i);
    OthersInsert(Erase(rs, i), k, r);
  }

  lemma UpgradeKeepsOrder(s: State, t: TxnId, m: Mode, tg: Target, oid: Oid, i: nat)
    requires t in s.txns && tg in s.queues && i == Position(s.queues[tg].requests, t) < |s.queues[tg].requests|
    requires s.queues[tg].requests[i].mode != m && UpgradeAllowed(s.queues[tg].requests[i].mode, m)
    requires s.queues[tg].upgrading == INVALID_TXN_ID
    ensures OrderKept(s, RequestLock(s, t, m, tg, oid).0, t)
  {
    var rs := s.queues[tg].requests;
    var k := FirstWaiting(Erase(rs, i));
    var rs' := InsertAt(Erase(rs, i), k, Request(t, m, oid, false));
    OthersReplaced(rs, i, k, Request(t, m, oid, false));
    var s' := SetLocks(s, t, DeleteLock(s.txns[t].locks, rs[i].mode, tg, oid));
    SettleKeepsOrder(s', t, tg, rs', k, t, true);
    assert RequestLock(s, t, m, tg, oid) == Settle(s', t, tg, rs', k, t, true);
    assert s'.queues == s.queues;
  }

  lemma ReleaseKeepsOrder(s: State, t: TxnId, tg: Target, oid: Oid)
    requires t in s.txns && tg in s.queues
    ensures OrderKept(s, Release(s, t, tg, oid).0, t)
  {
    var rs := s.queues[tg].requests;
    if Position(rs, t) < |rs| { OthersErase(rs, Position(rs, t)); }
  }

  lemma WakeKeepsOrder(s: State, t: TxnId)
    requires t in s.txns && Asleep(s, t)
    ensures OrderKept(s, Wake(s, t).0, t)
  {
    var w := s.waits[t];
    var q := s.queues[w.target];
    var i := Position(q.requests, t);
    OthersErase(q.requests, i);
    SettleKeepsOrder(s, t, w.target, q.requests, i, q.upgrading, w.upgrade);
  }

  /** No step changes the order of the requests of transactions that do not make it. */
  lemma StepKeepsOthersOrder(s: State, e: Event, owner: Rid -> Oid)
    requires Enabled(s, e, owner)
    ensures OrderKept(s, Apply(s, e, owner).0, e.txn)
  {
    match e
    case LockTableCall(t, m, oid) => RequestKeepsOrder(s, t, m, Table(oid), oid);
    case LockRowCall(t, m, oid, rid) => RequestKeepsOrder(s, t, m, Row(rid), oid);
    case WakeUp(t) => WakeKeepsOrder(s, t);
    case UnlockTableCall(t, oid) => if Table(oid) in s.queues { ReleaseKeepsOrder(s, t, Table(oid), oid); }
    case UnlockRowCall(t, oid, rid) => if Row(rid) in s.queues { ReleaseKeepsOrder(s, t, Row(rid), oid); }
    case _ =>
  }

  // -------------------------------------------------------------- deadlock

  predicate Conflict(a: Option<Request>, b: Option<Request>) {
    a.Some? && b.Some? && !Compatible(a.value.mode, b.value.mode)
  }

  /** t sleeps, and u has a request, granted or not, ahead of t's that conflicts with it. */
  predicate BlockedBy(s: State, t: TxnId, u: TxnId) {
    t in s.waits &&
    var rs := QueueAt(s, s.waits[t].target).requests;
    Ahead(rs, u, t) && Conflict(Lookup(rs, u), Lookup(rs, t))
  }

  ghost predicate BlockedInside(s: State, t: TxnId, d: set<TxnId>) {
    exists u :: u in d && BlockedBy(s, t, u)
  }

  /** Every member sleeps behind a conflicting request of a member. */
  ghost predicate Deadlocked(s: State, d: set<TxnId>) {
    d != {} && forall t {:trigger BlockedInside(s, t, d)} :: t in d ==> BlockedInside(s, t, d)
  }

  /** No member has been told to give up. */
  ghost predicate NoneAborted(s: State, d: set<TxnId>) {
    forall t :: t in d ==> t in s.txns && s.txns[t].state != ABORTED
  }

  lemma BlockedIsNotGrantable(rs: seq<Request>, u: TxnId, t: TxnId)
    requires Ahead(rs, u, t) && Conflict(Lookup(rs, u), Lookup(rs, t))
    ensures !Grantable(rs, Position(rs, t))
  {
    LookupIsPosition(rs, u);
    LookupIsPosition(rs, t);
  }

  /** Waking a blocked transaction changes nothing. */
  lemma BlockedSleepsOn(s: State, t: TxnId, u: TxnId)
    requires t in s.txns && s.txns[t].state != ABORTED && Asleep(s, t) && BlockedBy(s, t, u)
    ensures Wake(s, t).0 == s && Wake(s, t).1 == Sleeping
  {
    var rs := s.queues[s.waits[t].target].requests;
    BlockedIsNotGrantable(rs, u, t);
    assert !CanGrant(rs, Position(rs, t));
  }

  lemma OthersStayBlocked(s: State, s': State, x: TxnId, t: TxnId, u: TxnId)
    requires OthersUntouched(s, s', x) && OrderKept(s, s', x) && t != x && u != x && BlockedBy(s, t, u)
    ensures BlockedBy(s', t, u)
  {
    var tg := s.waits[t].target;
    assert Others(QueueAt(s', tg).requests, x) == Others(QueueAt(s, tg).requests, x);
    OthersKeepOrder(QueueAt(s, tg).requests, x, u, t);
    OthersKeepOrder(QueueAt(s', tg).requests, x, u, t);
  }

  /** A step that aborts no member leaves the deadlock as it is. */
  lemma StepKeepsDeadlock(s: State, e: Event, d: set<TxnId>, owner: Rid -> Oid)
    requires Inv(s, owner) && Enabled(s, e, owner) && Deadlocked(s, d) && NoneAborted(s, d)
    requires e.Victim? ==> e.txn !in d
    ensures Deadlocked(Apply(s, e, owner).0, d) && NoneAborted(Apply(s, e, owner).0, d)
  {
    if e.txn in d {
      MemberStep(s, e, d, owner);
    } else {
      OutsiderStep(s, e, d, owner);
    }
  }

  lemma MemberStep(s: State, e: Event, d: set<TxnId>, owner: Rid -> Oid)
    requires Enabled(s, e, owner) && Deadlocked(s, d) && NoneAborted(s, d) && e.txn in d && !e.Victim?
    ensures Apply(s, e, owner).0 == s
  {
    assert BlockedInside(s, e.txn, d);
    var u :| u in d && BlockedBy(s, e.txn, u);
    assert e.WakeUp?;
    BlockedSleepsOn(s, e.txn, u);
  }

  lemma OutsiderStep(s: State, e: Event, d: set<TxnId>, owner: Rid -> Oid)
    requires Inv(s, owner) && Enabled(s, e, owner) && Deadlocked(s, d) && NoneAborted(s, d) && e.txn !in d
    ensures Deadlocked(Apply(s, e, owner).0, d) && NoneAborted(Apply(s, e, owner).0, d)
  {
    ApplyKeepsInv(s, e, owner);
    StepKeepsOthersOrder(s, e, owner);
    OutsiderKeeps(s, Apply(s, e, owner).0, e.txn, d);
  }

  lemma OutsiderKeeps(s: State, s': State, x: TxnId, d: set<TxnId>)
    requires OthersUntouched(s, s', x) && OrderKept(s, s', x) && x !in d && Deadlocked(s, d) && NoneAborted(s, d)
    ensures Deadlocked(s', d) && NoneAborted(s', d)
  {
    forall t | t in d ensures BlockedInside(s', t, d) {
      assert BlockedInside(s, t, d);
      var u :| u in d && BlockedBy(s, t, u);
      OthersStayBlocked(s, s', x, t, u);
    }
  }

  /**
   Over whole runs: from the moment it exists until a member is chosen as a
   victim, every member of a deadlock sleeps, whatever everybody else does.
   */
  lemma {:induction false} DeadlockIsForever(es: seq<Event>, i: nat, j: nat, d: set<TxnId>, owner: Rid -> Oid)
    requires Legal(es, owner) && i <= j <= |es|
    requires Deadlocked(StateAt(es, i, owner), d) && NoneAborted(StateAt(es, i, owner), d)
    requires forall k :: i <= k < j && es[k].Victim? ==> es[k].txn !in d
    ensures Deadlocked(StateAt(es, j, owner), d) && NoneAborted(StateAt(es, j, owner), d)
    ensures forall t :: t in d ==> t in StateAt(es, j, owner).waits
    decreases j
  {
    if i < j {
      DeadlockIsForever(es, i, j - 1, d, owner);
      InvAt(es, j - 1, owner);
      StateAtNext(es, j - 1, owner);
      StepKeepsDeadlock(StateAt(es, j - 1, owner), es[j - 1], d, owner);
    }
    var s := StateAt(es, j, owner);
    forall t | t in d ensures t in s.waits {
      assert BlockedInside(s, t, d);
    }
  }

  // ------------------------------------------------- deadlock and detection

  /** Behind the conflict chain of one queue stands a holder: the detector has an edge inside the set. */
  lemma {:induction false} ChainEndsInHolder(s: State, t: TxnId, u: TxnId, d: set<TxnId>, owner: Rid -> Oid)
    returns (v: TxnId)
    requires Inv(s, owner) && Deadlocked(s, d) && t in s.waits && u in d
    requires Ahead(QueueAt(s, s.waits[t].target).requests, u, t)
    ensures v in d && WaitsOn(s, t, v)
    decreases Position(QueueAt(s, s.waits[t].target).requests, u)
  {
    var tg := s.waits[t].target;
    var rs := QueueAt(s, tg).requests;
    LookupIsPosition(rs, u);
    assert Entry(s, tg, u).Some?;
    assert WaitingIn(Entry(s, tg, t));
    if Entry(s, tg, u).value.granted {
      v := u;
      assert WaitsOnAt(s, t, v, tg);
    } else {
      assert WaitingIn(Entry(s, tg, u)) && s.waits[u].target == tg;
      assert BlockedInside(s, u, d);
      var u' :| u' in d && BlockedBy(s, u, u');
      v := ChainEndsInHolder(s, t, u', d, owner);
    }
  }

  /** Every member of a deadlock has an edge to a member in the detector's graph. */
  lemma DeadlockIsTrapped(s: State, d: set<TxnId>, g: Graph, owner: Rid -> Oid)
    requires Inv(s, owner) && IsWaitsForGraph(g, s) && Deadlocked(s, d)
    ensures Trapped(g, d)
  {
    forall t | t in d ensures WaitsInside(g, d, t) {
      assert BlockedInside(s, t, d);
      var u :| u in d && BlockedBy(s, t, u);
      var v := ChainEndsInHolder(s, t, u, d, owner);
      assert Edge(g, t, v);
    }
  }

  /** No deadlock is missed: one round of the detector takes a member out of every one. */
  lemma DeadlockIsDetected(s: State, d: set<TxnId>, g: Graph, owner: Rid -> Oid)
    requires Inv(s, owner) && IsWaitsForGraph(g, s) && Deadlocked(s, d)
    ensures Cyclic(g) && VictimOf(g) != INVALID_TXN_ID
    ensures exists v :: v in d && v in Victims(g)
  {
    DeadlockIsTrapped(s, d, g, owner);
    TrappedSetIsCyclic(g, d);
    HasCycleIffCyclic(g);
    DetectionBreaksEveryCycle(g);
    if forall v :: v in d ==> v !in Victims(g) {
      forall t | t in d ensures WaitsInside(Residue(g), d, t) {
        assert WaitsInside(g, d, t);
        var u :| u in d && Edge(g, t, u);
        assert Edge(Residue(g), t, u);
      }
      TrappedSetIsCyclic(Residue(g), d);
    }
  }

  // -------------------------------------------------- the graph of conflicts

  /** The transactions of a list of requests that block t. */
  function BlockersAmong(s: State, t: TxnId, rs: seq<Request>): (us: seq<TxnId>)
    ensures forall u :: u in us <==> BlockedBy(s, t, u) && exists i :: 0 <= i < |rs| && rs[i].txn == u
  {
    if rs == [] then []
    else
      assert forall i :: 0 < i < |rs| ==> rs[i] == rs[1..][i - 1];
      (if BlockedBy(s, t, rs[0].txn) then [rs[0].txn] else []) + BlockersAmong(s, t, rs[1..])
  }

  /** What an exact detector would look at: an edge exactly where a request ahead conflicts. */
  function ConflictGraph(s: State): Graph {
    map t | t in s.waits :: BlockersAmong(s, t, QueueAt(s, s.waits[t].target).requests)
  }

  lemma ConflictEdge(s: State, a: TxnId, b: TxnId)
    ensures Edge(ConflictGraph(s), a, b) <==> BlockedBy(s, a, b)
  {
    if BlockedBy(s, a, b) {
      var rs := QueueAt(s, s.waits[a].target).requests;
      assert rs[Position(rs, b)].txn == b;
    }
  }

  /** t belongs to some deadlock. */
  ghost predicate InDeadlock(s: State, t: TxnId) {
    exists d :: t in d && Deadlocked(s, d)
  }

  lemma WalkIntoCycleIsDeadlock(s: State, p: seq<TxnId>, c: seq<TxnId>)
    requires Walk(ConflictGraph(s), p) && Cycle(ConflictGraph(s), c) && p[|p| - 1] in c
    ensures Deadlocked(s, Elements(p) + Elements(c))
  {
    var d := Elements(p) + Elements(c);
    assert p[0] in d;
    forall t | t in d ensures BlockedInside(s, t, d) {
      if t in c {
        var i :| 0 <= i < |c| && c[i] == t;
        var j := if i == |c| - 1 then 0 else i;
        assert c[j] == t && Edge(ConflictGraph(s), c[j], c[j + 1]) && c[j + 1] in d;
        ConflictEdge(s, t, c[j + 1]);
      } else {
        var i :| 0 <= i < |p| && p[i] == t;
        assert Edge(ConflictGraph(s), p[i], p[i + 1]) && p[i + 1] in d;
        ConflictEdge(s, t, p[i + 1]);
      }
    }
  }

  /** A transaction is in a deadlock exactly when it reaches a cycle of conflicts. */
  lemma InDeadlockIff(s: State, t: TxnId)
    ensures InDeadlock(s, t) <==> Live(ConflictGraph(s), t)
  {
    var g := ConflictGraph(s);
    if Live(g, t) {
      var v :| OnCycle(g, v) && Reaches(g, t, v);
      var c :| Cycle(g, c) && v in c;
      var p :| Walk(g, p) && p[0] == t && p[|p| - 1] == v;
      WalkIntoCycleIsDeadlock(s, p, c);
      assert t in Elements(p) + Elements(c);
    }
    if InDeadlock(s, t) {
      var d :| t in d && Deadlocked(s, d);
      forall x | x in d ensures WaitsInside(g, d, x) {
        assert BlockedInside(s, x, d);
        var u :| u in d && BlockedBy(s, x, u);
        ConflictEdge(s, x, u);
      }
      TrappedIsLive(g, d, t);
    }
  }

  lemma DeadlockIffConflictCycle(s: State)
    ensures Cyclic(ConflictGraph(s)) <==> exists d :: Deadlocked(s, d)
  {
    var g := ConflictGraph(s);
    if Cyclic(g) {
      var c :| Cycle(g, c);
      assert Walk(g, [c[0]]);
      WalkIntoCycleIsDeadlock(s, [c[0]], c);
    }
    if d :| Deadlocked(s, d) {
      var t := Pick(d);
      InDeadlockIff(s, t);
    }
  }

  /**
   The detector's victim against deadlocks: it always reaches a cycle of the
   detector's graph, as every transaction in a deadlock does, and it is in a
   deadlock exactly when it also reaches a cycle of conflicts.
   */
  lemma VictimInDeadlockIff(s: State, g: Graph, owner: Rid -> Oid)
    requires Inv(s, owner) && IsWaitsForGraph(g, s) && VictimOf(g) != INVALID_TXN_ID
    ensures Live(g, VictimOf(g)) && forall t :: InDeadlock(s, t) ==> Live(g, t)
    ensures InDeadlock(s, VictimOf(g)) <==> Live(ConflictGraph(s), VictimOf(g))
  {
    var _, _ := VictimIsMaxOfTrail(g);
    forall t | InDeadlock(s, t) ensures Live(g, t) {
      var d :| t in d && Deadlocked(s, d);
      DeadlockIsTrapped(s, d, g, owner);
      TrappedIsLive(g, d, t);
    }
    InDeadlockIff(s, VictimOf(g));
  }

  // ------------------------------------------------------- a false alarm

  const A := Table(7)
  const B := Table(8)

  /** Three growing repeatable-read transactions, the queues of tables 7 and 8, and who sleeps where. */
  ghost predicate Scene(s: State, a: seq<Request>, b: seq<Request>, waits: map<TxnId, Wait>) {
    && A in s.queues && s.queues[A] == Queue(a, INVALID_TXN_ID)
    && (if b == [] then B !in s.queues else B in s.queues && s.queues[B] == Queue(b, INVALID_TXN_ID))
    && (forall t :: t in {1, 2, 3} ==> t in s.txns && s.txns[t].iso == REPEATABLE_READ && s.txns[t].state == GROWING)
    && (forall t :: t in {1, 2, 3} ==> s.txns[t].locks.sRow == map[])
    && s.waits == waits
  }

  const ALARM_RUN := [
    Begin(1, REPEATABLE_READ), Begin(2, REPEATABLE_READ), Begin(3, REPEATABLE_READ),
    LockTableCall(2, IS, 7), LockTableCall(3, IX, 7), LockTableCall(1, X, 8), LockTableCall(1, S, 7),
    LockTableCall(2, S, 8)]

  const CALM_RUN := ALARM_RUN + [UnlockTableCall(3, 7), WakeUp(1)]

  const A2 := Request(2, IS, 7, true)
  const A3 := Request(3, IX, 7, true)
  const A1 := Request(1, S, 7, false)
  const B1 := Request(1, X, 8, true)
  const B2 := Request(2, S, 8, false)

  /** Positions and requests in a queue of two. */
  lemma TwoRequests(p: Request, q: Request, t: TxnId)
    ensures Position([p, q], t) == if p.txn == t then 0 else if q.txn == t then 1 else 2
    ensures Lookup([p, q], t) == if p.txn == t then Some(p) else if q.txn == t then Some(q) else None
  {
    assert [p, q][1..] == [q];
  }

  lemma ThreeRequests(p: Request, q: Request, r: Request, t: TxnId)
    ensures Position([p, q, r], t) == if p.txn == t then 0 else if q.txn == t then 1 else if r.txn == t then 2 else 3
    ensures Lookup([p, q, r], t)
         == if p.txn == t then Some(p) else if q.txn == t then Some(q) else if r.txn == t then Some(r) else None
  {
    assert [p, q, r][1..] == [q, r];
    TwoRequests(q, r, t);
  }

  lemma AlarmStart(owner: Rid -> Oid)
    ensures Legal(ALARM_RUN[..4], owner) && Scene(After(ALARM_RUN[..4], owner), [A2], [], map[])
  {
    var es := ALARM_RUN;
    LegalExtend([], es[0], owner);
    assert es[..1] == [] + [es[0]];
    LegalExtend(es[..1], es[1], owner);
    assert es[..2] == es[..1] + [es[1]];
    LegalExtend(es[..2], es[2], owner);
    assert es[..3] == es[..2] + [es[2]];
    LegalExtend(es[..3], es[3], owner);
    assert es[..4] == es[..3] + [es[3]];
  }

  lemma ThirdHolds(s: State)
    requires Scene(s, [A2], [], map[])
    ensures Scene(LockTable(s, 3, IX, 7).0, [A2, A3], [], map[])
  {
    var rs := [A2] + [Request(3, IX, 7, false)];
    assert Position([A2], 3) == 1 && CanGrant(rs, 1) && Grant(rs, 1) == [A2, A3];
  }

  lemma AlarmHeld(owner: Rid -> Oid)
    ensures Legal(ALARM_RUN[..6], owner) && Scene(After(ALARM_RUN[..6], owner), [A2, A3], [B1], map[])
  {
    var es := ALARM_RUN;
    AlarmStart(owner);
    ThirdHolds(After(es[..4], owner));
    LegalExtend(es[..4], es[4], owner);
    assert es[..5] == es[..4] + [es[4]];
    LegalExtend(es[..5], es[5], owner);
    assert es[..6] == es[..5] + [es[5]];
  }

  lemma FirstSleeps(s: State)
    requires Scene(s, [A2, A3], [B1], map[])
    ensures Scene(LockTable(s, 1, S, 7).0, [A2, A3, A1], [B1], map[1 := Wait(A, false)])
  {
    TwoRequests(A2, A3, 1);
    var rs := [A2, A3] + [A1];
    assert rs == [A2, A3, A1];
    assert !Compatible(rs[1].mode, rs[2].mode) && !CanGrant(rs, 2);
  }

  lemma SecondSleeps(s: State)
    requires Scene(s, [A2, A3, A1], [B1], map[1 := Wait(A, false)])
    ensures Alarm(LockTable(s, 2, S, 8).0)
  {
    var rs := [B1] + [B2];
    assert rs == [B1, B2] && Position([B1], 2) == 1;
    assert !Compatible(rs[0].mode, rs[1].mode) && !CanGrant(rs, 1);
  }

  ghost predicate Alarm(s: State) {
    Scene(s, [A2, A3, A1], [B1, B2], map[1 := Wait(A, false), 2 := Wait(B, false)])
  }

  lemma AlarmRaised(owner: Rid -> Oid)
    ensures Legal(ALARM_RUN, owner) && Alarm(After(ALARM_RUN, owner))
  {
    var es := ALARM_RUN;
    AlarmHeld(owner);
    FirstSleeps(After(es[..6], owner));
    LegalExtend(es[..6], es[6], owner);
    assert es[..7] == es[..6] + [es[6]];
    SecondSleeps(After(es[..7], owner));
    LegalExtend(es[..7], es[7], owner);
    assert es == es[..7] + [es[7]];
  }

  lemma ThirdUnlocks(s: State)
    requires Alarm(s)
    ensures Scene(UnlockTable(s, 3, 7).0, [A2, A1], [B1, B2], s.waits)
  {
    ThreeRequests(A2, A3, A1, 3);
    assert Erase([A2, A3, A1], 1) == [A2, A1];
  }

  lemma FirstGoesOn(s: State)
    requires Scene(s, [A2, A1], [B1, B2], map[1 := Wait(A, false), 2 := Wait(B, false)])
    ensures Asleep(s, 1) && Holds(Wake(s, 1).0, 1, A, S) && 1 !in Wake(s, 1).0.waits
  {
    TwoRequests(A2, A1, 1);
    assert CanGrant([A2, A1], 1);
    assert IsGrantTo(Wake(s, 1).0.queues[A].requests[1], 1, S);
  }

  lemma AlarmPasses(owner: Rid -> Oid)
    ensures Legal(CALM_RUN, owner)
    ensures Holds(After(CALM_RUN, owner), 1, A, S) && 1 !in After(CALM_RUN, owner).waits
  {
    var es := ALARM_RUN;
    AlarmRaised(owner);
    ThirdUnlocks(After(es, owner));
    LegalExtend(es, UnlockTableCall(3, 7), owner);
    var es' := es + [UnlockTableCall(3, 7)];
    FirstGoesOn(After(es', owner));
    LegalExtend(es', WakeUp(1), owner);
    assert CALM_RUN == es' + [WakeUp(1)];
  }

  lemma AlarmEdges(s: State)
    requires Alarm(s)
    ensures WaitsOn(s, 1, 2) && WaitsOn(s, 2, 1)
  {
    ThreeRequests(A2, A3, A1, 1);
    ThreeRequests(A2, A3, A1, 2);
    TwoRequests(B1, B2, 1);
    TwoRequests(B1, B2, 2);
    assert WaitsOnAt(s, 1, 2, A) && WaitsOnAt(s, 2, 1, B);
  }

  predicate NoVictims(es: seq<Event>) {
    forall i :: 0 <= i < |es| ==> !es[i].Victim?
  }

  lemma CalmRun()
    ensures ALARM_RUN <= CALM_RUN && NoVictims(CALM_RUN)
  {
  }

  lemma AlarmCycle(s: State, g: Graph, owner: Rid -> Oid)
    requires Inv(s, owner) && Alarm(s) && IsWaitsForGraph(g, s)
    ensures Cyclic(g) && VictimOf(g) != INVALID_TXN_ID
  {
    AlarmEdges(s);
    assert Cycle(g, [1, 2, 1]);
    HasCycleIffCyclic(g);
  }

  lemma Unblocked(s: State, d: set<TxnId>, t: TxnId)
    requires t in d && !BlockedInside(s, t, d)
    ensures !Deadlocked(s, d)
  {
  }

  lemma AlarmBlockers(s: State, u: TxnId)
    requires Alarm(s)
    ensures BlockedBy(s, 1, u) ==> u == 3
    ensures BlockedBy(s, 2, u) ==> u == 1
  {
    ThreeRequests(A2, A3, A1, 1);
    ThreeRequests(A2, A3, A1, u);
    TwoRequests(B1, B2, 2);
    TwoRequests(B1, B2, u);
  }

  lemma NobodyDeadlocked(s: State, d: set<TxnId>)
    requires Alarm(s)
    ensures !Deadlocked(s, d)
  {
    if d != {} {
      forall u ensures (BlockedBy(s, 1, u) ==> u == 3) && (BlockedBy(s, 2, u) ==> u == 1) {
        AlarmBlockers(s, u);
      }
      var t := Pick(d);
      Unblocked(s, d, if 3 in d then 3 else if 1 in d then 1 else if 2 in d then 2 else t);
    }
  }

  /**
   Detection can raise an alarm without a deadlock. Transaction 1 waits only for
   3, which is running, but the detector also draws an edge to 2, which holds a
   compatible lock; with 2 waiting for 1 that makes a cycle. No set of
   transactions is deadlocked, and once 3 unlocks, 1 goes on with nobody aborted.
   */
  lemma AlarmWithoutDeadlock(g: Graph, owner: Rid -> Oid)
    requires Legal(ALARM_RUN, owner) ==> IsWaitsForGraph(g, After(ALARM_RUN, owner))
    ensures Legal(ALARM_RUN, owner) && Cyclic(g) && VictimOf(g) != INVALID_TXN_ID
    ensures forall d :: !Deadlocked(After(ALARM_RUN, owner), d)
    ensures Legal(CALM_RUN, owner) && ALARM_RUN <= CALM_RUN && NoVictims(CALM_RUN)
    ensures Holds(After(CALM_RUN, owner), 1, A, S) && 1 !in After(CALM_RUN, owner).waits
  {
    AlarmRaised(owner);
    AlarmPasses(owner);
    RunKeepsInv(ALARM_RUN, owner);
    var s := After(ALARM_RUN, owner);
    AlarmCycle(s, g, owner);
    CalmRun();
    forall d ensures !Deadlocked(s, d) {
      NobodyDeadlocked(s, d);
    }
  }
}
