/**
 Who can still go on. A sleeping transaction that is in no deadlock has a
 continuation, of wake-ups and unlocks only, in which its lock is granted; a
 deadlock is therefore exactly what can never go on without a victim, and after
 one round of the detector everybody can.
 */
module LockProgress {
  import opened Collections
  import opened WaitsFor
  import opened LockQueue
  import opened LockProtocol
  import opened LockInvariants
  import opened LockRuns
  import opened LockDeadlock

  /** A deadlock none of whose members has been told to give up. */
  ghost predicate Stuck(s: State, d: set<TxnId>) {
    Deadlocked(s, d) && NoneAborted(s, d)
  }

  /** t is in no deadlock that still stands. */
  ghost predicate Free(s: State, t: TxnId) {
    forall d :: Stuck(s, d) ==> t !in d
  }

  // ------------------------------------------------ steps that only free

  /** Nobody is blocked by somebody who did not block it before, and nobody leaves the aborted state. */
  ghost predicate OnlyFrees(s: State, s': State) {
    && (forall a, b :: BlockedBy(s', a, b) ==> BlockedBy(s, a, b))
    && (forall t :: t in s'.txns ==> t in s.txns && (s.txns[t].state == ABORTED ==> s'.txns[t].state == ABORTED))
  }

  lemma OnlyFreesKeepsStuck(s: State, s': State, d: set<TxnId>)
    requires OnlyFrees(s, s') && Stuck(s', d)
    ensures Stuck(s, d)
  {
    forall t | t in d ensures BlockedInside(s, t, d) {
      assert BlockedInside(s', t, d);
      var u :| u in d && BlockedBy(s', t, u);
    }
  }

  /** Every conflict with a request ahead in rs' is one in rs. */
  ghost predicate FewerConflicts(rs: seq<Request>, rs': seq<Request>) {
    forall a, b :: Ahead(rs', b, a) && Conflict(Lookup(rs', b), Lookup(rs', a)) ==>
      Ahead(rs, b, a) && Conflict(Lookup(rs, b), Lookup(rs, a))
  }

  lemma EraseFrees(rs: seq<Request>, i: nat)
    requires i < |rs| && OnePerTxn(rs)
    ensures FewerConflicts(rs, Erase(rs, i))
  {
    var x, rs' := rs[i].txn, Erase(rs, i);
    EraseLookup(rs, i, x);
    LookupIsPosition(rs', x);
    OthersErase(rs, i);
    forall a, b | Ahead(rs', b, a) && Conflict(Lookup(rs', b), Lookup(rs', a))
      ensures Ahead(rs, b, a) && Conflict(Lookup(rs, b), Lookup(rs, a))
    {
      OthersKeepOrder(rs, x, b, a);
      OthersKeepOrder(rs', x, b, a);
    }
  }

  lemma {:induction false} GrantPosition(rs: seq<Request>, i: nat, t: TxnId)
    requires i < |rs|
    ensures Position(Grant(rs, i), t) == Position(rs, t)
  {
    var rs' := Grant(rs, i);
    assert forall j :: 0 <= j < |rs| ==> rs'[j].txn == rs[j].txn;
    var p, p' := Position(rs, t), Position(rs', t);
    assert p' < |rs| ==> rs[p'].txn == t;
    assert p < |rs| ==> rs'[p].txn == t;
  }

  lemma GrantFrees(rs: seq<Request>, i: nat)
    requires i < |rs| && OnePerTxn(rs)
    ensures FewerConflicts(rs, Grant(rs, i))
  {
    var rs' := Grant(rs, i);
    LookupIsPosition(rs, rs[i].txn);
    forall a, b | Ahead(rs', b, a) && Conflict(Lookup(rs', b), Lookup(rs', a))
      ensures Ahead(rs, b, a) && Conflict(Lookup(rs, b), Lookup(rs, a))
    {
      GrantPosition(rs, i, a);
      GrantPosition(rs, i, b);
      GrantLookup(rs, i, a);
      GrantLookup(rs, i, b);
      OwnPosition(rs, i);
    }
  }

  lemma OwnPosition(rs: seq<Request>, i: nat)
    requires i < |rs| && OnePerTxn(rs)
    ensures Position(rs, rs[i].txn) == i && Lookup(rs, rs[i].txn) == Some(rs[i])
  {
    LookupIsPosition(rs, rs[i].txn);
  }

  /** A step of x on one queue that leaves x awake and the queue with fewer conflicts. */
  lemma LocalStepFrees(s: State, s': State, x: TxnId, tg: Target, owner: Rid -> Oid)
    requires LocalStep(s, s', x, tg, owner) && x !in s'.waits
    requires FewerConflicts(QueueAt(s, tg).requests, QueueAt(s', tg).requests)
    requires s.txns[x].state == ABORTED ==> s'.txns[x].state == ABORTED
    ensures OnlyFrees(s, s')
  {
    forall a, b | BlockedBy(s', a, b) ensures BlockedBy(s, a, b) {
      assert a != x && a in s.waits && s'.waits[a] == s.waits[a];
      var g := s.waits[a].target;
      if g != tg {
        assert QueueAt(s', g) == QueueAt(s, g);
      }
    }
  }

  // -------------------------------------------------- what is left to do

  /** Who has a request where. */
  ghost function Requests(s: State): set<(Target, TxnId)> {
    set tg, i | tg in s.queues && 0 <= i < |s.queues[tg].requests| :: (tg, s.queues[tg].requests[i].txn)
  }

  lemma RequestsAreEntries(s: State, tg: Target, t: TxnId)
    ensures (tg, t) in Requests(s) <==> Entry(s, tg, t).Some?
  {
    if Entry(s, tg, t).Some? {
      var rs := s.queues[tg].requests;
      LookupIsPosition(rs, t);
      assert rs[Position(rs, t)].txn == t;
    }
  }

  /** There is less left to do: a request is gone, or one fewer transaction sleeps over the same requests. */
  ghost predicate LessToDo(s: State, s': State) {
    Requests(s') < Requests(s) || (Requests(s') <= Requests(s) && s'.waits.Keys < s.waits.Keys)
  }

  lemma LocalStepRequests(s: State, s': State, x: TxnId, tg: Target, owner: Rid -> Oid)
    requires LocalStep(s, s', x, tg, owner) && Entry(s, tg, x).Some?
    ensures Requests(s') <= Requests(s)
    ensures Entry(s', tg, x).None? ==> Requests(s') < Requests(s)
  {
    LocalStepEntries(s, s', x, tg, owner);
    forall r | r in Requests(s') ensures r in Requests(s) {
      RequestsAreEntries(s, r.0, r.1);
      RequestsAreEntries(s', r.0, r.1);
    }
    RequestsAreEntries(s, tg, x);
    RequestsAreEntries(s', tg, x);
  }

  // ------------------------------------------------------- the free steps

  /** An event that frees, brings the end nearer and picks no victim. */
  ghost predicate MovesOn(s: State, e: Event, owner: Rid -> Oid) {
    && Enabled(s, e, owner) && !e.Victim?
    && OnlyFrees(s, Apply(s, e, owner).0) && LessToDo(s, Apply(s, e, owner).0)
  }

  /** A sleeper that was told to give up does so. */
  lemma GivingUpIsProgress(s: State, x: TxnId, owner: Rid -> Oid)
    requires Inv(s, owner) && x in s.txns && x in s.waits && s.txns[x].state == ABORTED
    ensures MovesOn(s, WakeUp(x), owner)
  {
    WakeIsLocal(s, x, owner);
    var tg := s.waits[x].target;
    var rs := s.queues[tg].requests;
    var i := Position(rs, x);
    var s' := Wake(s, x).0;
    LookupIsPosition(rs, x);
    EraseLookup(rs, i, x);
    EraseFrees(rs, i);
    LocalStepFrees(s, s', x, tg, owner);
    LocalStepRequests(s, s', x, tg, owner);
  }

  lemma UnblockedIsGrantable(s: State, x: TxnId)
    requires Asleep(s, x) && OnePerTxn(s.queues[s.waits[x].target].requests) && forall u :: !BlockedBy(s, x, u)
    ensures CanGrant(s.queues[s.waits[x].target].requests, Position(s.queues[s.waits[x].target].requests, x))
  {
    var rs := s.queues[s.waits[x].target].requests;
    var i := Position(rs, x);
    OwnPosition(rs, i);
    forall j | 0 <= j < i ensures Compatible(rs[j].mode, rs[i].mode) {
      OwnPosition(rs, j);
      assert !BlockedBy(s, x, rs[j].txn);
    }
  }

  /** A sleeper that nobody blocks is granted its lock. */
  lemma GrantIsProgress(s: State, x: TxnId, owner: Rid -> Oid)
    requires Inv(s, owner) && x in s.txns && x in s.waits && s.txns[x].state != ABORTED
    requires forall u :: !BlockedBy(s, x, u)
    ensures MovesOn(s, WakeUp(x), owner) && Wake(s, x).1 == Returned(true)
  {
    WakeIsLocal(s, x, owner);
    UnblockedIsGrantable(s, x);
    var tg := s.waits[x].target;
    var rs := s.queues[tg].requests;
    var s' := Wake(s, x).0;
    LookupIsPosition(rs, x);
    GrantFrees(rs, Position(rs, x));
    assert s'.waits == s.waits - {x};
    LocalStepFrees(s, s', x, tg, owner);
    LocalStepRequests(s, s', x, tg, owner);
  }

  /** Somebody awake gives back a lock. */
  lemma ReleaseIsProgress(s: State, x: TxnId, tg: Target, oid: Oid, owner: Rid -> Oid)
    requires Inv(s, owner) && x in s.txns && x !in s.waits && Entry(s, tg, x).Some?
    requires match tg case Table(o) => oid == o case Row(rid) => oid == owner(rid)
    requires AfterRelease(s.txns[x], Entry(s, tg, x).value.mode).Some?
    ensures var s' := Release(s, x, tg, oid).0; OnlyFrees(s, s') && LessToDo(s, s')
  {
    var rs := s.queues[tg].requests;
    var i := Position(rs, x);
    LookupIsPosition(rs, x);
    assert !WaitingIn(Entry(s, tg, x));
    ErasureIsLocal(s, x, tg, oid, i, owner);
    var s' := Release(s, x, tg, oid).0;
    EraseFrees(rs, i);
    LocalStepFrees(s, s', x, tg, owner);
    LocalStepRequests(s, s', x, tg, owner);
  }

  lemma RowReleaseIsProgress(s: State, x: TxnId, rid: Rid, owner: Rid -> Oid)
    requires Inv(s, owner) && UncommittedReadersWriteOnly(s)
    requires x in s.txns && x !in s.waits && Entry(s, Row(rid), x).Some?
    ensures MovesOn(s, UnlockRowCall(x, owner(rid), rid), owner)
  {
    ReleaseIsProgress(s, x, Row(rid), owner(rid), owner);
  }

  /** Before a table come the rows that would forbid it. */
  lemma TableReleaseIsProgress(s: State, x: TxnId, oid: Oid, owner: Rid -> Oid) returns (e: Event)
    requires Inv(s, owner) && UncommittedReadersWriteOnly(s)
    requires x in s.txns && x !in s.waits && Entry(s, Table(oid), x).Some?
    ensures e.txn == x && MovesOn(s, e, owner)
  {
    var ls := s.txns[x].locks;
    if RowsStillLocked(ls, oid) {
      assert ls.sRow[oid] != {};
      var rid := Pick(ls.sRow[oid]);
      assert rid in RowSet(ls, S, oid);
      assert HeldIn(Entry(s, Row(rid), x), S) && oid == owner(rid);
      RowReleaseIsProgress(s, x, rid, owner);
      e := UnlockRowCall(x, oid, rid);
    } else {
      ReleaseIsProgress(s, x, Table(oid), oid, owner);
      e := UnlockTableCall(x, oid);
    }
  }

  /** Somebody awake who blocks a sleeper can give back a lock. */
  lemma BlockerCanRelease(s: State, x: TxnId, u: TxnId, owner: Rid -> Oid) returns (e: Event)
    requires Inv(s, owner) && UncommittedReadersWriteOnly(s) && BlockedBy(s, x, u) && u !in s.waits
    ensures e.txn == u && MovesOn(s, e, owner)
  {
    var tg := s.waits[x].target;
    LookupIsPosition(QueueAt(s, tg).requests, u);
    assert Entry(s, tg, u).Some?;
    match tg
    case Table(oid) => e := TableReleaseIsProgress(s, u, oid, owner);
    case Row(rid) =>
      RowReleaseIsProgress(s, u, rid, owner);
      e := UnlockRowCall(u, owner(rid), rid);
  }

  lemma SleepersExist(s: State, x: TxnId, owner: Rid -> Oid)
    requires Inv(s, owner) && x in s.waits
    ensures x in s.txns
  {
    assert WaitingIn(Entry(s, s.waits[x].target, x));
  }

  /** The sleepers together are no deadlock that stands, so one of them gives up or is not blocked by sleepers. */
  lemma SomebodyIsUnblocked(s: State, t: TxnId, owner: Rid -> Oid) returns (x: TxnId)
    requires Inv(s, owner) && t in s.waits && Free(s, t)
    ensures x in s.waits && x in s.txns
    ensures s.txns[x].state == ABORTED || !BlockedInside(s, x, s.waits.Keys)
  {
    x := NotStuckHasGap(s, s.waits.Keys, t);
    SleepersExist(s, x, owner);
  }

  /** x sleeps behind a member of d and has not been told to give up. */
  ghost predicate Firm(s: State, x: TxnId, d: set<TxnId>) {
    x in s.txns && s.txns[x].state != ABORTED && BlockedInside(s, x, d)
  }

  lemma StuckIffFirm(s: State, d: set<TxnId>)
    ensures Stuck(s, d) <==> d != {} && forall y {:trigger Firm(s, y, d)} :: y in d ==> Firm(s, y, d)
  {
    if forall y {:trigger Firm(s, y, d)} :: y in d ==> Firm(s, y, d) {
      forall y | y in d ensures BlockedInside(s, y, d) && y in s.txns && s.txns[y].state != ABORTED {
        assert Firm(s, y, d);
      }
    }
  }

  lemma NotStuckHasGap(s: State, d: set<TxnId>, t: TxnId) returns (x: TxnId)
    requires t in d && Free(s, t)
    ensures x in d && !Firm(s, x, d)
  {
    StuckIffFirm(s, d);
    assert !Stuck(s, d);
    x :| x in d && !Firm(s, x, d);
  }

  /** As long as t sleeps outside the deadlocks, t is granted its lock or somebody else makes progress. */
  lemma SomebodyCanMove(s: State, t: TxnId, owner: Rid -> Oid) returns (e: Event)
    requires Inv(s, owner) && UncommittedReadersWriteOnly(s)
    requires t in s.txns && t in s.waits && s.txns[t].state != ABORTED && Free(s, t)
    ensures MovesOn(s, e, owner)
    ensures e.txn == t ==> e == WakeUp(t) && Asleep(s, t) && Wake(s, t).1 == Returned(true)
  {
    var x := SomebodyIsUnblocked(s, t, owner);
    SleeperIsQueued(s, t);
    if s.txns[x].state == ABORTED {
      GivingUpIsProgress(s, x, owner);
      e := WakeUp(x);
    } else if u :| BlockedBy(s, x, u) {
      assert u !in s.waits;
      e := BlockerCanRelease(s, x, u, owner);
    } else {
      GrantIsProgress(s, x, owner);
      e := WakeUp(x);
    }
  }

  /** Progress of others leaves t asleep and outside the deadlocks. */
  lemma ProgressKeepsFree(s: State, e: Event, t: TxnId, owner: Rid -> Oid)
    requires Inv(s, owner) && MovesOn(s, e, owner) && e.txn != t && t in s.txns && t in s.waits && Free(s, t)
    ensures var s' := Apply(s, e, owner).0;
            t in s'.txns && s'.txns[t] == s.txns[t] && t in s'.waits && Free(s', t) && LessToDo(s, s')
  {
    ApplyKeepsInv(s, e, owner);
    var s' := Apply(s, e, owner).0;
    forall d | Stuck(s', d) ensures t !in d {
      OnlyFreesKeepsStuck(s, s', d);
    }
  }

  // ----------------------------------------------------------------- runs

  /** After `more` without victims, t's sleeping call returns true at its next wake-up. */
  ghost predicate GrantedAfter(es: seq<Event>, more: seq<Event>, t: TxnId, owner: Rid -> Oid) {
    && Legal(es + more, owner) && NoVictims(more)
    && Enabled(After(es + more, owner), WakeUp(t), owner)
    && Apply(After(es + more, owner), WakeUp(t), owner).1 == Returned(true)
  }

  ghost predicate CanGoOn(es: seq<Event>, t: TxnId, owner: Rid -> Oid) {
    exists more :: GrantedAfter(es, more, t, owner)
  }

  lemma GrantedNow(es: seq<Event>, t: TxnId, owner: Rid -> Oid)
    requires Legal(es, owner) && t in After(es, owner).txns && Asleep(After(es, owner), t)
    requires Wake(After(es, owner), t).1 == Returned(true)
    ensures GrantedAfter(es, [], t, owner)
  {
    assert es + [] == es;
  }

  lemma GrantedLater(es: seq<Event>, e: Event, rest: seq<Event>, t: TxnId, owner: Rid -> Oid)
    requires !e.Victim? && GrantedAfter(es + [e], rest, t, owner)
    ensures GrantedAfter(es, [e] + rest, t, owner)
  {
    assert es + ([e] + rest) == es + [e] + rest;
  }

  /** t sleeps at the end of the run, in no deadlock, and has not been told to give up. */
  ghost predicate FreeSleeper(es: seq<Event>, t: TxnId, owner: Rid -> Oid)
    requires Legal(es, owner)
  {
    var s := After(es, owner);
    t in s.txns && t in s.waits && s.txns[t].state != ABORTED && Free(s, t)
  }

  lemma ProgressExtends(es: seq<Event>, e: Event, t: TxnId, owner: Rid -> Oid)
    requires Legal(es, owner) && MovesOn(After(es, owner), e, owner) && e.txn != t && FreeSleeper(es, t, owner)
    ensures Legal(es + [e], owner) && FreeSleeper(es + [e], t, owner)
    ensures LessToDo(After(es, owner), After(es + [e], owner))
  {
    RunKeepsInv(es, owner);
    LegalExtend(es, e, owner);
    ProgressKeepsFree(After(es, owner), e, t, owner);
  }

  lemma NextMove(es: seq<Event>, t: TxnId, owner: Rid -> Oid) returns (e: Event)
    requires Legal(es, owner) && FreeSleeper(es, t, owner)
    ensures !e.Victim?
    ensures if e.txn == t then GrantedAfter(es, [], t, owner)
            else Legal(es + [e], owner) && FreeSleeper(es + [e], t, owner)
                 && LessToDo(After(es, owner), After(es + [e], owner))
  {
    RunKeepsInv(es, owner);
    ReadUncommittedTakesNoSharedLocks(es, owner);
    e := SomebodyCanMove(After(es, owner), t, owner);
    if e.txn == t {
      GrantedNow(es, t, owner);
    } else {
      ProgressExtends(es, e, t, owner);
    }
  }

  /** Every sleeper outside the deadlocks can go on. */
  lemma {:induction false} FreeSleeperGoesOn(es: seq<Event>, t: TxnId, owner: Rid -> Oid) returns (more: seq<Event>)
    requires Legal(es, owner) && FreeSleeper(es, t, owner)
    ensures GrantedAfter(es, more, t, owner)
    decreases Requests(After(es, owner)), After(es, owner).waits.Keys
  {
    var e := NextMove(es, t, owner);
    if e.txn == t {
      more := [];
    } else {
      var rest := FreeSleeperGoesOn(es + [e], t, owner);
      GrantedLater(es, e, rest, t, owner);
      more := [e] + rest;
    }
  }

  /** Nobody in a deadlock can. */
  lemma StuckNeverGoesOn(es: seq<Event>, more: seq<Event>, t: TxnId, d: set<TxnId>, owner: Rid -> Oid)
    requires Legal(es, owner) && Stuck(After(es, owner), d) && t in d
    ensures !GrantedAfter(es, more, t, owner)
  {
    if Legal(es + more, owner) && NoVictims(more) {
      var all := es + more;
      assert all[..|es|] == es && all[..|all|] == all;
      assert forall k :: |es| <= k < |all| ==> all[k] == more[k - |es|];
      DeadlockIsForever(all, |es|, |all|, d, owner);
      var s := After(all, owner);
      RunKeepsInv(all, owner);
      SleeperIsQueued(s, t);
      assert BlockedInside(s, t, d);
      var u :| u in d && BlockedBy(s, t, u);
      BlockedSleepsOn(s, t, u);
    }
  }

  /**
   Over every run: a sleeping call can still return true without a victim
   exactly when its transaction is in no deadlock.
   */
  lemma CanGoOnIff(es: seq<Event>, t: TxnId, owner: Rid -> Oid)
    requires Legal(es, owner) && t in After(es, owner).txns && t in After(es, owner).waits
    requires After(es, owner).txns[t].state != ABORTED
    ensures CanGoOn(es, t, owner) <==> Free(After(es, owner), t)
  {
    if d :| Stuck(After(es, owner), d) && t in d {
      forall more ensures !GrantedAfter(es, more, t, owner) {
        StuckNeverGoesOn(es, more, t, d, owner);
      }
    } else {
      var more := FreeSleeperGoesOn(es, t, owner);
    }
  }

  // ------------------------------------------------------ after detection

  /** The detector aborting its victims, one event each. */
  function VictimEvents(vs: seq<TxnId>): seq<Event> {
    seq(|vs|, i requires 0 <= i < |vs| => Victim(vs[i]))
  }

  /** s' is s with the victims aborted. */
  ghost predicate Aborted(s: State, s': State, vs: seq<TxnId>) {
    && s'.queues == s.queues && s'.waits == s.waits && s'.txns.Keys == s.txns.Keys
    && forall t :: t in vs && t in s'.txns ==> s'.txns[t].state == ABORTED
  }

  lemma VictimEventsSnoc(es: seq<Event>, vs: seq<TxnId>, v: TxnId)
    ensures es + VictimEvents(vs + [v]) == es + VictimEvents(vs) + [Victim(v)]
  {
  }

  lemma OneMoreVictim(es: seq<Event>, s: State, vs: seq<TxnId>, v: TxnId, owner: Rid -> Oid)
    requires Legal(es, owner) && Aborted(s, After(es, owner), vs) && v in s.txns && v in s.waits
    ensures Legal(es + [Victim(v)], owner) && Aborted(s, After(es + [Victim(v)], owner), vs + [v])
  {
    LegalExtend(es, Victim(v), owner);
  }

  lemma {:induction false} RoundIsRun(es: seq<Event>, vs: seq<TxnId>, owner: Rid -> Oid)
    requires Legal(es, owner)
    requires forall v :: v in vs ==> v in After(es, owner).txns && v in After(es, owner).waits
    ensures Legal(es + VictimEvents(vs), owner)
    ensures Aborted(After(es, owner), After(es + VictimEvents(vs), owner), vs)
  {
    if vs == [] {
      assert es + VictimEvents(vs) == es;
    } else {
      var n := |vs| - 1;
      VictimEventsSnoc(es, vs[..n], vs[n]);
      assert vs == vs[..n] + [vs[n]];
      RoundIsRun(es, vs[..n], owner);
      OneMoreVictim(es + VictimEvents(vs[..n]), After(es, owner), vs[..n], vs[n], owner);
    }
  }

  lemma SameBlocks(s: State, s': State, d: set<TxnId>)
    requires s'.queues == s.queues && s'.waits == s.waits && Deadlocked(s', d)
    ensures Deadlocked(s, d)
  {
    forall t | t in d ensures BlockedInside(s, t, d) {
      assert BlockedInside(s', t, d);
      var u :| u in d && BlockedBy(s', t, u);
      assert BlockedBy(s, t, u);
    }
  }

  lemma DeadlockLostMember(s: State, s': State, vs: seq<TxnId>, d: set<TxnId>)
    requires Aborted(s, s', vs) && Deadlocked(s', d)
    requires forall d :: Deadlocked(s, d) ==> exists v :: v in d && v in vs
    ensures !NoneAborted(s', d)
  {
    SameBlocks(s, s', d);
    var v :| v in d && v in vs;
    assert v in s'.txns ==> s'.txns[v].state == ABORTED;
  }

  /** Aborting a member of every deadlock leaves none standing. */
  lemma NobodyIsStuck(s: State, s': State, vs: seq<TxnId>)
    requires Aborted(s, s', vs) && forall d :: Deadlocked(s, d) ==> exists v :: v in d && v in vs
    ensures forall d :: !Stuck(s', d)
  {
    forall d ensures !Stuck(s', d) {
      if Deadlocked(s', d) {
        DeadlockLostMember(s, s', vs, d);
      }
    }
  }

  /** After one round of the detector nobody is stuck: every sleeper that was not aborted can go on. */
  lemma RoundLetsEverybodyGoOn(es: seq<Event>, g: Graph, owner: Rid -> Oid)
    requires Legal(es, owner) && IsWaitsForGraph(g, After(es, owner))
    ensures Legal(es + VictimEvents(Victims(g)), owner)
    ensures var s := After(es + VictimEvents(Victims(g)), owner);
            && (forall d :: !Stuck(s, d))
            && forall t :: t in s.waits && t in s.txns && s.txns[t].state != ABORTED ==>
                 CanGoOn(es + VictimEvents(Victims(g)), t, owner)
  {
    var s, vs := After(es, owner), Victims(g);
    RunKeepsInv(es, owner);
    DetectionBreaksEveryCycle(g);
    forall v | v in vs ensures v in s.txns && v in s.waits {
      VictimSleeps(s, g, v, owner);
    }
    RoundIsRun(es, vs, owner);
    var all := es + VictimEvents(vs);
    var s' := After(all, owner);
    forall d | Deadlocked(s, d) ensures exists v :: v in d && v in vs {
      DeadlockIsDetected(s, d, g, owner);
    }
    NobodyIsStuck(s, s', vs);
    forall t | t in s'.waits && t in s'.txns && s'.txns[t].state != ABORTED ensures CanGoOn(all, t, owner) {
      CanGoOnIff(all, t, owner);
    }
  }

  lemma VictimSleeps(s: State, g: Graph, v: TxnId, owner: Rid -> Oid)
    requires Inv(s, owner) && IsWaitsForGraph(g, s) && v in g
    ensures v in s.txns && v in s.waits
  {
    assert Edge(g, v, g[v][0]);
    var tg :| WaitsOnAt(s, v, g[v][0], tg);
    assert WaitingIn(Entry(s, tg, v));
  }
}
