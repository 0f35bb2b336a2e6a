/**
 What every step of the lock manager keeps: one request per transaction and
 queue, at most one pending upgrade per queue, sleeping transactions matching
 waiting requests, and lock sets matching granted requests.
 */
module LockInvariants {
  import opened Collections
  import opened WaitsFor
  import opened LockQueue
  import opened LockProtocol

  /** The queue of a target; a missing queue counts as an empty one. */
  function QueueAt(s: State, tg: Target): Queue {
    if tg in s.queues then s.queues[tg] else Queue([], INVALID_TXN_ID)
  }

  /** The lock sets ls' differ from ls only at target tg, where they hold what e says. */
  ghost predicate LocksFollow(ls: LockSets, ls': LockSets, tg: Target, e: Option<Request>, owner: Rid -> Oid) {
    && (forall m, oid :: oid in TableSet(ls', m) <==>
          if tg == Table(oid) then HeldIn(e, m) else oid in TableSet(ls, m))
    && (forall m, oid, rid :: rid in RowSet(ls', m, oid) <==>
          if tg == Row(rid) then oid == owner(rid) && HeldIn(e, m) else rid in RowSet(ls, m, oid))
    && (forall oid :: oid in ls'.sRow ==> ls'.sRow[oid] != {})
    && (forall oid :: oid in ls'.xRow ==> ls'.xRow[oid] != {})
  }

  /** The request fits the target it is queued on. */
  ghost predicate Fits(e: Option<Request>, tg: Target, owner: Rid -> Oid) {
    e.Some? ==>
      match tg
      case Table(oid) => e.value.oid == oid
      case Row(rid) => e.value.oid == owner(rid) && e.value.mode in {S, X}
  }

  /** A step that touches one queue and one transaction that does not sleep elsewhere. */
  ghost predicate LocalStep(s: State, s': State, t: TxnId, tg: Target, owner: Rid -> Oid) {
    var q := QueueAt(s, tg);
    var q' := QueueAt(s', tg);
    var e := Lookup(q'.requests, t);
    && t in s.txns && t in s'.txns
    && s'.queues == s.queues[tg := q']
    && s'.txns == s.txns[t := s'.txns[t]]
    && (t in s.waits ==> s.waits[t].target == tg)
    && OnePerTxn(q'.requests)
    && (forall u :: u != t ==> Lookup(q'.requests, u) == Lookup(q.requests, u))
    && Fits(e, tg, owner)
    && s'.waits == (if WaitingIn(e) then s.waits[t := Wait(tg, q'.upgrading == t)] else s.waits - {t})
    && q'.upgrading == (if q.upgrading in {t, INVALID_TXN_ID}
                        then (if WaitingIn(e) && q'.upgrading == t then t else INVALID_TXN_ID)
                        else q.upgrading)
    && LocksFollow(s.txns[t].locks, s'.txns[t].locks, tg, e, owner)
  }

  lemma LocalStepEntries(s: State, s': State, t: TxnId, tg: Target, owner: Rid -> Oid)
    requires LocalStep(s, s', t, tg, owner)
    ensures forall g, u :: Entry(s', g, u) ==
                           if g != tg || u != t then Entry(s, g, u) else Lookup(QueueAt(s', tg).requests, t)
  {
  }

  lemma LocalStepKeepsQueues(s: State, s': State, t: TxnId, tg: Target, owner: Rid -> Oid)
    requires QueuesWellFormed(s, owner) && LocalStep(s, s', t, tg, owner)
    ensures QueuesWellFormed(s', owner)
  {
    LocalStepEntries(s, s', t, tg, owner);
  }

  lemma LocalStepKeepsWaits(s: State, s': State, t: TxnId, tg: Target, owner: Rid -> Oid)
    requires QueuesWellFormed(s, owner) && WaitsMatch(s) && LocalStep(s, s', t, tg, owner)
    ensures WaitsMatch(s')
  {
    LocalStepEntries(s, s', t, tg, owner);
    forall g, u ensures WaitingIn(Entry(s', g, u)) <==> u in s'.waits && s'.waits[u].target == g {
      assert WaitingIn(Entry(s, g, u)) <==> u in s.waits && s.waits[u].target == g;
    }
  }

  lemma LocalStepKeepsUpgrades(s: State, s': State, t: TxnId, tg: Target, owner: Rid -> Oid)
    requires QueuesWellFormed(s, owner) && WaitsMatch(s) && UpgradesMatch(s) && LocalStep(s, s', t, tg, owner)
    ensures UpgradesMatch(s')
  {
    forall u | u in s'.waits && s'.waits[u].upgrade
      ensures s'.waits[u].target in s'.queues && s'.queues[s'.waits[u].target].upgrading == u
    {
      if u != t {
        assert u in s.waits && s.waits[u].upgrade;
        assert WaitingIn(Entry(s, s.waits[u].target, u));
      }
    }
  }

  lemma LocalStepKeepsLocks(s: State, s': State, t: TxnId, tg: Target, owner: Rid -> Oid)
    requires LocksMatch(s, owner) && LocalStep(s, s', t, tg, owner)
    ensures LocksMatch(s', owner)
  {
    LocalStepEntries(s, s', t, tg, owner);
    forall u, m, oid | u in s'.txns
      ensures oid in TableSet(s'.txns[u].locks, m) <==> HeldIn(Entry(s', Table(oid), u), m)
    {
      assert oid in TableSet(s.txns[u].locks, m) <==> HeldIn(Entry(s, Table(oid), u), m);
    }
    forall u, m, oid, rid | u in s'.txns
      ensures rid in RowSet(s'.txns[u].locks, m, oid) <==> oid == owner(rid) && HeldIn(Entry(s', Row(rid), u), m)
    {
      assert rid in RowSet(s.txns[u].locks, m, oid) <==> oid == owner(rid) && HeldIn(Entry(s, Row(rid), u), m);
    }
  }

  lemma LocalStepKeepsInv(s: State, s': State, t: TxnId, tg: Target, owner: Rid -> Oid)
    requires Inv(s, owner) && LocalStep(s, s', t, tg, owner)
    ensures Inv(s', owner)
  {
    LocalStepKeepsQueues(s, s', t, tg, owner);
    LocalStepKeepsWaits(s, s', t, tg, owner);
    LocalStepKeepsUpgrades(s, s', t, tg, owner);
    LocalStepKeepsLocks(s, s', t, tg, owner);
  }

  // ------------------------------------------------------------ lock sets

  /** Table locks carry the table's own id, row locks the id of the row's table and mode S or X. */
  ghost predicate LockFits(m: Mode, tg: Target, oid: Oid, owner: Rid -> Oid) {
    match tg
    case Table(o) => o == oid
    case Row(rid) => oid == owner(rid) && m in {S, X}
  }

  ghost predicate RowEntriesNonempty(ls: LockSets) {
    && (forall oid :: oid in ls.sRow ==> ls.sRow[oid] != {})
    && (forall oid :: oid in ls.xRow ==> ls.xRow[oid] != {})
  }

  /** Nothing is recorded for the target. */
  ghost predicate Unrecorded(ls: LockSets, tg: Target) {
    match tg
    case Table(oid) => forall m :: oid !in TableSet(ls, m)
    case Row(rid) => forall m, oid :: rid !in RowSet(ls, m, oid)
  }

  /** Only mode m is recorded for the target. */
  ghost predicate RecordedOnly(ls: LockSets, m: Mode, tg: Target, owner: Rid -> Oid) {
    match tg
    case Table(oid) => forall m' :: oid in TableSet(ls, m') <==> m' == m
    case Row(rid) => forall m', oid :: rid in RowSet(ls, m', oid) <==> m' == m && oid == owner(rid)
  }

  lemma DeleteLockExact(ls: LockSets, m: Mode, tg: Target, oid: Oid, owner: Rid -> Oid)
    requires LockFits(m, tg, oid, owner) && RowEntriesNonempty(ls) && RecordedOnly(ls, m, tg, owner)
    ensures var ls' := DeleteLock(ls, m, tg, oid);
            LocksFollow(ls, ls', tg, None, owner) && Unrecorded(ls', tg)
  {
    var ls' := DeleteLock(ls, m, tg, oid);
    assert LocksFollow(ls, ls', tg, None, owner);
    if tg.Table? {
      assert forall m' :: tg.oid in TableSet(ls', m') <==> HeldIn(None, m');
    }
  }

  lemma AddLockExact(ls: LockSets, tg: Target, r: Request, owner: Rid -> Oid)
    requires LockFits(r.mode, tg, r.oid, owner) && RowEntriesNonempty(ls) && Unrecorded(ls, tg)
    ensures LocksFollow(ls, AddLock(ls, r.mode, tg, r.oid), tg, Some(r.(granted := true)), owner)
  {
    var ls' := AddLock(ls, r.mode, tg, r.oid);
    var e := Some(r.(granted := true));
    assert forall m :: HeldIn(e, m) <==> m == r.mode;
  }

  lemma LocksFollowTwice(a: LockSets, b: LockSets, c: LockSets, tg: Target,
                         e: Option<Request>, e': Option<Request>, owner: Rid -> Oid)
    requires LocksFollow(a, b, tg, e, owner) && LocksFollow(b, c, tg, e', owner)
    ensures LocksFollow(a, c, tg, e', owner)
  {
  }

  /** Without a granted request nothing is recorded, and with one only its mode is. */
  lemma RecordedAsHeld(s: State, t: TxnId, tg: Target, owner: Rid -> Oid)
    requires Inv(s, owner) && t in s.txns
    ensures RowEntriesNonempty(s.txns[t].locks)
    ensures Entry(s, tg, t).None? || !Entry(s, tg, t).value.granted ==> Unrecorded(s.txns[t].locks, tg)
    ensures Entry(s, tg, t).Some? && Entry(s, tg, t).value.granted ==>
              RecordedOnly(s.txns[t].locks, Entry(s, tg, t).value.mode, tg, owner)
  {
  }

  lemma LocksUnchanged(s: State, t: TxnId, tg: Target, e: Option<Request>, owner: Rid -> Oid)
    requires Inv(s, owner) && t in s.txns && Unrecorded(s.txns[t].locks, tg)
    requires e.None? || !e.value.granted
    ensures LocksFollow(s.txns[t].locks, s.txns[t].locks, tg, e, owner)
  {
    RecordedAsHeld(s, t, tg, owner);
  }

  // ---------------------------------------------------------------- steps

  /** Nothing about a transaction other than t has changed. */
  ghost predicate OthersUntouched(s: State, s': State, t: TxnId) {
    && (forall u :: u != t ==> (u in s.txns <==> u in s'.txns) && (u in s.waits <==> u in s'.waits))
    && (forall u :: u != t && u in s.txns ==> s'.txns[u] == s.txns[u])
    && (forall u :: u != t && u in s.waits ==> s'.waits[u] == s.waits[u])
    && (forall g, u :: u != t ==> Entry(s', g, u) == Entry(s, g, u))
  }

  /** Every request of t that is new or changed is in mode m. */
  ghost predicate ChangesInMode(s: State, s': State, t: TxnId, m: Mode) {
    forall g :: Entry(s', g, t).Some? && Entry(s', g, t) != Entry(s, g, t) ==> Entry(s', g, t).value.mode == m
  }

  /** Every request of t was there before, in the same mode. */
  ghost predicate NoNewModes(s: State, s': State, t: TxnId) {
    forall g :: Entry(s', g, t).Some? ==>
      Entry(s, g, t).Some? && Entry(s', g, t).value.mode == Entry(s, g, t).value.mode
  }

  lemma LocalStepFrame(s: State, s': State, t: TxnId, tg: Target, owner: Rid -> Oid)
    requires LocalStep(s, s', t, tg, owner)
    ensures OthersUntouched(s, s', t)
    ensures forall g :: g != tg ==> Entry(s', g, t) == Entry(s, g, t)
    ensures Entry(s', tg, t) == Lookup(QueueAt(s', tg).requests, t)
  {
    LocalStepEntries(s, s', t, tg, owner);
  }

  /** The queues stay; transactions may be added with no locks, or change everything but their locks. */
  ghost predicate SameQueues(s: State, s': State) {
    && s'.queues == s.queues && s'.waits == s.waits && s.txns.Keys <= s'.txns.Keys
    && (forall t :: t in s'.txns ==> 0 <= t)
    && (forall t :: t in s'.txns ==> s'.txns[t].locks == if t in s.txns then s.txns[t].locks else NO_LOCKS)
  }

  lemma SameQueuesSameEntries(s: State, s': State)
    requires SameQueues(s, s')
    ensures forall g, u :: Entry(s', g, u) == Entry(s, g, u)
  {
  }

  lemma SameQueuesKeepQueues(s: State, s': State, owner: Rid -> Oid)
    requires SameQueues(s, s') && QueuesWellFormed(s, owner) && WaitsMatch(s)
    ensures QueuesWellFormed(s', owner) && WaitsMatch(s')
  {
    SameQueuesSameEntries(s, s');
  }

  lemma SameQueuesKeepLocks(s: State, s': State, owner: Rid -> Oid)
    requires SameQueues(s, s') && QueuesWellFormed(s, owner) && LocksMatch(s, owner)
    ensures LocksMatch(s', owner)
  {
    SameQueuesSameEntries(s, s');
    forall t, m, oid | t in s'.txns
      ensures oid in TableSet(s'.txns[t].locks, m) <==> HeldIn(Entry(s', Table(oid), t), m)
    {
      assert t !in s.txns ==> Entry(s, Table(oid), t).None?;
    }
    forall t, m, oid, rid | t in s'.txns
      ensures rid in RowSet(s'.txns[t].locks, m, oid) <==> oid == owner(rid) && HeldIn(Entry(s', Row(rid), t), m)
    {
      assert t !in s.txns ==> Entry(s, Row(rid), t).None?;
    }
  }

  lemma SameQueuesKeepInv(s: State, s': State, owner: Rid -> Oid)
    requires SameQueues(s, s') && Inv(s, owner)
    ensures Inv(s', owner)
  {
    SameQueuesKeepQueues(s, s', owner);
    SameQueuesKeepLocks(s, s', owner);
    assert UpgradesMatch(s');
  }

  lemma StateChangeKeepsInv(s: State, t: TxnId, st: TxnState, owner: Rid -> Oid)
    requires Inv(s, owner) && t in s.txns
    ensures Inv(SetTxnState(s, t, st), owner)
    ensures OthersUntouched(s, SetTxnState(s, t, st), t)
    ensures forall g :: Entry(SetTxnState(s, t, st), g, t) == Entry(s, g, t)
  {
    var s' := SetTxnState(s, t, st);
    assert SameQueues(s, s');
    SameQueuesSameEntries(s, s');
    SameQueuesKeepInv(s, s', owner);
  }

  lemma BeginKeepsInv(s: State, t: TxnId, iso: Isolation, owner: Rid -> Oid)
    requires Inv(s, owner) && 0 <= t && t !in s.txns
    ensures Inv(BeginTxn(s, t, iso), owner)
    ensures OthersUntouched(s, BeginTxn(s, t, iso), t)
    ensures forall g :: Entry(BeginTxn(s, t, iso), g, t) == None
  {
    var s' := BeginTxn(s, t, iso);
    assert SameQueues(s, s');
    SameQueuesSameEntries(s, s');
    SameQueuesKeepInv(s, s', owner);
    assert forall g :: Entry(s, g, t).None?;
  }

  /** s1 is s after t's lock sets have lost what they held on tg. */
  ghost predicate Cleared(s: State, s1: State, t: TxnId, tg: Target, owner: Rid -> Oid) {
    && t in s.txns && t in s1.txns
    && s1.queues == s.queues && s1.waits == s.waits
    && s1.txns == s.txns[t := s1.txns[t]]
    && LocksFollow(s.txns[t].locks, s1.txns[t].locks, tg, None, owner)
    && Unrecorded(s1.txns[t].locks, tg)
  }

  lemma WaitIsLocal(s: State, s1: State, t: TxnId, tg: Target, rs: seq<Request>, i: nat,
                    upgrading: TxnId, upgrade: bool, owner: Rid -> Oid)
    requires Inv(s, owner) && Cleared(s, s1, t, tg, owner)
    requires t in s.waits ==> s.waits[t].target == tg
    requires i < |rs| && !rs[i].granted && rs[i].txn == t && LockFits(rs[i].mode, tg, rs[i].oid, owner)
    requires !CanGrant(rs, i)
    requires OnePerTxn(rs) && Lookup(rs, t) == Some(rs[i])
    requires forall u :: u != t ==> Lookup(rs, u) == Lookup(QueueAt(s, tg).requests, u)
    requires if upgrade then upgrading == t && QueueAt(s, tg).upgrading in {t, INVALID_TXN_ID}
             else upgrading == QueueAt(s, tg).upgrading && upgrading != t
    ensures LocalStep(s, Settle(s1, t, tg, rs, i, upgrading, upgrade).0, t, tg, owner)
    ensures Entry(Settle(s1, t, tg, rs, i, upgrading, upgrade).0, tg, t) == Some(rs[i])
  {
    LocksFollowWaiting(s.txns[t].locks, s1.txns[t].locks, tg, Some(rs[i]), owner);
    assert t != INVALID_TXN_ID;
  }

  lemma SettleIsLocal(s: State, s1: State, t: TxnId, tg: Target, rs: seq<Request>, i: nat,
                      upgrading: TxnId, upgrade: bool, owner: Rid -> Oid)
    requires Inv(s, owner) && Cleared(s, s1, t, tg, owner)
    requires t in s.waits ==> s.waits[t].target == tg
    requires i < |rs| && !rs[i].granted && rs[i].txn == t && LockFits(rs[i].mode, tg, rs[i].oid, owner)
    requires OnePerTxn(rs) && Lookup(rs, t) == Some(rs[i])
    requires forall u :: u != t ==> Lookup(rs, u) == Lookup(QueueAt(s, tg).requests, u)
    requires if upgrade then upgrading == t && QueueAt(s, tg).upgrading in {t, INVALID_TXN_ID}
             else upgrading == QueueAt(s, tg).upgrading && upgrading != t
    ensures LocalStep(s, Settle(s1, t, tg, rs, i, upgrading, upgrade).0, t, tg, owner)
    ensures Entry(Settle(s1, t, tg, rs, i, upgrading, upgrade).0, tg, t) in {Some(rs[i]), Some(rs[i].(granted := true))}
  {
    if CanGrant(rs, i) {
      GrantIsLocal(s, s1, t, tg, rs, i, upgrading, upgrade, owner);
    } else {
      WaitIsLocal(s, s1, t, tg, rs, i, upgrading, upgrade, owner);
    }
  }

  lemma GrantedLookups(rs: seq<Request>, i: nat, t: TxnId)
    requires i < |rs| && OnePerTxn(rs) && rs[i].txn == t
    ensures OnePerTxn(Grant(rs, i))
    ensures forall u :: Lookup(Grant(rs, i), u) == if u == t then Some(rs[i].(granted := true)) else Lookup(rs, u)
  {
    forall u ensures Lookup(Grant(rs, i), u) == if u == t then Some(rs[i].(granted := true)) else Lookup(rs, u) {
      GrantLookup(rs, i, u);
    }
    GrantLookup(rs, i, t);
  }

  lemma GrantIsLocal(s: State, s1: State, t: TxnId, tg: Target, rs: seq<Request>, i: nat,
                     upgrading: TxnId, upgrade: bool, owner: Rid -> Oid)
    requires Inv(s, owner) && Cleared(s, s1, t, tg, owner)
    requires t in s.waits ==> s.waits[t].target == tg
    requires i < |rs| && !rs[i].granted && rs[i].txn == t && LockFits(rs[i].mode, tg, rs[i].oid, owner)
    requires OnePerTxn(rs) && CanGrant(rs, i)
    requires forall u :: u != t ==> Lookup(rs, u) == Lookup(QueueAt(s, tg).requests, u)
    requires if upgrade then upgrading == t && QueueAt(s, tg).upgrading in {t, INVALID_TXN_ID}
             else upgrading == QueueAt(s, tg).upgrading && upgrading != t
    ensures LocalStep(s, Settle(s1, t, tg, rs, i, upgrading, upgrade).0, t, tg, owner)
    ensures Entry(Settle(s1, t, tg, rs, i, upgrading, upgrade).0, tg, t) == Some(rs[i].(granted := true))
  {
    var s' := Settle(s1, t, tg, rs, i, upgrading, upgrade).0;
    assert t != INVALID_TXN_ID;
    GrantedLookups(rs, i, t);
    AddLockExact(s1.txns[t].locks, tg, rs[i], owner);
    LocksFollowTwice(s.txns[t].locks, s1.txns[t].locks, s'.txns[t].locks, tg, None,
                     Some(rs[i].(granted := true)), owner);
  }

  lemma LocksFollowWaiting(ls: LockSets, ls': LockSets, tg: Target, e: Option<Request>, owner: Rid -> Oid)
    requires LocksFollow(ls, ls', tg, None, owner) && (e.None? || !e.value.granted)
    ensures LocksFollow(ls, ls', tg, e, owner)
  {
    assert forall m :: HeldIn(e, m) <==> HeldIn(None, m);
  }

  lemma NewQueueIsLocal(s: State, t: TxnId, m: Mode, tg: Target, oid: Oid, owner: Rid -> Oid)
    requires Inv(s, owner) && t in s.txns && t !in s.waits && tg !in s.queues && LockFits(m, tg, oid, owner)
    ensures LocalStep(s, RequestLock(s, t, m, tg, oid).0, t, tg, owner)
    ensures Entry(RequestLock(s, t, m, tg, oid).0, tg, t).Some?
    ensures Entry(RequestLock(s, t, m, tg, oid).0, tg, t).value.mode == m
  {
    var r := Request(t, m, oid, true);
    RecordedAsHeld(s, t, tg, owner);
    AddLockExact(s.txns[t].locks, tg, r, owner);
    assert forall u :: u != t ==> Lookup([r], u) == None;
    assert Lookup([r], t) == Some(r);
  }

  lemma AppendIsLocal(s: State, t: TxnId, m: Mode, tg: Target, oid: Oid, owner: Rid -> Oid)
    requires Inv(s, owner) && t in s.txns && t !in s.waits && tg in s.queues && LockFits(m, tg, oid, owner)
    requires Position(s.queues[tg].requests, t) == |s.queues[tg].requests|
    ensures LocalStep(s, RequestLock(s, t, m, tg, oid).0, t, tg, owner)
    ensures Entry(RequestLock(s, t, m, tg, oid).0, tg, t).Some?
    ensures Entry(RequestLock(s, t, m, tg, oid).0, tg, t).value.mode == m
  {
    var q := s.queues[tg];
    var r := Request(t, m, oid, false);
    LookupIsPosition(q.requests, t);
    RecordedAsHeld(s, t, tg, owner);
    LocksUnchanged(s, t, tg, None, owner);
    var n := |q.requests|;
    assert InsertAt(q.requests, n, r) == q.requests + [r];
    InsertLookup(q.requests, n, r, t);
    forall u ensures u != t ==> Lookup(q.requests + [r], u) == Lookup(q.requests, u) {
      InsertLookup(q.requests, n, r, u);
    }
    SettleIsLocal(s, s, t, tg, q.requests + [r], n, q.upgrading, false, owner);
  }

  lemma UpgradeIsLocal(s: State, t: TxnId, m: Mode, tg: Target, oid: Oid, owner: Rid -> Oid)
    requires Inv(s, owner) && t in s.txns && t !in s.waits && tg in s.queues && LockFits(m, tg, oid, owner)
    requires Position(s.queues[tg].requests, t) < |s.queues[tg].requests|
    requires s.queues[tg].upgrading == INVALID_TXN_ID
    requires var held := s.queues[tg].requests[Position(s.queues[tg].requests, t)].mode;
             held != m && UpgradeAllowed(held, m)
    ensures LocalStep(s, RequestLock(s, t, m, tg, oid).0, t, tg, owner)
    ensures Entry(RequestLock(s, t, m, tg, oid).0, tg, t).Some?
    ensures Entry(RequestLock(s, t, m, tg, oid).0, tg, t).value.mode == m
  {
    var q := s.queues[tg];
    var i := Position(q.requests, t);
    var held := q.requests[i];
    var rest := Erase(q.requests, i);
    var k := FirstWaiting(rest);
    var r := Request(t, m, oid, false);
    var rs := InsertAt(rest, k, r);
    LookupIsPosition(q.requests, t);
    assert Entry(s, tg, t) == Some(held) && held.granted;
    RecordedAsHeld(s, t, tg, owner);
    DeleteLockExact(s.txns[t].locks, held.mode, tg, oid, owner);
    var s1 := SetLocks(s, t, DeleteLock(s.txns[t].locks, held.mode, tg, oid));
    forall u ensures Lookup(rs, u) == if u == t then Some(r) else Lookup(q.requests, u) {
      EraseLookup(q.requests, i, t);
      EraseLookup(q.requests, i, u);
      InsertLookup(rest, k, r, u);
    }
    EraseLookup(q.requests, i, t);
    InsertLookup(rest, k, r, t);
    SettleIsLocal(s, s1, t, tg, rs, k, t, true, owner);
  }

  lemma RequestLockKeepsInv(s: State, t: TxnId, m: Mode, tg: Target, oid: Oid, owner: Rid -> Oid)
    requires Inv(s, owner) && t in s.txns && t !in s.waits && LockFits(m, tg, oid, owner)
    ensures Inv(RequestLock(s, t, m, tg, oid).0, owner)
    ensures OthersUntouched(s, RequestLock(s, t, m, tg, oid).0, t)
    ensures ChangesInMode(s, RequestLock(s, t, m, tg, oid).0, t, m)
  {
    var s' := RequestLock(s, t, m, tg, oid).0;
    if tg !in s.queues {
      NewQueueIsLocal(s, t, m, tg, oid, owner);
      LocalStepKeepsInv(s, s', t, tg, owner);
      LocalStepFrame(s, s', t, tg, owner);
    } else {
      var q := s.queues[tg];
      var i := Position(q.requests, t);
      if i == |q.requests| {
        AppendIsLocal(s, t, m, tg, oid, owner);
        LocalStepKeepsInv(s, s', t, tg, owner);
        LocalStepFrame(s, s', t, tg, owner);
      } else if q.requests[i].mode != m {
        if q.upgrading != INVALID_TXN_ID || !UpgradeAllowed(q.requests[i].mode, m) {
          StateChangeKeepsInv(s, t, ABORTED, owner);
        } else {
          UpgradeIsLocal(s, t, m, tg, oid, owner);
          LocalStepKeepsInv(s, s', t, tg, owner);
          LocalStepFrame(s, s', t, tg, owner);
        }
      }
    }
  }

  lemma WakeIsLocal(s: State, t: TxnId, owner: Rid -> Oid)
    requires Inv(s, owner) && t in s.txns && t in s.waits
    ensures Asleep(s, t) && LocalStep(s, Wake(s, t).0, t, s.waits[t].target, owner)
    ensures NoNewModes(s, Wake(s, t).0, t)
  {
    SleeperIsQueued(s, t);
    var w := s.waits[t];
    var tg := w.target;
    var q := s.queues[tg];
    var i := Position(q.requests, t);
    LookupIsPosition(q.requests, t);
    assert Entry(s, tg, t) == Some(q.requests[i]);
    RecordedAsHeld(s, t, tg, owner);
    LocksUnchanged(s, t, tg, None, owner);
    if s.txns[t].state == ABORTED {
      forall u ensures Lookup(Erase(q.requests, i), u) == if u == t then None else Lookup(q.requests, u) {
        EraseLookup(q.requests, i, u);
      }
      EraseLookup(q.requests, i, t);
    } else {
      SettleIsLocal(s, s, t, tg, q.requests, i, q.upgrading, w.upgrade, owner);
    }
    LocalStepFrame(s, Wake(s, t).0, t, tg, owner);
  }

  lemma ReleaseKeepsInv(s: State, t: TxnId, tg: Target, oid: Oid, owner: Rid -> Oid)
    requires Inv(s, owner) && t in s.txns && t !in s.waits && tg in s.queues
    requires match tg case Table(o) => oid == o case Row(rid) => oid == owner(rid)
    ensures Inv(Release(s, t, tg, oid).0, owner)
    ensures OthersUntouched(s, Release(s, t, tg, oid).0, t)
    ensures NoNewModes(s, Release(s, t, tg, oid).0, t)
  {
    var q := s.queues[tg];
    var i := Position(q.requests, t);
    LookupIsPosition(q.requests, t);
    if i == |q.requests| || !q.requests[i].granted {
      StateChangeKeepsInv(s, t, ABORTED, owner);
    } else {
      var m := q.requests[i].mode;
      assert Entry(s, tg, t) == Some(q.requests[i]);
      if AfterRelease(s.txns[t], m).None? {
        StateChangeKeepsInv(s, t, ABORTED, owner);
      } else {
        ErasureIsLocal(s, t, tg, oid, i, owner);
        LocalStepKeepsInv(s, Release(s, t, tg, oid).0, t, tg, owner);
        LocalStepFrame(s, Release(s, t, tg, oid).0, t, tg, owner);
      }
    }
  }

  lemma ErasureIsLocal(s: State, t: TxnId, tg: Target, oid: Oid, i: nat, owner: Rid -> Oid)
    requires Inv(s, owner) && t in s.txns && t !in s.waits && tg in s.queues
    requires match tg case Table(o) => oid == o case Row(rid) => oid == owner(rid)
    requires i == Position(s.queues[tg].requests, t) < |s.queues[tg].requests| && s.queues[tg].requests[i].granted
    requires AfterRelease(s.txns[t], s.queues[tg].requests[i].mode).Some?
    ensures LocalStep(s, Release(s, t, tg, oid).0, t, tg, owner)
    ensures Lookup(QueueAt(Release(s, t, tg, oid).0, tg).requests, t) == None
  {
    var rs := s.queues[tg].requests;
    LookupIsPosition(rs, t);
    assert Entry(s, tg, t) == Some(rs[i]);
    RecordedAsHeld(s, t, tg, owner);
    DeleteLockExact(s.txns[t].locks, rs[i].mode, tg, oid, owner);
    forall u ensures Lookup(Erase(rs, i), u) == if u == t then None else Lookup(rs, u) {
      EraseLookup(rs, i, u);
    }
    EraseLookup(rs, i, t);
  }

  /** Every step keeps the invariant and leaves the other transactions alone. */
  lemma ApplyKeepsInv(s: State, e: Event, owner: Rid -> Oid)
    requires Inv(s, owner) && Enabled(s, e, owner)
    ensures Inv(Apply(s, e, owner).0, owner)
    ensures OthersUntouched(s, Apply(s, e, owner).0, e.txn)
    ensures if IsLockCall(e) then ChangesInMode(s, Apply(s, e, owner).0, e.txn, e.mode)
            else NoNewModes(s, Apply(s, e, owner).0, e.txn)
  {
    match e
    case Begin(t, iso) => BeginKeepsInv(s, t, iso, owner);
    case LockTableCall(_, _, _) => LockCallKeepsInv(s, e, owner);
    case LockRowCall(_, _, _, _) => LockCallKeepsInv(s, e, owner);
    case WakeUp(t) =>
      WakeIsLocal(s, t, owner);
      LocalStepKeepsInv(s, Apply(s, e, owner).0, t, s.waits[t].target, owner);
      LocalStepFrame(s, Apply(s, e, owner).0, t, s.waits[t].target, owner);
    case UnlockTableCall(_, _) => UnlockCallKeepsInv(s, e, owner);
    case UnlockRowCall(_, _, _) => UnlockCallKeepsInv(s, e, owner);
    case Victim(t) => StateChangeKeepsInv(s, t, ABORTED, owner);
    case Finish(t, commit) => StateChangeKeepsInv(s, t, if commit then COMMITTED else ABORTED, owner);
  }

  lemma LockCallKeepsInv(s: State, e: Event, owner: Rid -> Oid)
    requires Inv(s, owner) && Enabled(s, e, owner) && IsLockCall(e)
    ensures Inv(Apply(s, e, owner).0, owner)
    ensures OthersUntouched(s, Apply(s, e, owner).0, e.txn)
    ensures ChangesInMode(s, Apply(s, e, owner).0, e.txn, e.mode)
  {
    StateChangeKeepsInv(s, e.txn, ABORTED, owner);
    match e
    case LockTableCall(t, m, oid) => RequestLockKeepsInv(s, t, m, Table(oid), oid, owner);
    case LockRowCall(t, m, oid, rid) => if m in {S, X} { RequestLockKeepsInv(s, t, m, Row(rid), oid, owner); }
  }

  lemma UnlockCallKeepsInv(s: State, e: Event, owner: Rid -> Oid)
    requires Inv(s, owner) && Enabled(s, e, owner) && (e.UnlockTableCall? || e.UnlockRowCall?)
    ensures Inv(Apply(s, e, owner).0, owner)
    ensures OthersUntouched(s, Apply(s, e, owner).0, e.txn)
    ensures NoNewModes(s, Apply(s, e, owner).0, e.txn)
  {
    StateChangeKeepsInv(s, e.txn, ABORTED, owner);
    match e
    case UnlockTableCall(t, oid) => if Table(oid) in s.queues { ReleaseKeepsInv(s, t, Table(oid), oid, owner); }
    case UnlockRowCall(t, oid, rid) => if Row(rid) in s.queues { ReleaseKeepsInv(s, t, Row(rid), oid, owner); }
  }

  lemma InitInv(owner: Rid -> Oid)
    ensures Inv(INIT, owner)
  {
  }
}
