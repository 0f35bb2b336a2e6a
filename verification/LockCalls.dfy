/**
 How every call of the lock manager ends, stated on modes, isolation levels and
 held locks: which lock calls are let through, granted, put to sleep or refused
 and with which reason, which unlock calls succeed, and when a transaction
 leaves its growing phase.
 */
module LockCalls {
  import opened Collections
  import opened WaitsFor
  import opened LockQueue
  import opened LockProtocol
  import opened LockInvariants
  import opened LockRuns

  // ------------------------------------------------- locks held together

  lemma GrantsKeepApart(s: State, t: TxnId, u: TxnId, tg: Target, m: Mode, m': Mode)
    requires AllGrantsAgree(s) && t != u && Holds(s, t, tg, m) && Holds(s, u, tg, m')
    ensures Compatible(m, m')
  {
    var rs := s.queues[tg].requests;
    var i :| 0 <= i < |rs| && IsGrantTo(rs[i], t, m);
    var j :| 0 <= j < |rs| && IsGrantTo(rs[j], u, m');
    CompatibleIff(m, m');
    CompatibleIff(m', m);
  }

  /**
   Over every run with safe upgrades no two transactions hold locks on one
   resource that let them do things that clash.
   */
  lemma HoldersDoNotClash(es: seq<Event>, k: nat, t: TxnId, u: TxnId, tg: Target, m: Mode, m': Mode, owner: Rid -> Oid)
    requires Legal(es, owner) && k <= |es| && forall j :: 0 <= j < |es| ==> UpgradeSafe(StateAt(es, j, owner), es[j])
    requires t != u && Holds(StateAt(es, k, owner), t, tg, m) && Holds(StateAt(es, k, owner), u, tg, m')
    ensures !ModesClash(m, m')
  {
    SafeUpgradesKeepAgreement(es, k, owner);
    GrantsKeepApart(StateAt(es, k, owner), t, u, tg, m, m');
    CompatibleIff(m, m');
  }

  // ------------------------------------------------ who may ask for what

  /** The modes each isolation level may lock in each phase. */
  const PERMITTED := {
    (REPEATABLE_READ, GROWING, IS), (REPEATABLE_READ, GROWING, IX), (REPEATABLE_READ, GROWING, S),
    (REPEATABLE_READ, GROWING, SIX), (REPEATABLE_READ, GROWING, X),
    (READ_COMMITTED, GROWING, IS), (READ_COMMITTED, GROWING, IX), (READ_COMMITTED, GROWING, S),
    (READ_COMMITTED, GROWING, SIX), (READ_COMMITTED, GROWING, X),
    (READ_COMMITTED, SHRINKING, IS), (READ_COMMITTED, SHRINKING, S),
    (READ_UNCOMMITTED, GROWING, IX), (READ_UNCOMMITTED, GROWING, X)
  }

  /**
   `CheckLock` lets a call through exactly when the table of permitted modes has
   it and no intention lock is asked for on a row; of finished transactions it
   stops only read-uncommitted ones. The reasons are told apart.
   */
  lemma CheckLockIff(x: Txn, m: Mode, isRow: bool)
    ensures x.state in {GROWING, SHRINKING} ==>
              (CheckLock(x, m, isRow).None? <==> (isRow ==> m in {S, X}) && (x.iso, x.state, m) in PERMITTED)
    ensures x.state in {COMMITTED, ABORTED} ==>
              (CheckLock(x, m, isRow).None? <==> (isRow ==> m in {S, X}) && x.iso != READ_UNCOMMITTED)
    ensures CheckLock(x, m, isRow) == Some(ATTEMPTED_INTENTION_LOCK_ON_ROW) <==> isRow && m in {IS, IX, SIX}
    ensures CheckLock(x, m, isRow) == Some(LOCK_SHARED_ON_READ_UNCOMMITTED) <==>
            x.iso == READ_UNCOMMITTED && m in {S, IS, SIX} && (isRow ==> m == S)
    ensures CheckLock(x, m, isRow).Some? ==>
              CheckLock(x, m, isRow).value in
                {ATTEMPTED_INTENTION_LOCK_ON_ROW, LOCK_SHARED_ON_READ_UNCOMMITTED, LOCK_ON_SHRINKING}
  {
    match x.iso
    case REPEATABLE_READ =>
    case READ_COMMITTED =>
    case READ_UNCOMMITTED =>
  }

  /** t holds the table in one of the modes. */
  ghost predicate HoldsOneOf(s: State, t: TxnId, oid: Oid, ms: set<Mode>) {
    exists m :: m in ms && Holds(s, t, Table(oid), m)
  }

  /**
   After every run: a row lock call that passes `CheckLock` is refused for a
   missing table lock exactly when the transaction holds the table in no mode
   that announces it.
   */
  lemma RowLockRefusedIff(es: seq<Event>, t: TxnId, m: Mode, oid: Oid, rid: Rid, owner: Rid -> Oid)
    requires Legal(es, owner) && t in After(es, owner).txns && CheckLock(After(es, owner).txns[t], m, true).None?
    ensures LockRow(After(es, owner), t, m, oid, rid).1 == Thrown(TABLE_LOCK_NOT_PRESENT) <==>
            if m == S then !HoldsOneOf(After(es, owner), t, oid, {IS, IX, S, X})
            else !HoldsOneOf(After(es, owner), t, oid, {IX, SIX, X})
  {
    var s := After(es, owner);
    LockSetsMatchQueues(es, owner);
    CheckLockIff(s.txns[t], m, true);
    var ls := s.txns[t].locks;
    forall n: Mode
      ensures Holds(s, t, Table(oid), n) <==> oid in TableSet(ls, n)
    {
    }
    assert oid in TableSet(ls, IS) <==> oid in ls.is_;
    assert oid in TableSet(ls, IX) <==> oid in ls.ix;
    assert oid in TableSet(ls, S) <==> oid in ls.s;
    assert oid in TableSet(ls, X) <==> oid in ls.x;
    assert oid in TableSet(ls, SIX) <==> oid in ls.six;
  }

  // -------------------------------------------------- what a lock call gets

  /** No request in the list clashes with mode m. */
  ghost predicate NoClash(rs: seq<Request>, m: Mode) {
    forall i :: 0 <= i < |rs| ==> !ModesClash(rs[i].mode, m)
  }

  lemma GrantableIff(rs: seq<Request>, i: nat)
    requires i < |rs|
    ensures CanGrant(rs, i) <==> NoClash(rs[..i], rs[i].mode)
  {
    forall j | 0 <= j < i
      ensures Compatible(rs[j].mode, rs[i].mode) <==> !ModesClash(rs[..i][j].mode, rs[i].mode)
    {
      CompatibleIff(rs[j].mode, rs[i].mode);
    }
  }

  /** The granted requests an upgrade of t is placed behind. */
  function AheadOfUpgrade(rs: seq<Request>, t: TxnId): seq<Request>
    requires Position(rs, t) < |rs|
  {
    var rest := Erase(rs, Position(rs, t));
    rest[..FirstWaiting(rest)]
  }

  /** How a request ends, by what the transaction has on the resource and what stands in its way. */
  ghost function Verdict(s: State, t: TxnId, m: Mode, tg: Target): Outcome {
    var rs := QueueAt(s, tg).requests;
    match Entry(s, tg, t)
    case None => if NoClash(rs, m) then Returned(true) else Sleeping
    case Some(r) =>
      if r.mode == m then Returned(true)
      else if QueueAt(s, tg).upgrading != INVALID_TXN_ID || (r.mode, m) !in UPGRADES then Thrown(UPGRADE_CONFLICT)
      else if Position(rs, t) < |rs| && NoClash(AheadOfUpgrade(rs, t), m) then Returned(true)
      else Sleeping
  }

  /** What t has on the resource afterwards: the lock, a place in the queue for it, or what it had. */
  ghost predicate Delivers(s: State, s': State, t: TxnId, m: Mode, tg: Target, oid: Oid, o: Outcome) {
    Entry(s', tg, t)
    == match o
       case Returned(_) => if Entry(s, tg, t).Some? && Entry(s, tg, t).value.mode == m then Entry(s, tg, t)
                           else Some(Request(t, m, oid, true))
       case Sleeping => Some(Request(t, m, oid, false))
       case Thrown(_) => Entry(s, tg, t)
  }

  lemma AppendedVerdict(s: State, t: TxnId, m: Mode, tg: Target, oid: Oid)
    requires t in s.txns && tg in s.queues && Entry(s, tg, t).None?
    ensures RequestLock(s, t, m, tg, oid).1 == Verdict(s, t, m, tg)
    ensures Delivers(s, RequestLock(s, t, m, tg, oid).0, t, m, tg, oid, Verdict(s, t, m, tg))
  {
    var rs := s.queues[tg].requests;
    LookupIsPosition(rs, t);
    var rs' := rs + [Request(t, m, oid, false)];
    GrantableIff(rs', |rs|);
    assert rs'[..|rs|] == rs;
    LookupConcat(rs, [Request(t, m, oid, false)], t);
    LookupConcat(rs, [Request(t, m, oid, true)], t);
    assert Grant(rs', |rs|) == rs + [Request(t, m, oid, true)];
  }

  lemma UpgradedVerdict(s: State, t: TxnId, m: Mode, tg: Target, oid: Oid)
    requires t in s.txns && tg in s.queues && OnePerTxn(s.queues[tg].requests)
    requires Entry(s, tg, t).Some? && Entry(s, tg, t).value.mode != m && s.queues[tg].upgrading == INVALID_TXN_ID
    requires UpgradeAllowed(Entry(s, tg, t).value.mode, m) && (Entry(s, tg, t).value.mode, m) in UPGRADES
    ensures RequestLock(s, t, m, tg, oid).1 == Verdict(s, t, m, tg)
    ensures Delivers(s, RequestLock(s, t, m, tg, oid).0, t, m, tg, oid, Verdict(s, t, m, tg))
  {
    var rs := s.queues[tg].requests;
    var i := Position(rs, t);
    LookupIsPosition(rs, t);
    EraseLookup(rs, i, t);
    var rest := Erase(rs, i);
    var k := FirstWaiting(rest);
    var r := Request(t, m, oid, false);
    var rs' := InsertAt(rest, k, r);
    InsertLookup(rest, k, r, t);
    GrantLookup(rs', k, t);
    GrantableIff(rs', k);
    assert rs'[..k] == AheadOfUpgrade(rs, t) && rs'[k] == r;
  }

  /** Every lock request ends as its verdict says and leaves the transaction with what that means. */
  lemma RequestVerdict(s: State, t: TxnId, m: Mode, tg: Target, oid: Oid, owner: Rid -> Oid)
    requires Inv(s, owner) && t in s.txns
    ensures RequestLock(s, t, m, tg, oid).1 == Verdict(s, t, m, tg)
    ensures Delivers(s, RequestLock(s, t, m, tg, oid).0, t, m, tg, oid, Verdict(s, t, m, tg))
  {
    UpgradeRefusedIff(s, t, m, tg, oid);
    if tg in s.queues {
      var rs := s.queues[tg].requests;
      LookupIsPosition(rs, t);
      if Entry(s, tg, t).None? {
        AppendedVerdict(s, t, m, tg, oid);
      } else if Verdict(s, t, m, tg) != Thrown(UPGRADE_CONFLICT) && Entry(s, tg, t).value.mode != m {
        UpgradedVerdict(s, t, m, tg, oid);
      }
    }
  }

  /** A sleeper that wakes gives up if it was aborted, and is granted its lock when nothing ahead clashes with it. */
  lemma WakeVerdict(s: State, t: TxnId, owner: Rid -> Oid)
    requires Inv(s, owner) && t in s.txns && t in s.waits
    ensures Asleep(s, t)
    ensures var tg := s.waits[t].target;
            var rs := s.queues[tg].requests;
            var r := rs[Position(rs, t)];
            && Wake(s, t).1 == (if s.txns[t].state == ABORTED then Returned(false)
                                else if NoClash(rs[..Position(rs, t)], r.mode) then Returned(true) else Sleeping)
            && Entry(Wake(s, t).0, tg, t) == (if Wake(s, t).1 == Returned(false) then None
                                              else Some(r.(granted := Wake(s, t).1 == Returned(true))))
  {
    SleeperIsQueued(s, t);
    var rs := s.queues[s.waits[t].target].requests;
    var i := Position(rs, t);
    GrantableIff(rs, i);
    LookupIsPosition(rs, t);
    EraseLookup(rs, i, t);
    GrantLookup(rs, i, t);
  }

  // ----------------------------------------------------- what an unlock gets

  ghost predicate HoldsAny(s: State, t: TxnId, tg: Target) {
    exists m :: Holds(s, t, tg, m)
  }

  lemma HoldsAnyIff(s: State, t: TxnId, tg: Target)
    requires tg in s.queues ==> OnePerTxn(s.queues[tg].requests)
    ensures HoldsAny(s, t, tg) <==> Entry(s, tg, t).Some? && Entry(s, tg, t).value.granted
  {
    forall m
      ensures Holds(s, t, tg, m) <==> HeldIn(Entry(s, tg, t), m)
    {
      HoldsIsEntry(s, t, tg, m);
    }
    if Entry(s, tg, t).Some? && Entry(s, tg, t).value.granted {
      assert Holds(s, t, tg, Entry(s, tg, t).value.mode);
    }
  }

  /** Releasing succeeds exactly when there is a lock to release, and takes it away. */
  lemma ReleaseVerdict(s: State, t: TxnId, tg: Target, oid: Oid, owner: Rid -> Oid)
    requires Inv(s, owner) && UncommittedReadersWriteOnly(s) && t in s.txns && tg in s.queues
    ensures Release(s, t, tg, oid).1 ==
            if HoldsAny(s, t, tg) then Returned(true) else Thrown(ATTEMPTED_UNLOCK_BUT_NO_LOCK_HELD)
    ensures HoldsAny(s, t, tg) ==> Entry(Release(s, t, tg, oid).0, tg, t).None?
  {
    HoldsAnyIff(s, t, tg);
    var rs := s.queues[tg].requests;
    LookupIsPosition(rs, t);
    if HoldsAny(s, t, tg) {
      EraseLookup(rs, Position(rs, t), t);
      assert s.txns[t].iso == READ_UNCOMMITTED ==> Entry(s, tg, t).value.mode in {X, IX};
    }
  }

  /** After every run: how an unlock of a table or a row ends. */
  lemma UnlockVerdict(es: seq<Event>, t: TxnId, oid: Oid, rid: Rid, owner: Rid -> Oid)
    requires Legal(es, owner) && t in After(es, owner).txns
    ensures UnlockRow(After(es, owner), t, oid, rid).1 ==
            if HoldsAny(After(es, owner), t, Row(rid)) then Returned(true)
            else Thrown(ATTEMPTED_UNLOCK_BUT_NO_LOCK_HELD)
    ensures UnlockTable(After(es, owner), t, oid).1 ==
            if Table(oid) in After(es, owner).queues && BothRowModes(After(es, owner), t, oid, owner)
            then Thrown(TABLE_UNLOCKED_BEFORE_UNLOCKING_ROWS)
            else if HoldsAny(After(es, owner), t, Table(oid)) then Returned(true)
            else Thrown(ATTEMPTED_UNLOCK_BUT_NO_LOCK_HELD)
  {
    var s := After(es, owner);
    RunKeepsInv(es, owner);
    ReadUncommittedTakesNoSharedLocks(es, owner);
    UnlockTableRefusedIff(es, t, oid, owner);
    if Row(rid) in s.queues {
      ReleaseVerdict(s, t, Row(rid), oid, owner);
    }
    if Table(oid) in s.queues {
      ReleaseVerdict(s, t, Table(oid), oid, owner);
    }
  }

  /** t holds rows of the table both in S and in X. */
  ghost predicate BothRowModes(s: State, t: TxnId, oid: Oid, owner: Rid -> Oid) {
    && (exists r :: owner(r) == oid && Holds(s, t, Row(r), S))
    && (exists r :: owner(r) == oid && Holds(s, t, Row(r), X))
  }

  // ------------------------------------------------- the end of growing

  /** The releases that end the growing phase. */
  const SHRINKS := {(REPEATABLE_READ, S), (REPEATABLE_READ, X), (READ_COMMITTED, X), (READ_UNCOMMITTED, X)}

  function PhaseAfter(x: Txn, m: Mode): TxnState {
    if x.state == GROWING && (x.iso, m) in SHRINKS then SHRINKING else x.state
  }

  lemma ReleasePhase(s: State, t: TxnId, tg: Target, oid: Oid, m: Mode)
    requires t in s.txns && tg in s.queues && HeldIn(Entry(s, tg, t), m) && Release(s, t, tg, oid).1 == Returned(true)
    ensures t in Release(s, t, tg, oid).0.txns
    ensures Release(s, t, tg, oid).0.txns[t].state == PhaseAfter(s.txns[t], m)
  {
    LookupIsPosition(s.queues[tg].requests, t);
    match s.txns[t].iso
    case REPEATABLE_READ =>
    case READ_COMMITTED =>
    case READ_UNCOMMITTED =>
  }

  /** An unlock call leaves the growing phase exactly for these. */
  lemma PhaseAfterRelease(s: State, e: Event, t: TxnId, m: Mode, owner: Rid -> Oid)
    requires t in s.txns && Releases(s, e, t, m, owner)
    ensures t in Apply(s, e, owner).0.txns
    ensures Apply(s, e, owner).0.txns[t].state == PhaseAfter(s.txns[t], m)
  {
    if e.UnlockTableCall? {
      ReleasePhase(s, t, Table(e.oid), e.oid, m);
    } else {
      ReleasePhase(s, t, Row(e.rid), e.oid, m);
    }
  }
}
