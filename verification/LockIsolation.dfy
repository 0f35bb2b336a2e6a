/**
 What row and table locks are for together: no transaction may write a row that
 another may read or write, whether they hold the row itself or its table. It
 holds over every run in which upgrades are safe and no table is unlocked under
 rows its holder still has locked; a run shows why the latter is needed.
 */
module LockIsolation {
  import opened Collections
  import opened WaitsFor
  import opened LockQueue
  import opened LockProtocol
  import opened LockInvariants
  import opened LockRuns
  import opened LockCalls

  ghost predicate MayRead(s: State, t: TxnId, rid: Rid, owner: Rid -> Oid) {
    Holds(s, t, Row(rid), S) || Holds(s, t, Row(rid), X) || HoldsOneOf(s, t, owner(rid), {S, SIX, X})
  }

  ghost predicate MayWrite(s: State, t: TxnId, rid: Rid, owner: Rid -> Oid) {
    Holds(s, t, Row(rid), X) || Holds(s, t, Table(owner(rid)), X)
  }

  /** The event gives up no table of which its transaction still holds a row. */
  ghost predicate KeepsTable(s: State, e: Event, owner: Rid -> Oid) {
    e.UnlockTableCall? ==> forall rid :: owner(rid) == e.oid ==> Entry(s, Row(rid), e.txn).None?
  }

  // -------------------------------------------- rows stand under tables

  /** The intention a row lock in mode m needs on the table. */
  function Announced(m: Mode): Mode {
    if m == X then IX else IS
  }

  /** Everything ahead of t's request goes with mode m. */
  ghost predicate AheadAgrees(rs: seq<Request>, t: TxnId, m: Mode) {
    forall j :: 0 <= j < Position(rs, t) && j < |rs| ==> Compatible(rs[j].mode, m)
  }

  /** With a row in mode m, t has the table in a fitting mode, or waits to upgrade it with nothing ahead in its way. */
  ghost predicate TableCovers(s: State, t: TxnId, m: Mode, oid: Oid) {
    var te := Entry(s, Table(oid), t);
    && te.Some?
    && (m == X ==> te.value.mode in {IX, SIX, X})
    && (!te.value.granted ==>
          && t in s.waits && s.waits[t] == Wait(Table(oid), true)
          && AheadAgrees(QueueAt(s, Table(oid)).requests, t, Announced(m)))
  }

  ghost predicate CoveredAt(s: State, t: TxnId, rid: Rid, owner: Rid -> Oid) {
    Unfinished(s, t) && Entry(s, Row(rid), t).Some? ==>
      TableCovers(s, t, Entry(s, Row(rid), t).value.mode, owner(rid))
  }

  /** Every row request of a transaction that is still at work stands under a request for the table. */
  ghost predicate Covered(s: State, owner: Rid -> Oid) {
    forall t, rid :: CoveredAt(s, t, rid, owner)
  }

  // ------------------------------------------------ steps of other ones

  lemma EraseKeepsAhead(rs: seq<Request>, i: nat, t: TxnId, m: Mode)
    requires i < |rs| && rs[i].txn != t && OnePerTxn(rs) && AheadAgrees(rs, t, m)
    ensures AheadAgrees(Erase(rs, i), t, m)
  {
    var rs' := Erase(rs, i);
    var p := Position(rs, t);
    if p < |rs| {
      var q := if p < i then p else p - 1;
      assert rs'[q] == rs[p];
    }
    forall j | 0 <= j < Position(rs', t) && j < |rs'|
      ensures Compatible(rs'[j].mode, m)
    {
      assert rs'[j] == rs[if j < i then j else j + 1];
    }
  }

  lemma AppendKeepsAhead(rs: seq<Request>, r: Request, t: TxnId, m: Mode)
    requires AheadAgrees(rs, t, m) && Position(rs, t) < |rs|
    ensures AheadAgrees(rs + [r], t, m)
  {
    var rs' := rs + [r];
    assert rs'[Position(rs, t)].txn == t;
  }

  lemma GrantKeepsAhead(rs: seq<Request>, i: nat, t: TxnId, m: Mode)
    requires i < |rs| && AheadAgrees(rs, t, m)
    ensures AheadAgrees(Grant(rs, i), t, m)
  {
    var rs' := Grant(rs, i);
    assert forall j :: 0 <= j < |rs| ==> rs'[j].txn == rs[j].txn && rs'[j].mode == rs[j].mode;
    var p := Position(rs, t);
    assert p < |rs| ==> rs'[p].txn == t;
  }

  /** x's request on a queue where t waits to upgrade goes to the end or changes nothing. */
  lemma RequestKeepsAhead(s: State, x: TxnId, m': Mode, tg: Target, oid: Oid, t: TxnId, m: Mode)
    requires x in s.txns && tg in s.queues && s.queues[tg].upgrading != INVALID_TXN_ID
    requires AheadAgrees(s.queues[tg].requests, t, m) && Position(s.queues[tg].requests, t) < |s.queues[tg].requests|
    ensures AheadAgrees(QueueAt(RequestLock(s, x, m', tg, oid).0, tg).requests, t, m)
  {
    var rs := s.queues[tg].requests;
    if Position(rs, x) == |rs| {
      var r := Request(x, m', oid, false);
      AppendKeepsAhead(rs, r, t, m);
      GrantKeepsAhead(rs + [r], |rs|, t, m);
    }
  }

  lemma CallKeepsAhead(s: State, x: TxnId, m': Mode, on: Target, oid: Oid, tg: Target, t: TxnId, m: Mode)
    requires x in s.txns && tg in s.queues && s.queues[tg].upgrading != INVALID_TXN_ID
    requires AheadAgrees(s.queues[tg].requests, t, m) && Position(s.queues[tg].requests, t) < |s.queues[tg].requests|
    ensures AheadAgrees(QueueAt(RequestLock(s, x, m', on, oid).0, tg).requests, t, m)
  {
    if on == tg {
      RequestKeepsAhead(s, x, m', tg, oid, t, m);
    } else {
      RequestFrame(s, x, m', on, oid);
    }
  }

  lemma WakeKeepsAhead(s: State, x: TxnId, t: TxnId, m: Mode)
    requires x in s.txns && Asleep(s, x) && x != t && OnePerTxn(s.queues[s.waits[x].target].requests)
    requires AheadAgrees(s.queues[s.waits[x].target].requests, t, m)
    ensures AheadAgrees(QueueAt(Wake(s, x).0, s.waits[x].target).requests, t, m)
  {
    var rs := s.queues[s.waits[x].target].requests;
    EraseKeepsAhead(rs, Position(rs, x), t, m);
    GrantKeepsAhead(rs, Position(rs, x), t, m);
  }

  lemma ReleaseKeepsAhead(s: State, x: TxnId, tg: Target, oid: Oid, t: TxnId, m: Mode)
    requires x in s.txns && tg in s.queues && x != t && OnePerTxn(s.queues[tg].requests)
    requires AheadAgrees(s.queues[tg].requests, t, m)
    ensures AheadAgrees(QueueAt(Release(s, x, tg, oid).0, tg).requests, t, m)
  {
    var rs := s.queues[tg].requests;
    if Position(rs, x) < |rs| {
      EraseKeepsAhead(rs, Position(rs, x), t, m);
    }
  }

  /** Whatever another transaction does, nothing new comes ahead of a waiting upgrade. */
  lemma OthersKeepAhead(s: State, e: Event, tg: Target, t: TxnId, m: Mode, owner: Rid -> Oid)
    requires Inv(s, owner) && Enabled(s, e, owner) && e.txn != t && tg in s.queues && s.queues[tg].upgrading == t
    requires t != INVALID_TXN_ID && Position(s.queues[tg].requests, t) < |s.queues[tg].requests|
    requires AheadAgrees(s.queues[tg].requests, t, m)
    ensures AheadAgrees(QueueAt(Apply(s, e, owner).0, tg).requests, t, m)
  {
    match e
    case LockTableCall(x, m', oid) => CallKeepsAhead(s, x, m', Table(oid), oid, tg, t, m);
    case LockRowCall(x, m', oid, rid) => CallKeepsAhead(s, x, m', Row(rid), oid, tg, t, m);
    case WakeUp(x) => if tg == s.waits[x].target { WakeKeepsAhead(s, x, t, m); }
    case UnlockTableCall(x, oid) => if tg == Table(oid) { ReleaseKeepsAhead(s, x, tg, oid, t, m); }
    case UnlockRowCall(x, oid, rid) => if tg == Row(rid) { ReleaseKeepsAhead(s, x, tg, oid, t, m); }
    case _ =>
  }

  lemma OthersStayCovered(s: State, e: Event, t: TxnId, rid: Rid, owner: Rid -> Oid)
    requires Inv(s, owner) && Enabled(s, e, owner) && e.txn != t && CoveredAt(s, t, rid, owner)
    ensures CoveredAt(Apply(s, e, owner).0, t, rid, owner)
  {
    ApplyKeepsInv(s, e, owner);
    var s' := Apply(s, e, owner).0;
    if Unfinished(s', t) && Entry(s', Row(rid), t).Some? {
      var m, tg := Entry(s, Row(rid), t).value.mode, Table(owner(rid));
      assert TableCovers(s, t, m, owner(rid));
      if !Entry(s, tg, t).value.granted {
        LookupIsPosition(s.queues[tg].requests, t);
        OthersKeepAhead(s, e, tg, t, Announced(m), owner);
      }
    }
  }

  // ------------------------------------------------------ own steps

  /** Nobody asleep: every request of t is granted. */
  lemma AwakeHoldsAll(s: State, t: TxnId, tg: Target, owner: Rid -> Oid)
    requires Inv(s, owner) && t !in s.waits && Entry(s, tg, t).Some?
    ensures Entry(s, tg, t).value.granted
  {
    assert !WaitingIn(Entry(s, tg, t));
  }

  /** What goes with a held mode goes with the intention it covers. */
  lemma CoverIsWeaker(a: Mode, held: Mode, m: Mode)
    requires Compatible(a, held) && (m == X ==> held in {IX, SIX, X})
    ensures Compatible(a, Announced(m))
  {
  }

  /** The grants an upgrade waits behind go with the mode it gives up. */
  lemma UpgradeWaitsBehindFriends(rs: seq<Request>, t: TxnId, r: Request, m: Mode)
    requires OnePerTxn(rs) && GrantsAgree(rs) && Position(rs, t) < |rs| && rs[Position(rs, t)].granted && r.txn == t
    requires m == X ==> rs[Position(rs, t)].mode in {IX, SIX, X}
    ensures var rest := Erase(rs, Position(rs, t));
            AheadAgrees(InsertAt(rest, FirstWaiting(rest), r), t, Announced(m))
  {
    var i := Position(rs, t);
    var rest := Erase(rs, i);
    var k := FirstWaiting(rest);
    var rs' := InsertAt(rest, k, r);
    assert rs'[k] == r;
    forall j | 0 <= j < Position(rs', t) && j < |rs'|
      ensures Compatible(rs'[j].mode, Announced(m))
    {
      assert j < k && rs'[j] == rest[j] && rest[j].granted;
      var j' := if j < i then j else j + 1;
      assert rest[j] == rs[j'] && rs[j'].granted;
      CompatibleIff(rs[j'].mode, rs[i].mode);
      CompatibleIff(rs[i].mode, rs[j'].mode);
      assert Compatible(rs[j'].mode, rs[i].mode);
      CoverIsWeaker(rs[j'].mode, rs[i].mode, m);
    }
  }

  lemma UpgradeSleeps(s: State, t: TxnId, m': Mode, tg: Target, oid: Oid)
    requires t in s.txns && tg in s.queues && Position(s.queues[tg].requests, t) < |s.queues[tg].requests|
    requires s.queues[tg].requests[Position(s.queues[tg].requests, t)].mode != m'
    requires RequestLock(s, t, m', tg, oid).1 == Sleeping
    ensures var rest := Erase(s.queues[tg].requests, Position(s.queues[tg].requests, t));
            var s' := RequestLock(s, t, m', tg, oid).0;
            && QueueAt(s', tg).requests == InsertAt(rest, FirstWaiting(rest), Request(t, m', oid, false))
            && t in s'.waits && s'.waits[t] == Wait(tg, true)
  {
  }

  lemma UpgradesCover(held: Mode, m': Mode, m: Mode)
    requires (held, m') in UPGRADES && (m == X ==> held in {IX, SIX, X})
    ensures m == X ==> m' in {IX, SIX, X}
  {
  }

  /** A table request of t keeps a row in mode m covered. */
  lemma TableRequestCovers(s: State, t: TxnId, m': Mode, oid: Oid, m: Mode, owner: Rid -> Oid)
    requires Inv(s, owner) && AllGrantsAgree(s) && t in s.txns && t !in s.waits && TableCovers(s, t, m, oid)
    requires !RequestLock(s, t, m', Table(oid), oid).1.Thrown?
    ensures TableCovers(RequestLock(s, t, m', Table(oid), oid).0, t, m, oid)
  {
    var tg := Table(oid);
    AwakeHoldsAll(s, t, tg, owner);
    RequestVerdict(s, t, m', tg, oid, owner);
    var held := Entry(s, tg, t).value.mode;
    if held != m' {
      UpgradeRefusedIff(s, t, m', tg, oid);
      UpgradesCover(held, m', m);
      var rs := s.queues[tg].requests;
      LookupIsPosition(rs, t);
      if RequestLock(s, t, m', tg, oid).1 == Sleeping {
        UpgradeSleeps(s, t, m', tg, oid);
        UpgradeWaitsBehindFriends(rs, t, Request(t, m', oid, false), m);
      }
    }
  }

  /** A request touches one queue, and its transaction's phase only by aborting it. */
  lemma RequestFrame(s: State, t: TxnId, m: Mode, tg: Target, oid: Oid)
    requires t in s.txns
    ensures var r := RequestLock(s, t, m, tg, oid);
            && t in r.0.txns && (r.1.Thrown? ==> r.0.txns[t].state == ABORTED)
            && (!r.1.Thrown? ==> r.0.txns[t].state == s.txns[t].state)
            && forall g :: g != tg ==> QueueAt(r.0, g) == QueueAt(s, g)
  {
  }

  lemma SameQueueSameEntry(s: State, s': State, g: Target, t: TxnId)
    requires QueueAt(s', g) == QueueAt(s, g)
    ensures Entry(s', g, t) == Entry(s, g, t)
  {
  }

  /** Of a transaction that was awake, a row and a table whose queues stay as they are stay covered. */
  lemma UntouchedStaysCovered(s: State, s': State, t: TxnId, rid: Rid, owner: Rid -> Oid)
    requires Inv(s, owner) && t in s.txns && t !in s.waits && CoveredAt(s, t, rid, owner)
    requires QueueAt(s', Row(rid)) == QueueAt(s, Row(rid))
    requires QueueAt(s', Table(owner(rid))) == QueueAt(s, Table(owner(rid)))
    requires Unfinished(s', t) ==> Unfinished(s, t)
    ensures CoveredAt(s', t, rid, owner)
  {
    SameQueueSameEntry(s, s', Row(rid), t);
    SameQueueSameEntry(s, s', Table(owner(rid)), t);
    if Entry(s, Table(owner(rid)), t).Some? {
      AwakeHoldsAll(s, t, Table(owner(rid)), owner);
    }
  }

  lemma FinishedIsCovered(s: State, t: TxnId, rid: Rid, owner: Rid -> Oid)
    requires !Unfinished(s, t)
    ensures CoveredAt(s, t, rid, owner)
  {
  }

  lemma OwnTableCallCovered(s: State, t: TxnId, m': Mode, oid: Oid, rid: Rid, owner: Rid -> Oid)
    requires Inv(s, owner) && AllGrantsAgree(s) && t in s.txns && t !in s.waits && CoveredAt(s, t, rid, owner)
    ensures CoveredAt(LockTable(s, t, m', oid).0, t, rid, owner)
  {
    var s', tg := RequestLock(s, t, m', Table(oid), oid).0, Table(oid);
    RequestFrame(s, t, m', tg, oid);
    if CheckLock(s.txns[t], m', false).Some? || RequestLock(s, t, m', tg, oid).1.Thrown? {
      FinishedIsCovered(LockTable(s, t, m', oid).0, t, rid, owner);
    } else if owner(rid) != oid {
      UntouchedStaysCovered(s, s', t, rid, owner);
    } else if !Unfinished(s, t) {
      FinishedIsCovered(s', t, rid, owner);
    } else {
      SameQueueSameEntry(s, s', Row(rid), t);
      if Entry(s, Row(rid), t).Some? {
        TableRequestCovers(s, t, m', oid, Entry(s, Row(rid), t).value.mode, owner);
      }
    }
  }

  /** A row request that got past the check for a table lock has one. */
  lemma CheckedRowIsCovered(s: State, t: TxnId, m: Mode, oid: Oid, owner: Rid -> Oid)
    requires Inv(s, owner) && t in s.txns && m in {S, X}
    requires CheckTableIntentionLock(s.txns[t].locks, m, oid).None?
    ensures TableCovers(s, t, m, oid) && Entry(s, Table(oid), t).value.granted
  {
    var ls := s.txns[t].locks;
    var ms := if m == S then {IS, S, X, IX} else {X, IX, SIX};
    var held :| held in ms && oid in TableSet(ls, held);
    assert HeldIn(Entry(s, Table(oid), t), held);
  }

  lemma OwnRowCallCovered(s: State, t: TxnId, m': Mode, rid': Rid, rid: Rid, owner: Rid -> Oid)
    requires Inv(s, owner) && t in s.txns && t !in s.waits && CoveredAt(s, t, rid, owner)
    ensures CoveredAt(LockRow(s, t, m', owner(rid'), rid').0, t, rid, owner)
  {
    var oid, tg := owner(rid'), Row(rid');
    var s' := RequestLock(s, t, m', tg, oid).0;
    RequestFrame(s, t, m', tg, oid);
    if CheckLock(s.txns[t], m', true).Some? || CheckTableIntentionLock(s.txns[t].locks, m', oid).Some?
       || RequestLock(s, t, m', tg, oid).1.Thrown? {
      FinishedIsCovered(LockRow(s, t, m', oid, rid').0, t, rid, owner);
    } else if rid != rid' {
      UntouchedStaysCovered(s, s', t, rid, owner);
    } else {
      CheckLockIff(s.txns[t], m', true);
      CheckedRowIsCovered(s, t, m', oid, owner);
      RequestVerdict(s, t, m', tg, oid, owner);
      SameQueueSameEntry(s, s', Table(oid), t);
    }
  }

  lemma WakeFrame(s: State, t: TxnId)
    requires t in s.txns && Asleep(s, t)
    ensures var s' := Wake(s, t).0;
            && t in s'.txns && s'.txns[t].state == s.txns[t].state
            && forall g :: g != s.waits[t].target ==> QueueAt(s', g) == QueueAt(s, g)
  {
  }

  lemma OwnWakeCovered(s: State, t: TxnId, rid: Rid, owner: Rid -> Oid)
    requires Inv(s, owner) && t in s.txns && t in s.waits && CoveredAt(s, t, rid, owner)
    ensures Asleep(s, t) && CoveredAt(Wake(s, t).0, t, rid, owner)
  {
    WakeVerdict(s, t, owner);
    WakeFrame(s, t);
    var s', table := Wake(s, t).0, Table(owner(rid));
    if !Unfinished(s, t) {
      FinishedIsCovered(s', t, rid, owner);
    } else if Wake(s, t).1 == Sleeping {
      assert s' == s;
    } else {
      LookupIsPosition(s.queues[s.waits[t].target].requests, t);
      WokenIsCovered(s, s', t, rid, owner);
    }
  }

  /** t's waiting request was granted and nothing else about t has changed. */
  lemma WokenIsCovered(s: State, s': State, t: TxnId, rid: Rid, owner: Rid -> Oid)
    requires Inv(s, owner) && t in s.txns && t in s.waits && CoveredAt(s, t, rid, owner) && Unfinished(s, t)
    requires forall g :: g != s.waits[t].target ==> QueueAt(s', g) == QueueAt(s, g)
    requires var tg := s.waits[t].target;
             Entry(s, tg, t).Some? && Entry(s', tg, t) == Some(Entry(s, tg, t).value.(granted := true))
    ensures CoveredAt(s', t, rid, owner)
  {
    var tg, table := s.waits[t].target, Table(owner(rid));
    if tg != Row(rid) { SameQueueSameEntry(s, s', Row(rid), t); }
    if tg != table {
      SameQueueSameEntry(s, s', table, t);
      assert !WaitingIn(Entry(s, table, t));
    }
  }

  lemma ReleaseFrame(s: State, t: TxnId, tg: Target, oid: Oid)
    requires t in s.txns && tg in s.queues
    ensures var r := Release(s, t, tg, oid);
            && t in r.0.txns && (r.1.Thrown? || !Unfinished(s, t) ==> !Unfinished(r.0, t))
            && forall g :: g != tg ==> QueueAt(r.0, g) == QueueAt(s, g)
  {
  }

  lemma OwnUnlockCovered(s: State, e: Event, rid: Rid, owner: Rid -> Oid)
    requires Inv(s, owner) && UncommittedReadersWriteOnly(s) && Enabled(s, e, owner) && KeepsTable(s, e, owner)
    requires (e.UnlockTableCall? || e.UnlockRowCall?) && CoveredAt(s, e.txn, rid, owner)
    ensures CoveredAt(Apply(s, e, owner).0, e.txn, rid, owner)
  {
    var t := e.txn;
    var tg := if e.UnlockTableCall? then Table(e.oid) else Row(e.rid);
    var r := Apply(s, e, owner);
    if r.1.Thrown? {
      ThrowingAborts(s, e, owner);
      FinishedIsCovered(r.0, t, rid, owner);
    } else {
      ReleaseFrame(s, t, tg, e.oid);
      ReleaseVerdict(s, t, tg, e.oid, owner);
      if tg != Row(rid) && tg != Table(owner(rid)) {
        UntouchedStaysCovered(s, r.0, t, rid, owner);
      } else if tg == Table(owner(rid)) {
        SameQueueSameEntry(s, r.0, Row(rid), t);
      }
    }
  }

  lemma ThrowingAborts(s: State, e: Event, owner: Rid -> Oid)
    requires Enabled(s, e, owner) && Apply(s, e, owner).1.Thrown?
    ensures e.txn in Apply(s, e, owner).0.txns && Apply(s, e, owner).0.txns[e.txn].state == ABORTED
  {
  }

  lemma OwnStepCovered(s: State, e: Event, rid: Rid, owner: Rid -> Oid)
    requires Inv(s, owner) && UncommittedReadersWriteOnly(s) && AllGrantsAgree(s)
    requires Enabled(s, e, owner) && KeepsTable(s, e, owner) && CoveredAt(s, e.txn, rid, owner)
    ensures CoveredAt(Apply(s, e, owner).0, e.txn, rid, owner)
  {
    match e
    case Begin(t, _) => SameQueueSameEntry(s, Apply(s, e, owner).0, Row(rid), t);
    case LockTableCall(t, m, oid) => OwnTableCallCovered(s, t, m, oid, rid, owner);
    case LockRowCall(t, m, _, rid') => OwnRowCallCovered(s, t, m, rid', rid, owner);
    case WakeUp(t) => OwnWakeCovered(s, t, rid, owner);
    case UnlockTableCall(_, _) => OwnUnlockCovered(s, e, rid, owner);
    case UnlockRowCall(_, _, _) => OwnUnlockCovered(s, e, rid, owner);
    case Victim(t) => FinishedIsCovered(Apply(s, e, owner).0, t, rid, owner);
    case Finish(t, _) => FinishedIsCovered(Apply(s, e, owner).0, t, rid, owner);
  }

  /** Every step of a run that keeps its tables keeps rows covered. */
  lemma StepKeepsCovered(s: State, e: Event, owner: Rid -> Oid)
    requires Inv(s, owner) && UncommittedReadersWriteOnly(s) && AllGrantsAgree(s)
    requires Enabled(s, e, owner) && KeepsTable(s, e, owner) && Covered(s, owner)
    ensures Covered(Apply(s, e, owner).0, owner)
  {
    forall t, rid
      ensures CoveredAt(Apply(s, e, owner).0, t, rid, owner)
    {
      assert CoveredAt(s, t, rid, owner);
      if t == e.txn {
        OwnStepCovered(s, e, rid, owner);
      } else {
        OthersStayCovered(s, e, t, rid, owner);
      }
    }
  }

  // ------------------------------------------------------------- isolation

  /** Who holds a table under which t has a row does not hold it as a whole, and for a row in X not for reading. */
  lemma TablesKeepApart(s: State, t: TxnId, u: TxnId, m: Mode, oid: Oid, held: Mode)
    requires AllGrantsAgree(s) && AllGrantsRespectOrder(s) && t != u
    requires TableCovers(s, t, m, oid) && Holds(s, u, Table(oid), held)
    ensures held != X && (m == X ==> held !in {S, SIX})
  {
    var rs := s.queues[Table(oid)].requests;
    var i := Position(rs, t);
    LookupIsPosition(rs, t);
    var j :| 0 <= j < |rs| && IsGrantTo(rs[j], u, held);
    if i < j {
      assert Compatible(rs[i].mode, held);
    } else if rs[i].granted {
      assert Compatible(held, rs[i].mode);
    } else {
      assert Compatible(held, Announced(m));
    }
  }

  lemma RowHolderIsCovered(s: State, t: TxnId, rid: Rid, m: Mode, owner: Rid -> Oid)
    requires Inv(s, owner) && Covered(s, owner) && Unfinished(s, t) && Holds(s, t, Row(rid), m)
    ensures TableCovers(s, t, m, owner(rid))
  {
    HoldsIsEntry(s, t, Row(rid), m);
    assert CoveredAt(s, t, rid, owner);
  }

  /** In a covered state with agreeing grants a row one transaction may write is out of reach for all others. */
  lemma CoveredIsIsolated(s: State, t: TxnId, u: TxnId, rid: Rid, owner: Rid -> Oid)
    requires Inv(s, owner) && Covered(s, owner) && AllGrantsAgree(s) && AllGrantsRespectOrder(s)
    requires t != u && Unfinished(s, t) && Unfinished(s, u) && MayWrite(s, t, rid, owner)
    ensures !MayRead(s, u, rid, owner)
  {
    RowOutOfReach(s, t, u, rid, S, owner);
    RowOutOfReach(s, t, u, rid, X, owner);
    forall held | Holds(s, u, Table(owner(rid)), held)
      ensures held !in {S, SIX, X}
    {
      TableOutOfReach(s, t, u, rid, held, owner);
    }
  }

  lemma RowOutOfReach(s: State, t: TxnId, u: TxnId, rid: Rid, m: Mode, owner: Rid -> Oid)
    requires Inv(s, owner) && Covered(s, owner) && AllGrantsAgree(s) && AllGrantsRespectOrder(s)
    requires t != u && Unfinished(s, t) && Unfinished(s, u) && MayWrite(s, t, rid, owner)
    ensures !Holds(s, u, Row(rid), m)
  {
    if Holds(s, u, Row(rid), m) {
      if Holds(s, t, Row(rid), X) {
        GrantsKeepApart(s, t, u, Row(rid), X, m);
      } else {
        RowHolderIsCovered(s, u, rid, m, owner);
        TablesKeepApart(s, u, t, m, owner(rid), X);
      }
    }
  }

  lemma TableOutOfReach(s: State, t: TxnId, u: TxnId, rid: Rid, held: Mode, owner: Rid -> Oid)
    requires Inv(s, owner) && Covered(s, owner) && AllGrantsAgree(s) && AllGrantsRespectOrder(s)
    requires t != u && Unfinished(s, t) && MayWrite(s, t, rid, owner) && Holds(s, u, Table(owner(rid)), held)
    ensures held !in {S, SIX, X}
  {
    if Holds(s, t, Row(rid), X) {
      RowHolderIsCovered(s, t, rid, X, owner);
      TablesKeepApart(s, t, u, X, owner(rid), held);
    } else {
      GrantsKeepApart(s, t, u, Table(owner(rid)), X, held);
    }
  }

  lemma {:induction false} RunKeepsCovered(es: seq<Event>, k: nat, owner: Rid -> Oid)
    requires Legal(es, owner) && k <= |es|
    requires forall j :: 0 <= j < |es| ==> UpgradeSafe(StateAt(es, j, owner), es[j])
    requires forall j :: 0 <= j < |es| ==> KeepsTable(StateAt(es, j, owner), es[j], owner)
    ensures Covered(StateAt(es, k, owner), owner)
  {
    if k > 0 {
      RunKeepsCovered(es, k - 1, owner);
      InvAt(es, k - 1, owner);
      StateAtNext(es, k - 1, owner);
      SafeUpgradesKeepAgreement(es, k - 1, owner);
      LegalPrefix(es, k - 1, owner);
      ReadUncommittedTakesNoSharedLocks(es[..k - 1], owner);
      assert KeepsTable(StateAt(es, k - 1, owner), es[k - 1], owner);
      StepKeepsCovered(StateAt(es, k - 1, owner), es[k - 1], owner);
    }
  }

  /**
   Over every run with safe upgrades in which tables are kept as long as their
   rows: at every moment, what one transaction at work may write no other
   transaction at work may read or write, across rows and tables.
   */
  lemma RowsAreIsolated(es: seq<Event>, k: nat, t: TxnId, u: TxnId, rid: Rid, owner: Rid -> Oid)
    requires Legal(es, owner) && k <= |es|
    requires forall j :: 0 <= j < |es| ==> UpgradeSafe(StateAt(es, j, owner), es[j])
    requires forall j :: 0 <= j < |es| ==> KeepsTable(StateAt(es, j, owner), es[j], owner)
    requires t != u && Unfinished(StateAt(es, k, owner), t) && Unfinished(StateAt(es, k, owner), u)
    ensures !(MayWrite(StateAt(es, k, owner), t, rid, owner) && MayRead(StateAt(es, k, owner), u, rid, owner))
  {
    RunKeepsCovered(es, k, owner);
    InvAt(es, k, owner);
    SafeUpgradesKeepAgreement(es, k, owner);
    if MayWrite(StateAt(es, k, owner), t, rid, owner) {
      CoveredIsIsolated(StateAt(es, k, owner), t, u, rid, owner);
    }
  }

  // ---------------------------------------- a table given up too early

  const EARLY_UNLOCK_RUN := LATE_ROW_RUN + [Begin(2, REPEATABLE_READ), LockTableCall(2, S, 7)]

  /** Transaction 1 gives up the table under its row, 2 takes the table, and both are at work on the row. */
  lemma EarlyUnlockBreaksIsolation(owner: Rid -> Oid)
    requires owner(3) == 7
    ensures Legal(EARLY_UNLOCK_RUN, owner)
    ensures var s := After(EARLY_UNLOCK_RUN, owner);
            Unfinished(s, 1) && Unfinished(s, 2) && MayWrite(s, 1, 3, owner) && MayRead(s, 2, 3, owner)
  {
    LateRowState(owner);
    var s := After(LATE_ROW_RUN, owner);
    var e, e' := Begin(2, REPEATABLE_READ), LockTableCall(2, S, 7);
    LegalExtend(LATE_ROW_RUN, e, owner);
    var s1 := After(LATE_ROW_RUN + [e], owner);
    LegalExtend(LATE_ROW_RUN + [e], e', owner);
    assert EARLY_UNLOCK_RUN == LATE_ROW_RUN + [e] + [e'];
    var s2 := After(EARLY_UNLOCK_RUN, owner);
    assert [] + [Request(2, S, 7, false)] == [Request(2, S, 7, false)];
    assert s2.queues[Table(7)].requests == [Request(2, S, 7, true)];
    assert IsGrantTo(s2.queues[Table(7)].requests[0], 2, S) && Holds(s2, 2, Table(7), S);
    assert IsGrantTo(s2.queues[Row(3)].requests[0], 1, X) && Holds(s2, 1, Row(3), X);
  }

  lemma LateRowState(owner: Rid -> Oid)
    requires owner(3) == 7
    ensures Legal(LATE_ROW_RUN, owner)
    ensures var s := After(LATE_ROW_RUN, owner);
            && s.queues == map[Table(7) := Queue([], INVALID_TXN_ID),
                               Row(3) := Queue([Request(1, X, 7, true)], INVALID_TXN_ID)]
            && s.txns.Keys == {1} && s.txns[1].state == GROWING && s.waits == map[]
  {
    TableUnlockedUnderItsRows(owner);
    var a, b, c := LATE_ROW_RUN[..1], LATE_ROW_RUN[..2], LATE_ROW_RUN[..3];
    LegalExtend([], LATE_ROW_RUN[0], owner);
    assert a == [] + [LATE_ROW_RUN[0]];
    LegalExtend(a, LATE_ROW_RUN[1], owner);
    assert b == a + [LATE_ROW_RUN[1]];
    LegalExtend(b, LATE_ROW_RUN[2], owner);
    assert c == b + [LATE_ROW_RUN[2]];
    LegalExtend(c, LATE_ROW_RUN[3], owner);
    assert LATE_ROW_RUN == c + [LATE_ROW_RUN[3]];
    assert Erase([Request(1, IX, 7, true)], 0) == [];
  }
}
