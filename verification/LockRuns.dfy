/**
 Properties of whole runs of the lock manager: bookkeeping, agreement of granted
 locks, the isolation rules, and completeness of deadlock detection.
 */
module LockRuns {
  import opened Collections
  import opened WaitsFor
  import opened LockQueue
  import opened LockProtocol
  import opened LockInvariants

  // ----------------------------------------------------------------- runs

  /** The events can happen one after another from the initial state. */
  ghost predicate Legal(es: seq<Event>, owner: Rid -> Oid)
    decreases |es|, 0
  {
    es == [] ||
    (Legal(es[..|es| - 1], owner) && Enabled(After(es[..|es| - 1], owner), es[|es| - 1], owner))
  }

  /** The state a run ends in. */
  ghost function After(es: seq<Event>, owner: Rid -> Oid): State
    requires Legal(es, owner)
    decreases |es|, 1
  {
    if es == [] then INIT
    else Apply(After(es[..|es| - 1], owner), es[|es| - 1], owner).0
  }

  lemma {:induction false} LegalPrefix(es: seq<Event>, n: nat, owner: Rid -> Oid)
    requires Legal(es, owner) && n <= |es|
    ensures Legal(es[..n], owner)
    decreases |es|
  {
    if n == |es| {
      assert es[..n] == es;
    } else {
      assert es[..|es| - 1][..n] == es[..n];
      LegalPrefix(es[..|es| - 1], n, owner);
    }
  }

  /** The state before event k of a run. */
  ghost function StateAt(es: seq<Event>, k: nat, owner: Rid -> Oid): State
    requires Legal(es, owner) && k <= |es|
  {
    LegalPrefix(es, k, owner);
    After(es[..k], owner)
  }

  lemma StateAtNext(es: seq<Event>, k: nat, owner: Rid -> Oid)
    requires Legal(es, owner) && k < |es|
    ensures Enabled(StateAt(es, k, owner), es[k], owner)
    ensures StateAt(es, k + 1, owner) == Apply(StateAt(es, k, owner), es[k], owner).0
  {
    LegalPrefix(es, k + 1, owner);
    assert es[..k + 1] == es[..k] + [es[k]];
    LastEvent(es[..k + 1], es[..k], es[k], owner);
  }

  lemma LastEvent(es: seq<Event>, before: seq<Event>, e: Event, owner: Rid -> Oid)
    requires Legal(es, owner) && es == before + [e]
    ensures Legal(before, owner) && Enabled(After(before, owner), e, owner)
    ensures After(es, owner) == Apply(After(before, owner), e, owner).0
  {
    assert es[..|es| - 1] == before;
  }

  lemma {:induction false} RunKeepsInv(es: seq<Event>, owner: Rid -> Oid)
    requires Legal(es, owner)
    ensures Inv(After(es, owner), owner)
    decreases |es|
  {
    if es == [] {
      InitInv(owner);
    } else {
      RunKeepsInv(es[..|es| - 1], owner);
      ApplyKeepsInv(After(es[..|es| - 1], owner), es[|es| - 1], owner);
    }
  }

  lemma InvAt(es: seq<Event>, k: nat, owner: Rid -> Oid)
    requires Legal(es, owner) && k <= |es|
    ensures Inv(StateAt(es, k, owner), owner)
  {
    LegalPrefix(es, k, owner);
    RunKeepsInv(es[..k], owner);
  }

  // ---------------------------------------------------------- bookkeeping

  predicate IsGrantTo(r: Request, t: TxnId, m: Mode) {
    r.txn == t && r.mode == m && r.granted
  }

  /** Transaction t has a granted request in mode m on the target. */
  ghost predicate Holds(s: State, t: TxnId, tg: Target, m: Mode) {
    tg in s.queues &&
    exists i :: 0 <= i < |s.queues[tg].requests| && IsGrantTo(s.queues[tg].requests[i], t, m)
  }

  /** The lock sets list exactly the granted requests. */
  ghost predicate LockSetsAgree(s: State, owner: Rid -> Oid) {
    && (forall t, m, oid :: t in s.txns ==>
          (oid in TableSet(s.txns[t].locks, m) <==> Holds(s, t, Table(oid), m)))
    && (forall t, m, oid, rid :: t in s.txns ==>
          (rid in RowSet(s.txns[t].locks, m, oid) <==> oid == owner(rid) && Holds(s, t, Row(rid), m)))
  }

  /** No two transactions sleep in the upgrade branch of one queue. */
  ghost predicate OnePendingUpgrade(s: State) {
    forall t, u :: t in s.waits && u in s.waits && t != u && s.waits[t].upgrade && s.waits[u].upgrade ==>
      s.waits[t].target != s.waits[u].target
  }

  lemma HoldsIsEntry(s: State, t: TxnId, tg: Target, m: Mode)
    requires tg in s.queues ==> OnePerTxn(s.queues[tg].requests)
    ensures Holds(s, t, tg, m) <==> HeldIn(Entry(s, tg, t), m)
  {
    if tg in s.queues {
      LookupIsPosition(s.queues[tg].requests, t);
    }
  }

  /**
   In every reachable state the lock sets of the transactions and the request
   queues tell the same story, a transaction has at most one request per queue,
   and a queue has at most one pending upgrade.
   */
  lemma LockSetsMatchQueues(es: seq<Event>, owner: Rid -> Oid)
    requires Legal(es, owner)
    ensures LockSetsAgree(After(es, owner), owner)
    ensures forall tg :: tg in After(es, owner).queues ==> OnePerTxn(After(es, owner).queues[tg].requests)
    ensures OnePendingUpgrade(After(es, owner))
  {
    RunKeepsInv(es, owner);
    InvMeansAgreement(After(es, owner), owner);
  }

  lemma InvMeansAgreement(s: State, owner: Rid -> Oid)
    requires Inv(s, owner)
    ensures LockSetsAgree(s, owner)
  {
    forall t, m, oid | t in s.txns
      ensures oid in TableSet(s.txns[t].locks, m) <==> Holds(s, t, Table(oid), m)
    {
      HoldsIsEntry(s, t, Table(oid), m);
    }
    forall t, m, oid, rid | t in s.txns
      ensures rid in RowSet(s.txns[t].locks, m, oid) <==> oid == owner(rid) && Holds(s, t, Row(rid), m)
    {
      HoldsIsEntry(s, t, Row(rid), m);
    }
  }

  /** The upgrades the documentation allows. */
  const UPGRADES := {
    (IS, S), (IS, X), (IS, IX), (IS, SIX), (S, X), (S, SIX), (IX, X), (IX, SIX), (SIX, X)
  }

  /**
   A lock request ends in UPGRADE_CONFLICT exactly when the transaction has the
   resource in another mode and an upgrade is pending or the documentation does
   not allow this one; INCOMPATIBLE_UPGRADE, documented for the latter, is never
   thrown.
   */
  lemma UpgradeRefusedIff(s: State, t: TxnId, m: Mode, tg: Target, oid: Oid)
    requires t in s.txns
    ensures RequestLock(s, t, m, tg, oid).1 == Thrown(UPGRADE_CONFLICT) <==>
            Entry(s, tg, t).Some? && Entry(s, tg, t).value.mode != m
            && (s.queues[tg].upgrading != INVALID_TXN_ID || (Entry(s, tg, t).value.mode, m) !in UPGRADES)
    ensures RequestLock(s, t, m, tg, oid).1 != Thrown(INCOMPATIBLE_UPGRADE)
  {
    if tg in s.queues {
      LookupIsPosition(s.queues[tg].requests, t);
    }
    forall from, to | from != to
      ensures UpgradeAllowed(from, to) <==> (from, to) in UPGRADES
    {
    }
  }

  /**
   The documentation promises that a table is not unlocked while any of its rows
   is locked. The check fires exactly when the transaction holds rows of the
   table in both modes.
   */
  lemma UnlockTableRefusedIff(es: seq<Event>, t: TxnId, oid: Oid, owner: Rid -> Oid)
    requires Legal(es, owner) && t in After(es, owner).txns
    ensures UnlockTable(After(es, owner), t, oid).1 == Thrown(TABLE_UNLOCKED_BEFORE_UNLOCKING_ROWS) <==>
            && Table(oid) in After(es, owner).queues
            && (exists r :: owner(r) == oid && Holds(After(es, owner), t, Row(r), S))
            && (exists r :: owner(r) == oid && Holds(After(es, owner), t, Row(r), X))
  {
    RunKeepsInv(es, owner);
    var s := After(es, owner);
    var ls := s.txns[t].locks;
    RowsNonemptyIff(s, t, oid, S, owner);
    RowsNonemptyIff(s, t, oid, X, owner);
    assert oid in ls.sRow <==> RowSet(ls, S, oid) != {};
    assert oid in ls.xRow <==> RowSet(ls, X, oid) != {};
  }

  lemma RowsNonemptyIff(s: State, t: TxnId, oid: Oid, m: Mode, owner: Rid -> Oid)
    requires Inv(s, owner) && t in s.txns
    ensures RowSet(s.txns[t].locks, m, oid) != {} <==>
            exists r :: owner(r) == oid && Holds(s, t, Row(r), m)
  {
    InvMeansAgreement(s, owner);
    if RowSet(s.txns[t].locks, m, oid) != {} {
      var r := Pick(RowSet(s.txns[t].locks, m, oid));
      assert owner(r) == oid && Holds(s, t, Row(r), m);
    }
  }

  const LATE_ROW_RUN := [
    Begin(1, REPEATABLE_READ), LockTableCall(1, IX, 7), LockRowCall(1, X, 7, 3), UnlockTableCall(1, 7)]

  /** The promise is broken: the table is given up while the transaction still holds one of its rows. */
  lemma TableUnlockedUnderItsRows(owner: Rid -> Oid)
    requires owner(3) == 7
    ensures Legal(LATE_ROW_RUN, owner)
    ensures Holds(After(LATE_ROW_RUN, owner), 1, Row(3), X)
    ensures forall m :: !Holds(After(LATE_ROW_RUN, owner), 1, Table(7), m)
  {
    var a, b, c := LATE_ROW_RUN[..1], LATE_ROW_RUN[..2], LATE_ROW_RUN[..3];
    LegalExtend([], LATE_ROW_RUN[0], owner);
    assert a == [] + [LATE_ROW_RUN[0]];
    LegalExtend(a, LATE_ROW_RUN[1], owner);
    assert b == a + [LATE_ROW_RUN[1]];
    LegalExtend(b, LATE_ROW_RUN[2], owner);
    assert c == b + [LATE_ROW_RUN[2]];
    LegalExtend(c, LATE_ROW_RUN[3], owner);
    assert LATE_ROW_RUN == c + [LATE_ROW_RUN[3]];
    var s := After(LATE_ROW_RUN, owner);
    assert IsGrantTo(s.queues[Row(3)].requests[0], 1, X);
    assert s.queues[Table(7)].requests == [];
  }

  // --------------------------------------------- agreement of the grants

  /** A queue as `CheckGrant` sees it, and the position it is asked about. */
  datatype Placement = Placement(target: Target, rs: seq<Request>, i: nat)

  function PlacedRequest(s: State, t: TxnId, m: Mode, tg: Target, oid: Oid): (p: Option<Placement>)
    ensures p.Some? ==> p.value.i < |p.value.rs| && !p.value.rs[p.value.i].granted
  {
    if tg !in s.queues then None
    else
      var q := s.queues[tg];
      var i := Position(q.requests, t);
      if i == |q.requests| then Some(Placement(tg, q.requests + [Request(t, m, oid, false)], i))
      else if q.requests[i].mode == m || q.upgrading != INVALID_TXN_ID || !UpgradeAllowed(q.requests[i].mode, m)
      then None
      else
        var rest := Erase(q.requests, i);
        Some(Placement(tg, InsertAt(rest, FirstWaiting(rest), Request(t, m, oid, false)), FirstWaiting(rest)))
  }

  /** The question put to `CheckGrant` by an event, if it gets that far. */
  function Placed(s: State, e: Event): Option<Placement>
  {
    match e
    case LockTableCall(t, m, oid) =>
      if t !in s.txns || CheckLock(s.txns[t], m, false).Some? then None
      else PlacedRequest(s, t, m, Table(oid), oid)
    case LockRowCall(t, m, oid, rid) =>
      if t !in s.txns || CheckLock(s.txns[t], m, true).Some? ||
         CheckTableIntentionLock(s.txns[t].locks, m, oid).Some? then None
      else PlacedRequest(s, t, m, Row(rid), oid)
    case WakeUp(t) =>
      if t !in s.txns || !Asleep(s, t) || s.txns[t].state == ABORTED then None
      else
        var rs := s.queues[s.waits[t].target].requests;
        Some(Placement(s.waits[t].target, rs, Position(rs, t)))
    case _ => None
  }

  /** In every queue any two granted requests agree. */
  ghost predicate AllGrantsAgree(s: State) {
    forall tg :: tg in s.queues ==> GrantsAgree(s.queues[tg].requests)
  }

  /** A request about to be granted agrees with the grants behind it. */
  ghost predicate GrantSafe(s: State, e: Event) {
    Placed(s, e).Some? && Placed(s, e).value.i < |Placed(s, e).value.rs| &&
    CanGrant(Placed(s, e).value.rs, Placed(s, e).value.i) ==>
      var p := Placed(s, e).value;
      AgreesBehind(p.rs, p.i, p.rs[p.i].mode)
  }

  lemma SettleAgreesIff(s: State, t: TxnId, tg: Target, rs: seq<Request>, i: nat, upgrading: TxnId, upgrade: bool)
    requires t in s.txns && i < |rs| && !rs[i].granted
    requires AllGrantsAgree(s) && GrantsAgree(rs)
    ensures AllGrantsAgree(Settle(s, t, tg, rs, i, upgrading, upgrade).0) <==>
            (CanGrant(rs, i) ==> AgreesBehind(rs, i, rs[i].mode))
  {
    var s' := Settle(s, t, tg, rs, i, upgrading, upgrade).0;
    if CanGrant(rs, i) { GrantKeepsAgreementIff(rs, i); }
    assert tg in s'.queues;
    assert forall g :: g in s'.queues && g != tg ==> g in s.queues && s'.queues[g] == s.queues[g];
  }

  lemma InsertKeepsAgreement(rs: seq<Request>, k: nat, r: Request)
    requires k <= |rs| && GrantsAgree(rs) && !r.granted
    ensures GrantsAgree(InsertAt(rs, k, r))
  {
    var rs' := InsertAt(rs, k, r);
    forall a, b | 0 <= a < b < |rs'| && rs'[a].granted && rs'[b].granted
      ensures Compatible(rs'[a].mode, rs'[b].mode)
    {
      assert rs'[a] == rs[if a < k then a else a - 1] && rs'[b] == rs[if b < k then b else b - 1];
    }
  }

  lemma RequestAgreesIff(s: State, t: TxnId, m: Mode, tg: Target, oid: Oid)
    requires t in s.txns && AllGrantsAgree(s)
    ensures AllGrantsAgree(RequestLock(s, t, m, tg, oid).0) <==>
            (PlacedRequest(s, t, m, tg, oid).Some? ==>
               var p := PlacedRequest(s, t, m, tg, oid).value;
               CanGrant(p.rs, p.i) ==> AgreesBehind(p.rs, p.i, p.rs[p.i].mode))
  {
    if PlacedRequest(s, t, m, tg, oid).Some? {
      var p := PlacedRequest(s, t, m, tg, oid).value;
      var q := s.queues[tg];
      var i := Position(q.requests, t);
      if i == |q.requests| {
        assert GrantsAgree(p.rs);
        SettleAgreesIff(s, t, tg, p.rs, p.i, q.upgrading, false);
      } else {
        EraseKeepsOrder(q.requests, i);
        var rest := Erase(q.requests, i);
        InsertKeepsAgreement(rest, p.i, p.rs[p.i]);
        var s1 := SetLocks(s, t, DeleteLock(s.txns[t].locks, q.requests[i].mode, tg, oid));
        SettleAgreesIff(s1, t, tg, p.rs, p.i, t, true);
      }
    }
  }

  lemma EraseAtAgrees(s: State, s': State, tg: Target, i: nat)
    requires AllGrantsAgree(s) && tg in s.queues && i < |s.queues[tg].requests|
    requires tg in s'.queues && s'.queues[tg].requests == Erase(s.queues[tg].requests, i)
    requires s'.queues == s.queues[tg := s'.queues[tg]]
    ensures AllGrantsAgree(s')
  {
    EraseKeepsOrder(s.queues[tg].requests, i);
  }

  /** One step keeps the grants in agreement exactly when it grants nothing that disagrees with a grant behind it. */
  lemma StepKeepsAgreementIff(s: State, e: Event, owner: Rid -> Oid)
    requires Inv(s, owner) && Enabled(s, e, owner) && AllGrantsAgree(s)
    ensures AllGrantsAgree(Apply(s, e, owner).0) <==> GrantSafe(s, e)
  {
    match e
    case LockTableCall(t, m, oid) => RequestAgreesIff(s, t, m, Table(oid), oid);
    case LockRowCall(t, m, oid, rid) => RequestAgreesIff(s, t, m, Row(rid), oid);
    case WakeUp(t) =>
      SleeperIsQueued(s, t);
      var tg := s.waits[t].target;
      var i := Position(s.queues[tg].requests, t);
      if s.txns[t].state == ABORTED {
        EraseAtAgrees(s, Apply(s, e, owner).0, tg, i);
      } else {
        SettleAgreesIff(s, t, tg, s.queues[tg].requests, i, s.queues[tg].upgrading, s.waits[t].upgrade);
      }
    case UnlockTableCall(t, oid) =>
      if UnlockTable(s, t, oid).1 == Returned(true) {
        EraseAtAgrees(s, Apply(s, e, owner).0, Table(oid), Position(s.queues[Table(oid)].requests, t));
      }
    case UnlockRowCall(t, oid, rid) =>
      if UnlockRow(s, t, oid, rid).1 == Returned(true) {
        EraseAtAgrees(s, Apply(s, e, owner).0, Row(rid), Position(s.queues[Row(rid)].requests, t));
      }
    case _ =>
  }

  /**
   Over a whole run: the granted requests of every queue agree at every moment
   exactly when no step grants a request that disagrees with a grant behind it.
   */
  lemma GrantsAgreeThroughoutIff(es: seq<Event>, owner: Rid -> Oid)
    requires Legal(es, owner)
    ensures (forall k :: 0 <= k <= |es| ==> AllGrantsAgree(StateAt(es, k, owner))) <==>
            (forall k :: 0 <= k < |es| ==> GrantSafe(StateAt(es, k, owner), es[k]))
  {
    if forall k :: 0 <= k <= |es| ==> AllGrantsAgree(StateAt(es, k, owner)) {
      forall k | 0 <= k < |es| ensures GrantSafe(StateAt(es, k, owner), es[k]) {
        AgreementAt(es, k, owner);
        assert AllGrantsAgree(StateAt(es, k + 1, owner));
      }
    }
    if forall k :: 0 <= k < |es| ==> GrantSafe(StateAt(es, k, owner), es[k]) {
      forall k | 0 <= k <= |es| ensures AllGrantsAgree(StateAt(es, k, owner)) {
        SafeGrantsAgree(es, k, owner);
      }
    }
  }

  lemma AgreementAt(es: seq<Event>, k: nat, owner: Rid -> Oid)
    requires Legal(es, owner) && k < |es| && AllGrantsAgree(StateAt(es, k, owner))
    ensures AllGrantsAgree(StateAt(es, k + 1, owner)) <==> GrantSafe(StateAt(es, k, owner), es[k])
  {
    InvAt(es, k, owner);
    StateAtNext(es, k, owner);
    StepKeepsAgreementIff(StateAt(es, k, owner), es[k], owner);
  }

  lemma {:induction false} SafeGrantsAgree(es: seq<Event>, k: nat, owner: Rid -> Oid)
    requires Legal(es, owner) && k <= |es|
    requires forall j :: 0 <= j < |es| ==> GrantSafe(StateAt(es, j, owner), es[j])
    ensures AllGrantsAgree(StateAt(es, k, owner))
  {
    if k > 0 {
      SafeGrantsAgree(es, k - 1, owner);
      AgreementAt(es, k - 1, owner);
      assert GrantSafe(StateAt(es, k - 1, owner), es[k - 1]);
    }
  }

  // --------------------------- a condition on upgrades that rules this out

  ghost predicate AllGrantsRespectOrder(s: State) {
    forall tg :: tg in s.queues ==> GrantsRespectOrder(s.queues[tg].requests)
  }

  /** An upgrade starts only when its mode agrees with the grants behind the first waiting request. */
  ghost predicate UpgradeSafeOn(s: State, t: TxnId, m: Mode, tg: Target) {
    tg in s.queues && Position(s.queues[tg].requests, t) < |s.queues[tg].requests| ==>
      var rest := Erase(s.queues[tg].requests, Position(s.queues[tg].requests, t));
      AgreesBehind(rest, FirstWaiting(rest), m)
  }

  ghost predicate UpgradeSafe(s: State, e: Event) {
    match e
    case LockTableCall(t, m, oid) => UpgradeSafeOn(s, t, m, Table(oid))
    case LockRowCall(t, m, oid, rid) => UpgradeSafeOn(s, t, m, Row(rid))
    case _ => true
  }

  lemma SettleKeepsOrder(s: State, t: TxnId, tg: Target, rs: seq<Request>, i: nat, upgrading: TxnId, upgrade: bool)
    requires t in s.txns && i < |rs|
    requires AllGrantsRespectOrder(s) && GrantsRespectOrder(rs)
    ensures AllGrantsRespectOrder(Settle(s, t, tg, rs, i, upgrading, upgrade).0)
  {
    if CanGrant(rs, i) { GrantKeepsOrder(rs, i); }
  }

  lemma RequestKeepsOrder(s: State, t: TxnId, m: Mode, tg: Target, oid: Oid)
    requires t in s.txns && AllGrantsRespectOrder(s) && UpgradeSafeOn(s, t, m, tg)
    ensures AllGrantsRespectOrder(RequestLock(s, t, m, tg, oid).0)
  {
    if PlacedRequest(s, t, m, tg, oid).Some? {
      var p := PlacedRequest(s, t, m, tg, oid).value;
      var q := s.queues[tg];
      var i := Position(q.requests, t);
      if i == |q.requests| {
        AppendKeepsOrder(q.requests, p.rs[p.i]);
        SettleKeepsOrder(s, t, tg, p.rs, p.i, q.upgrading, false);
      } else {
        EraseKeepsOrder(q.requests, i);
        var rest := Erase(q.requests, i);
        UpgradeKeepsOrderIff(rest, p.rs[p.i]);
        var s1 := SetLocks(s, t, DeleteLock(s.txns[t].locks, q.requests[i].mode, tg, oid));
        SettleKeepsOrder(s1, t, tg, p.rs, p.i, t, true);
      }
    }
  }

  lemma EraseAtKeepsOrder(s: State, s': State, tg: Target, i: nat)
    requires AllGrantsRespectOrder(s) && tg in s.queues && i < |s.queues[tg].requests|
    requires tg in s'.queues && s'.queues[tg].requests == Erase(s.queues[tg].requests, i)
    requires s'.queues == s.queues[tg := s'.queues[tg]]
    ensures AllGrantsRespectOrder(s')
  {
    EraseKeepsOrder(s.queues[tg].requests, i);
  }

  lemma StepKeepsOrder(s: State, e: Event, owner: Rid -> Oid)
    requires Inv(s, owner) && Enabled(s, e, owner) && AllGrantsRespectOrder(s) && UpgradeSafe(s, e)
    ensures AllGrantsRespectOrder(Apply(s, e, owner).0)
  {
    match e
    case LockTableCall(t, m, oid) => RequestKeepsOrder(s, t, m, Table(oid), oid);
    case LockRowCall(t, m, oid, rid) => RequestKeepsOrder(s, t, m, Row(rid), oid);
    case WakeUp(t) =>
      var tg := s.waits[t].target;
      var i := Position(s.queues[tg].requests, t);
      if s.txns[t].state == ABORTED {
        EraseAtKeepsOrder(s, Apply(s, e, owner).0, tg, i);
      } else {
        SettleKeepsOrder(s, t, tg, s.queues[tg].requests, i, s.queues[tg].upgrading, s.waits[t].upgrade);
      }
    case UnlockTableCall(t, oid) =>
      if UnlockTable(s, t, oid).1 == Returned(true) {
        EraseAtKeepsOrder(s, Apply(s, e, owner).0, Table(oid), Position(s.queues[Table(oid)].requests, t));
      }
    case UnlockRowCall(t, oid, rid) =>
      if UnlockRow(s, t, oid, rid).1 == Returned(true) {
        EraseAtKeepsOrder(s, Apply(s, e, owner).0, Row(rid), Position(s.queues[Row(rid)].requests, t));
      }
    case _ =>
  }

  /**
   In a run whose upgrades are safe, every granted request agrees with everything
   before it in its queue at all times, and so the grants agree pairwise.
   */
  lemma {:induction false} SafeUpgradesKeepAgreement(es: seq<Event>, k: nat, owner: Rid -> Oid)
    requires Legal(es, owner) && k <= |es|
    requires forall j :: 0 <= j < |es| ==> UpgradeSafe(StateAt(es, j, owner), es[j])
    ensures AllGrantsRespectOrder(StateAt(es, k, owner)) && AllGrantsAgree(StateAt(es, k, owner))
  {
    if k > 0 {
      SafeUpgradesKeepAgreement(es, k - 1, owner);
      InvAt(es, k - 1, owner);
      StateAtNext(es, k - 1, owner);
      assert UpgradeSafe(StateAt(es, k - 1, owner), es[k - 1]);
      StepKeepsOrder(StateAt(es, k - 1, owner), es[k - 1], owner);
    }
  }

  lemma LegalExtend(es: seq<Event>, e: Event, owner: Rid -> Oid)
    requires Legal(es, owner) && Enabled(After(es, owner), e, owner)
    ensures Legal(es + [e], owner)
    ensures After(es + [e], owner) == Apply(After(es, owner), e, owner).0
  {
    var es' := es + [e];
    assert es'[..|es'| - 1] == es;
  }

  /** Three growing repeatable-read transactions, of which at most 2 sleeps, and the queue of table 7. */
  ghost predicate Scene(s: State, rs: seq<Request>) {
    && Table(7) in s.queues && s.queues[Table(7)] == Queue(rs, INVALID_TXN_ID)
    && (forall t :: t in {1, 2, 3} ==> t in s.txns && s.txns[t].iso == REPEATABLE_READ && s.txns[t].state == GROWING)
    && s.waits.Keys <= {2}
  }

  const UNSAFE_RUN := [
    Begin(1, REPEATABLE_READ), Begin(2, REPEATABLE_READ), Begin(3, REPEATABLE_READ),
    LockTableCall(1, S, 7), LockTableCall(2, IX, 7), LockTableCall(3, IS, 7), LockTableCall(1, X, 7)]

  /**
   The condition is needed. Transaction 1 holds S, 2 waits for IX, 3 is granted IS
   behind it; the upgrade of 1 to X goes in front of 2, is compared with nothing,
   and X and IS are held together.
   */
  lemma UnsafeUpgradeBreaksAgreement(owner: Rid -> Oid)
    ensures Legal(UNSAFE_RUN, owner)
    ensures Holds(After(UNSAFE_RUN, owner), 1, Table(7), X) && Holds(After(UNSAFE_RUN, owner), 3, Table(7), IS)
    ensures !AllGrantsAgree(After(UNSAFE_RUN, owner))
  {
    var es := UNSAFE_RUN[..6];
    ThirdIsGranted(es, owner);
    UpgradeJumps(After(es, owner));
    LegalExtend(es, UNSAFE_RUN[6], owner);
    assert UNSAFE_RUN == es + [UNSAFE_RUN[6]];
    var rs := After(UNSAFE_RUN, owner).queues[Table(7)].requests;
    assert IsGrantTo(rs[0], 1, X) && IsGrantTo(rs[2], 3, IS);
  }

  lemma FirstIsGranted(es: seq<Event>, owner: Rid -> Oid)
    requires es == UNSAFE_RUN[..4]
    ensures Legal(es, owner) && Scene(After(es, owner), [Request(1, S, 7, true)]) && After(es, owner).waits == map[]
  {
    var e1, e2, e3 := es[..1], es[..2], es[..3];
    LegalExtend([], es[0], owner);
    assert e1 == [] + [es[0]];
    LegalExtend(e1, es[1], owner);
    assert e2 == e1 + [es[1]];
    LegalExtend(e2, es[2], owner);
    assert e3 == e2 + [es[2]];
    LegalExtend(e3, es[3], owner);
    assert es == e3 + [es[3]];
  }

  lemma SecondSleeps(es: seq<Event>, owner: Rid -> Oid)
    requires es == UNSAFE_RUN[..5]
    ensures Legal(es, owner) && Scene(After(es, owner), [Request(1, S, 7, true), Request(2, IX, 7, false)])
  {
    var e := es[..4];
    FirstIsGranted(e, owner);
    var rs := [Request(1, S, 7, true)];
    assert Position(rs, 2) == 1;
    assert !Compatible((rs + [Request(2, IX, 7, false)])[0].mode, IX);
    assert !CanGrant(rs + [Request(2, IX, 7, false)], 1);
    LegalExtend(e, es[4], owner);
    assert es == e + [es[4]];
  }

  lemma ThirdIsGranted(es: seq<Event>, owner: Rid -> Oid)
    requires es == UNSAFE_RUN[..6]
    ensures Legal(es, owner)
    ensures Scene(After(es, owner), [Request(1, S, 7, true), Request(2, IX, 7, false), Request(3, IS, 7, true)])
  {
    var e := es[..5];
    SecondSleeps(e, owner);
    var rs := [Request(1, S, 7, true), Request(2, IX, 7, false)];
    assert rs[1..] == [Request(2, IX, 7, false)];
    assert Position(rs, 3) == 2;
    assert CanGrant(rs + [Request(3, IS, 7, false)], 2);
    assert Grant(rs + [Request(3, IS, 7, false)], 2) == rs + [Request(3, IS, 7, true)];
    LegalExtend(e, es[5], owner);
    assert es == e + [es[5]];
  }

  lemma UpgradeJumps(s: State)
    requires Scene(s, [Request(1, S, 7, true), Request(2, IX, 7, false), Request(3, IS, 7, true)])
    ensures LockTable(s, 1, X, 7).0.queues[Table(7)].requests ==
            [Request(1, X, 7, true), Request(2, IX, 7, false), Request(3, IS, 7, true)]
  {
    var rs := s.queues[Table(7)].requests;
    assert Position(rs, 1) == 0;
    var rest := Erase(rs, 0);
    assert rest == [Request(2, IX, 7, false), Request(3, IS, 7, true)];
    assert FirstWaiting(rest) == 0;
    var rs' := InsertAt(rest, 0, Request(1, X, 7, false));
    assert rs' == [Request(1, X, 7, false), Request(2, IX, 7, false), Request(3, IS, 7, true)];
    assert Grantable(rs', 0);
  }

  // ------------------------------------------------------ isolation rules

  /** Finished transactions make no lock calls. */
  ghost predicate Disciplined(es: seq<Event>, owner: Rid -> Oid)
    requires Legal(es, owner)
  {
    forall k {:trigger StateAt(es, k, owner)} :: 0 <= k < |es| && IsLockCall(es[k]) ==>
      Unfinished(StateAt(es, k, owner), es[k].txn)
  }

  predicate Unfinished(s: State, t: TxnId) {
    t in s.txns && s.txns[t].state in {GROWING, SHRINKING}
  }

  /** The event makes a lock call of t return true; m is the mode it asked for. */
  ghost predicate Acquires(s: State, e: Event, t: TxnId, m: Mode, owner: Rid -> Oid) {
    && Enabled(s, e, owner) && e.txn == t && Apply(s, e, owner).1 == Returned(true)
    && ((IsLockCall(e) && e.mode == m) ||
        (e.WakeUp? && Entry(s, s.waits[t].target, t).Some? && Entry(s, s.waits[t].target, t).value.mode == m))
  }

  /** The event is an unlock call of t that gives up a lock in mode m. */
  ghost predicate Releases(s: State, e: Event, t: TxnId, m: Mode, owner: Rid -> Oid) {
    && Enabled(s, e, owner) && e.txn == t && Apply(s, e, owner).1 == Returned(true)
    && ((e.UnlockTableCall? && HeldIn(Entry(s, Table(e.oid), t), m)) ||
        (e.UnlockRowCall? && HeldIn(Entry(s, Row(e.rid), t), m)))
  }

  ghost predicate PastGrowing(s: State, t: TxnId, iso: Isolation) {
    t in s.txns && s.txns[t].iso == iso && s.txns[t].state != GROWING
  }

  /** The modes t may still acquire: none under repeatable read, S and IS under read committed. */
  ghost predicate MayStillAcquire(iso: Isolation, m: Mode) {
    iso == READ_COMMITTED && m in {S, IS}
  }

  /** t is past its growing phase and sleeps at most on a mode it may still acquire. */
  ghost predicate Restricted(s: State, t: TxnId, iso: Isolation) {
    && PastGrowing(s, t, iso)
    && forall g :: WaitingIn(Entry(s, g, t)) ==> MayStillAcquire(iso, Entry(s, g, t).value.mode)
  }

  lemma ReleaseRestricts(s: State, e: Event, t: TxnId, m: Mode, owner: Rid -> Oid)
    requires Inv(s, owner) && Enabled(s, e, owner) && t in s.txns && Releases(s, e, t, m, owner)
    requires (s.txns[t].iso == REPEATABLE_READ && m in {S, X}) || (s.txns[t].iso == READ_COMMITTED && m == X)
    ensures Restricted(Apply(s, e, owner).0, t, s.txns[t].iso)
  {
    ApplyKeepsInv(s, e, owner);
    var tg := if e.UnlockTableCall? then Table(e.oid) else Row(e.rid);
    LookupIsPosition(s.queues[tg].requests, t);
    var s' := Apply(s, e, owner).0;
    assert t !in s'.waits;
  }

  lemma RestrictedCannotAcquire(s: State, e: Event, t: TxnId, m: Mode, iso: Isolation, owner: Rid -> Oid)
    requires Inv(s, owner) && Restricted(s, t, iso) && Acquires(s, e, t, m, owner)
    requires IsLockCall(e) ==> Unfinished(s, t)
    requires iso in {REPEATABLE_READ, READ_COMMITTED}
    ensures MayStillAcquire(iso, m)
  {
    if e.WakeUp? { SleeperIsQueued(s, t); }
  }

  lemma RestrictedStays(s: State, e: Event, t: TxnId, iso: Isolation, owner: Rid -> Oid)
    requires Inv(s, owner) && Enabled(s, e, owner) && Restricted(s, t, iso)
    requires IsLockCall(e) && e.txn == t ==> Unfinished(s, t)
    requires iso in {REPEATABLE_READ, READ_COMMITTED}
    ensures Restricted(Apply(s, e, owner).0, t, iso)
  {
    ApplyKeepsInv(s, e, owner);
    var s' := Apply(s, e, owner).0;
    if e.txn == t {
      PhaseNeverReturns(s, e, owner);
      if IsLockCall(e) {
        assert forall g :: !WaitingIn(Entry(s, g, t));
        if !MayStillAcquire(iso, e.mode) {
          assert s'.queues == s.queues;
          assert forall g :: Entry(s', g, t) == Entry(s, g, t);
        }
      } else {
        NoNewWaits(s, e, owner);
      }
    }
  }

  lemma NoNewWaits(s: State, e: Event, owner: Rid -> Oid)
    requires Inv(s, owner) && Enabled(s, e, owner) && !IsLockCall(e)
    ensures forall g :: WaitingIn(Entry(Apply(s, e, owner).0, g, e.txn)) ==>
              WaitingIn(Entry(s, g, e.txn)) &&
              Entry(s, g, e.txn).value.mode == Entry(Apply(s, e, owner).0, g, e.txn).value.mode
  {
    ApplyKeepsInv(s, e, owner);
    var s' := Apply(s, e, owner).0;
    assert e.WakeUp? || s'.waits == s.waits;
    assert forall g :: WaitingIn(Entry(s', g, e.txn)) <==> e.txn in s'.waits && s'.waits[e.txn].target == g;
  }

  /** No request, release or wake-up brings a transaction back to its growing phase. */
  ghost predicate PhaseKept(s: State, s': State, t: TxnId) {
    t in s.txns && t in s'.txns && s'.txns[t].iso == s.txns[t].iso
    && (s.txns[t].state != GROWING ==> s'.txns[t].state != GROWING)
  }

  lemma RequestKeepsPhase(s: State, t: TxnId, m: Mode, tg: Target, oid: Oid)
    requires t in s.txns
    ensures PhaseKept(s, RequestLock(s, t, m, tg, oid).0, t)
  {
  }

  lemma ReleaseKeepsPhase(s: State, t: TxnId, tg: Target, oid: Oid)
    requires t in s.txns && tg in s.queues
    ensures PhaseKept(s, Release(s, t, tg, oid).0, t)
  {
  }

  /** A transaction that has left its growing phase never grows again. */
  lemma PhaseNeverReturns(s: State, e: Event, owner: Rid -> Oid)
    requires Enabled(s, e, owner) && e.txn in s.txns
    ensures e.txn in Apply(s, e, owner).0.txns
    ensures Apply(s, e, owner).0.txns[e.txn].iso == s.txns[e.txn].iso
    ensures s.txns[e.txn].state != GROWING ==> Apply(s, e, owner).0.txns[e.txn].state != GROWING
  {
    match e
    case LockTableCall(t, m, oid) => RequestKeepsPhase(s, t, m, Table(oid), oid);
    case LockRowCall(t, m, oid, rid) => RequestKeepsPhase(s, t, m, Row(rid), oid);
    case UnlockTableCall(t, oid) => if Table(oid) in s.queues { ReleaseKeepsPhase(s, t, Table(oid), oid); }
    case UnlockRowCall(t, oid, rid) => if Row(rid) in s.queues { ReleaseKeepsPhase(s, t, Row(rid), oid); }
    case _ =>
  }

  lemma DisciplinedAt(es: seq<Event>, k: nat, owner: Rid -> Oid)
    requires Legal(es, owner) && Disciplined(es, owner) && k < |es|
    ensures IsLockCall(es[k]) ==> Unfinished(StateAt(es, k, owner), es[k].txn)
  {
  }

  lemma RestrictedNext(es: seq<Event>, k: nat, t: TxnId, iso: Isolation, owner: Rid -> Oid)
    requires Legal(es, owner) && Disciplined(es, owner) && k < |es|
    requires Restricted(StateAt(es, k, owner), t, iso) && iso in {REPEATABLE_READ, READ_COMMITTED}
    ensures Restricted(StateAt(es, k + 1, owner), t, iso)
  {
    InvAt(es, k, owner);
    StateAtNext(es, k, owner);
    DisciplinedAt(es, k, owner);
    RestrictedStays(StateAt(es, k, owner), es[k], t, iso, owner);
  }

  lemma {:induction false} RestrictedLater(es: seq<Event>, i: nat, j: nat, t: TxnId, iso: Isolation, owner: Rid -> Oid)
    requires Legal(es, owner) && Disciplined(es, owner) && i <= j <= |es|
    requires Restricted(StateAt(es, i, owner), t, iso) && iso in {REPEATABLE_READ, READ_COMMITTED}
    ensures Restricted(StateAt(es, j, owner), t, iso)
    decreases j
  {
    if i < j {
      RestrictedLater(es, i, j - 1, t, iso, owner);
      RestrictedNext(es, j - 1, t, iso, owner);
    }
  }

  /**
   Two-phase locking over whole runs. After a repeatable-read transaction gives up
   an S or X lock none of its lock calls returns true; after a read-committed one
   gives up an X lock only calls for S and IS do.
   */
  lemma NoAcquisitionAfterRelease(es: seq<Event>, i: nat, j: nat, t: TxnId, m: Mode, m': Mode, owner: Rid -> Oid)
    requires Legal(es, owner) && Disciplined(es, owner) && i < j < |es|
    requires t in StateAt(es, i, owner).txns && Releases(StateAt(es, i, owner), es[i], t, m, owner)
    ensures StateAt(es, i, owner).txns[t].iso == REPEATABLE_READ && m in {S, X} ==>
              !Acquires(StateAt(es, j, owner), es[j], t, m', owner)
    ensures StateAt(es, i, owner).txns[t].iso == READ_COMMITTED && m == X ==>
              (Acquires(StateAt(es, j, owner), es[j], t, m', owner) ==> m' in {S, IS})
  {
    var si := StateAt(es, i, owner);
    var sj := StateAt(es, j, owner);
    var iso := si.txns[t].iso;
    InvAt(es, i, owner);
    InvAt(es, j, owner);
    StateAtNext(es, i, owner);
    if (iso == REPEATABLE_READ && m in {S, X}) || (iso == READ_COMMITTED && m == X) {
      ReleaseRestricts(si, es[i], t, m, owner);
      RestrictedLater(es, i + 1, j, t, iso, owner);
      DisciplinedAt(es, j, owner);
      if Acquires(sj, es[j], t, m', owner) {
        RestrictedCannotAcquire(sj, es[j], t, m', iso, owner);
      }
    }
  }

  /** Requests of read-uncommitted transactions are in mode X or IX. */
  ghost predicate UncommittedReadersWriteOnly(s: State) {
    forall t, g :: t in s.txns && s.txns[t].iso == READ_UNCOMMITTED && Entry(s, g, t).Some? ==>
      Entry(s, g, t).value.mode in {X, IX}
  }

  lemma StepKeepsWriteOnly(s: State, e: Event, owner: Rid -> Oid)
    requires Inv(s, owner) && Enabled(s, e, owner) && UncommittedReadersWriteOnly(s)
    ensures UncommittedReadersWriteOnly(Apply(s, e, owner).0)
  {
    ApplyKeepsInv(s, e, owner);
    var s' := Apply(s, e, owner).0;
    forall t, g | t in s'.txns && s'.txns[t].iso == READ_UNCOMMITTED && Entry(s', g, t).Some?
      ensures Entry(s', g, t).value.mode in {X, IX}
    {
      if t == e.txn {
        if t in s.txns {
          PhaseNeverReturns(s, e, owner);
          if IsLockCall(e) && CheckLock(s.txns[t], e.mode, e.LockRowCall?).Some? {
            assert s'.queues == s.queues && Entry(s', g, t) == Entry(s, g, t);
          } else {
            assert Entry(s', g, t) == Entry(s, g, t) || IsLockCall(e) || Entry(s, g, t).Some?;
          }
        }
      } else {
        assert Entry(s', g, t) == Entry(s, g, t);
      }
    }
  }

  /**
   A read-uncommitted transaction never holds or waits for S, IS or SIX, and the
   exception on unlocking a shared lock is never thrown.
   */
  lemma {:induction false} ReadUncommittedTakesNoSharedLocks(es: seq<Event>, owner: Rid -> Oid)
    requires Legal(es, owner)
    ensures UncommittedReadersWriteOnly(After(es, owner))
    ensures forall e :: Enabled(After(es, owner), e, owner) ==>
              Apply(After(es, owner), e, owner).1 != Thrown(READ_UNCOMMITTED_USED_SHARED)
    decreases |es|
  {
    RunKeepsInv(es, owner);
    var s := After(es, owner);
    if es != [] {
      var es' := es[..|es| - 1];
      RunKeepsInv(es', owner);
      ReadUncommittedTakesNoSharedLocks(es', owner);
      StepKeepsWriteOnly(After(es', owner), es[|es| - 1], owner);
    }
    forall e | Enabled(s, e, owner) ensures Apply(s, e, owner).1 != Thrown(READ_UNCOMMITTED_USED_SHARED) {
      NoSharedRelease(s, e, owner);
    }
  }

  lemma NoSharedRelease(s: State, e: Event, owner: Rid -> Oid)
    requires UncommittedReadersWriteOnly(s) && Enabled(s, e, owner)
    ensures Apply(s, e, owner).1 != Thrown(READ_UNCOMMITTED_USED_SHARED)
  {
    if e.UnlockTableCall? && Table(e.oid) in s.queues {
      LookupIsPosition(s.queues[Table(e.oid)].requests, e.txn);
      var entry := Entry(s, Table(e.oid), e.txn);
      assert s.txns[e.txn].iso == READ_UNCOMMITTED && entry.Some? ==> entry.value.mode in {X, IX};
    } else if e.UnlockRowCall? && Row(e.rid) in s.queues {
      LookupIsPosition(s.queues[Row(e.rid)].requests, e.txn);
      var entry := Entry(s, Row(e.rid), e.txn);
      assert s.txns[e.txn].iso == READ_UNCOMMITTED && entry.Some? ==> entry.value.mode in {X, IX};
    }
  }

  // --------------------------------------------------- deadlock detection

  /** a has a waiting request where b has a granted one. */
  ghost predicate WaitsOn(s: State, a: TxnId, b: TxnId) {
    exists tg :: WaitsOnAt(s, a, b, tg)
  }

  ghost predicate WaitsOnAt(s: State, a: TxnId, b: TxnId, tg: Target) {
    WaitingIn(Entry(s, tg, a)) && Entry(s, tg, b).Some? && Entry(s, tg, b).value.granted
  }

  /** g is the graph the detector builds from the queues. */
  ghost predicate IsWaitsForGraph(g: Graph, s: State) {
    WellFormed(g) && forall a, b :: Edge(g, a, b) <==> WaitsOn(s, a, b)
  }

  /**
   t's call can never end while everybody outside d stands still or leaves: its
   request is not grantable, nobody ahead of it is, and all holders are in d.
   */
  ghost predicate BlockedWithin(s: State, t: TxnId, d: set<TxnId>) {
    && Asleep(s, t)
    && var rs := s.queues[s.waits[t].target].requests;
       && (forall i :: 0 <= i <= Position(rs, t) && !rs[i].granted ==> !Grantable(rs, i))
       && (forall i :: 0 <= i < |rs| && rs[i].granted ==> rs[i].txn in d)
  }

  /**
   Deadlock detection is complete: for a nonempty set of sleeping transactions
   blocked on each other, the graph built from the queues has a cycle and
   `HasCycle` returns true.
   */
  lemma DetectionIsComplete(s: State, d: set<TxnId>, g: Graph, owner: Rid -> Oid)
    requires Inv(s, owner) && IsWaitsForGraph(g, s)
    requires d != {} && forall t :: t in d ==> BlockedWithin(s, t, d)
    ensures Cyclic(g) && VictimOf(g) != INVALID_TXN_ID
  {
    forall t | t in d ensures WaitsInside(g, d, t) {
      BlockedWaitsInside(s, t, d, g, owner);
    }
    TrappedSetIsCyclic(g, d);
    HasCycleIffCyclic(g);
  }

  lemma BlockedWaitsInside(s: State, t: TxnId, d: set<TxnId>, g: Graph, owner: Rid -> Oid)
    requires Inv(s, owner) && IsWaitsForGraph(g, s) && BlockedWithin(s, t, d)
    ensures WaitsInside(g, d, t)
  {
    var tg := s.waits[t].target;
    var rs := s.queues[tg].requests;
    if !rs[0].granted {
      assert Grantable(rs, 0);
      assert false;
    }
    var u := rs[0].txn;
    assert Lookup(rs, u) == Some(rs[0]);
    assert WaitsOnAt(s, t, u, tg);
    assert u in d && Edge(g, t, u);
  }

  /** When every lock holder sleeps and no sleeper can be granted, detection finds a victim. */
  lemma StandstillIsDetected(es: seq<Event>, g: Graph, owner: Rid -> Oid)
    requires Legal(es, owner) && IsWaitsForGraph(g, After(es, owner))
    requires After(es, owner).waits != map[]
    requires forall tg, i :: tg in After(es, owner).queues && 0 <= i < |After(es, owner).queues[tg].requests| ==>
               After(es, owner).queues[tg].requests[i].txn in After(es, owner).waits &&
               (!After(es, owner).queues[tg].requests[i].granted ==>
                  !Grantable(After(es, owner).queues[tg].requests, i))
    ensures VictimOf(g) in After(es, owner).waits
  {
    var s := After(es, owner);
    RunKeepsInv(es, owner);
    forall t | t in s.waits.Keys ensures BlockedWithin(s, t, s.waits.Keys) {
      SleeperIsQueued(s, t);
    }
    DetectionIsComplete(s, s.waits.Keys, g, owner);
    VictimIsKey(g);
    assert Edge(g, VictimOf(g), g[VictimOf(g)][0]);
  }
}
