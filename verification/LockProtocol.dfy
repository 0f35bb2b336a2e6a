/**
 The lock manager as a state machine (src/concurrency/lock_manager.cpp).

 Every latched section of the source is one step: a lock call up to the point
 where it returns or goes to sleep, one round of a sleeping call's wait loop,
 an unlock call, and the detector setting a victim to ABORTED. A transaction is
 driven by one thread, so while its call sleeps it takes no other step.
 Tables and rows have their own queues but are handled by the same code, so a
 `Target` stands for either.
 */
module LockProtocol {
  import opened Collections
  import opened WaitsFor
  import opened LockQueue

  datatype Target = Table(oid: Oid) | Row(rid: Rid)

  datatype Isolation = READ_UNCOMMITTED | READ_COMMITTED | REPEATABLE_READ

  datatype TxnState = GROWING | SHRINKING | COMMITTED | ABORTED

  datatype AbortReason =
    | LOCK_ON_SHRINKING
    | UPGRADE_CONFLICT
    | INCOMPATIBLE_UPGRADE
    | LOCK_SHARED_ON_READ_UNCOMMITTED
    | TABLE_UNLOCKED_BEFORE_UNLOCKING_ROWS
    | ATTEMPTED_UNLOCK_BUT_NO_LOCK_HELD
    | TABLE_LOCK_NOT_PRESENT
    | ATTEMPTED_INTENTION_LOCK_ON_ROW
    | READ_UNCOMMITTED_USED_SHARED

  /** How a call ends: it returns true or false, throws, or sleeps. */
  datatype Outcome = Returned(result: bool) | Thrown(reason: AbortReason) | Sleeping

  // ------------------------------------------------------------ lock sets

  /** The lock sets kept inside a transaction. */
  datatype LockSets = LockSets(
    s: set<Oid>, x: set<Oid>, is_: set<Oid>, ix: set<Oid>, six: set<Oid>,
    sRow: map<Oid, set<Rid>>, xRow: map<Oid, set<Rid>>)

  const NO_LOCKS := LockSets({}, {}, {}, {}, {}, map[], map[])

  function TableSet(ls: LockSets, m: Mode): set<Oid> {
    match m
    case S => ls.s
    case X => ls.x
    case IS => ls.is_
    case IX => ls.ix
    case SIX => ls.six
  }

  function WithTableSet(ls: LockSets, m: Mode, os: set<Oid>): LockSets {
    match m
    case S => ls.(s := os)
    case X => ls.(x := os)
    case IS => ls.(is_ := os)
    case IX => ls.(ix := os)
    case SIX => ls.(six := os)
  }

  function RowsOf(rows: map<Oid, set<Rid>>, oid: Oid): set<Rid> {
    if oid in rows then rows[oid] else {}
  }

  /** Row locks exist in modes S and X only. */
  function RowSet(ls: LockSets, m: Mode, oid: Oid): set<Rid> {
    match m
    case S => RowsOf(ls.sRow, oid)
    case X => RowsOf(ls.xRow, oid)
    case _ => {}
  }

  /** Deleting the last row of a table also deletes the table's entry. */
  function DeleteRow(rows: map<Oid, set<Rid>>, oid: Oid, rid: Rid): map<Oid, set<Rid>> {
    var left := RowsOf(rows, oid) - {rid};
    if left == {} then rows - {oid} else rows[oid := left]
  }

  /** `ModifyLockSet` with ADD. */
  function AddLock(ls: LockSets, m: Mode, tg: Target, oid: Oid): LockSets {
    match tg
    case Table(_) => WithTableSet(ls, m, TableSet(ls, m) + {oid})
    case Row(rid) =>
      match m
      case S => ls.(sRow := ls.sRow[oid := RowsOf(ls.sRow, oid) + {rid}])
      case X => ls.(xRow := ls.xRow[oid := RowsOf(ls.xRow, oid) + {rid}])
      case _ => ls
  }

  /** `ModifyLockSet` with DELETE. */
  function DeleteLock(ls: LockSets, m: Mode, tg: Target, oid: Oid): LockSets {
    match tg
    case Table(_) => WithTableSet(ls, m, TableSet(ls, m) - {oid})
    case Row(rid) =>
      match m
      case S => ls.(sRow := DeleteRow(ls.sRow, oid, rid))
      case X => ls.(xRow := DeleteRow(ls.xRow, oid, rid))
      case _ => ls
  }

  // ---------------------------------------------------------------- state

  datatype Txn = Txn(iso: Isolation, state: TxnState, locks: LockSets)

  /** Where a sleeping call waits and whether it came from the upgrade branch. */
  datatype Wait = Wait(target: Target, upgrade: bool)

  datatype State = State(queues: map<Target, Queue>, txns: map<TxnId, Txn>, waits: map<TxnId, Wait>)

  const INIT := State(map[], map[], map[])

  function SetTxnState(s: State, t: TxnId, st: TxnState): State
    requires t in s.txns
  {
    s.(txns := s.txns[t := s.txns[t].(state := st)])
  }

  function SetLocks(s: State, t: TxnId, ls: LockSets): State
    requires t in s.txns
  {
    s.(txns := s.txns[t := s.txns[t].(locks := ls)])
  }

  function BeginTxn(s: State, t: TxnId, iso: Isolation): State {
    s.(txns := s.txns[t := Txn(iso, GROWING, NO_LOCKS)])
  }

  /** `CheckLock`: the reason to throw, if any. */
  function CheckLock(x: Txn, m: Mode, isRow: bool): Option<AbortReason> {
    if isRow && (m == IS || m == IX || m == SIX) then Some(ATTEMPTED_INTENTION_LOCK_ON_ROW)
    else if x.iso == READ_UNCOMMITTED && (m == S || m == IS || m == SIX) then Some(LOCK_SHARED_ON_READ_UNCOMMITTED)
    else if x.state == SHRINKING && (m == X || m == IX) then Some(LOCK_ON_SHRINKING)
    else match x.iso
      case REPEATABLE_READ => if x.state == SHRINKING then Some(LOCK_ON_SHRINKING) else None
      case READ_COMMITTED =>
        if x.state == SHRINKING && m != IS && m != S then Some(LOCK_ON_SHRINKING) else None
      case READ_UNCOMMITTED =>
        if x.state != GROWING || (m != X && m != IX) then Some(LOCK_ON_SHRINKING) else None
  }

  /** `CheckTableIntentionLock`: a row lock needs a suitable table lock. */
  function CheckTableIntentionLock(ls: LockSets, m: Mode, oid: Oid): Option<AbortReason> {
    if m == S && !(oid in ls.is_ || oid in ls.s || oid in ls.x || oid in ls.ix) then Some(TABLE_LOCK_NOT_PRESENT)
    else if m == X && !(oid in ls.x || oid in ls.ix || oid in ls.six) then Some(TABLE_LOCK_NOT_PRESENT)
    else None
  }

  /** Place the request at position i and either grant it or put the caller to sleep. */
  function Settle(s: State, t: TxnId, tg: Target, rs: seq<Request>, i: nat,
                  upgrading: TxnId, upgrade: bool): (State, Outcome)
    requires t in s.txns && i < |rs|
  {
    if CanGrant(rs, i) then
      var q := Queue(Grant(rs, i), if upgrade then INVALID_TXN_ID else upgrading);
      var s' := s.(queues := s.queues[tg := q], waits := s.waits - {t});
      (SetLocks(s', t, AddLock(s.txns[t].locks, rs[i].mode, tg, rs[i].oid)), Returned(true))
    else
      (s.(queues := s.queues[tg := Queue(rs, upgrading)], waits := s.waits[t := Wait(tg, upgrade)]), Sleeping)
  }

  function CanGrant(rs: seq<Request>, i: nat): (ok: bool)
    requires i < |rs|
    ensures ok <==> Grantable(rs, i)
  {
    forall j :: 0 <= j < i ==> Compatible(rs[j].mode, rs[i].mode)
  }

  /** The part of `LockTable` and `LockRow` behind the checks. */
  function RequestLock(s: State, t: TxnId, m: Mode, tg: Target, oid: Oid): (State, Outcome)
    requires t in s.txns
  {
    if tg !in s.queues then
      var s' := s.(queues := s.queues[tg := Queue([Request(t, m, oid, true)], INVALID_TXN_ID)]);
      (SetLocks(s', t, AddLock(s.txns[t].locks, m, tg, oid)), Returned(true))
    else
      var q := s.queues[tg];
      var i := Position(q.requests, t);
      if i == |q.requests| then
        Settle(s, t, tg, q.requests + [Request(t, m, oid, false)], i, q.upgrading, false)
      else if q.requests[i].mode == m then (s, Returned(true))
      else if q.upgrading != INVALID_TXN_ID || !UpgradeAllowed(q.requests[i].mode, m) then
        (SetTxnState(s, t, ABORTED), Thrown(UPGRADE_CONFLICT))
      else
        var rest := Erase(q.requests, i);
        var k := FirstWaiting(rest);
        var s' := SetLocks(s, t, DeleteLock(s.txns[t].locks, q.requests[i].mode, tg, oid));
        Settle(s', t, tg, InsertAt(rest, k, Request(t, m, oid, false)), k, t, true)
  }

  function LockTable(s: State, t: TxnId, m: Mode, oid: Oid): (State, Outcome)
    requires t in s.txns
  {
    var e := CheckLock(s.txns[t], m, false);
    if e.Some? then (SetTxnState(s, t, ABORTED), Thrown(e.value))
    else RequestLock(s, t, m, Table(oid), oid)
  }

  function LockRow(s: State, t: TxnId, m: Mode, oid: Oid, rid: Rid): (State, Outcome)
    requires t in s.txns
  {
    var e := CheckLock(s.txns[t], m, true);
    if e.Some? then (SetTxnState(s, t, ABORTED), Thrown(e.value))
    else
      var e' := CheckTableIntentionLock(s.txns[t].locks, m, oid);
      if e'.Some? then (SetTxnState(s, t, ABORTED), Thrown(e'.value))
      else RequestLock(s, t, m, Row(rid), oid)
  }

  /** The sleeping call has its request in the queue; every reachable state has this (`SleeperIsQueued`). */
  predicate Asleep(s: State, t: TxnId) {
    && t in s.waits
    && s.waits[t].target in s.queues
    && Position(s.queues[s.waits[t].target].requests, t) < |s.queues[s.waits[t].target].requests|
  }

  /** One round of the wait loop of a sleeping call. */
  function Wake(s: State, t: TxnId): (State, Outcome)
    requires t in s.txns && Asleep(s, t)
  {
    var w := s.waits[t];
    var q := s.queues[w.target];
    var i := Position(q.requests, t);
    if s.txns[t].state == ABORTED then
      var q' := Queue(Erase(q.requests, i), if w.upgrade then INVALID_TXN_ID else q.upgrading);
      (s.(queues := s.queues[w.target := q'], waits := s.waits - {t}), Returned(false))
    else
      Settle(s, t, w.target, q.requests, i, q.upgrading, w.upgrade)
  }

  /** The row check of `UnlockTable`: it needs an entry in both row sets to fire. */
  predicate RowsStillLocked(ls: LockSets, oid: Oid) {
    oid in ls.sRow && oid in ls.xRow && (ls.sRow[oid] != {} || ls.xRow[oid] != {})
  }

  /** The transaction state after releasing mode m, or None for the exception on a shared lock. */
  function AfterRelease(x: Txn, m: Mode): Option<TxnState> {
    if x.state != GROWING then Some(x.state)
    else match x.iso
      case REPEATABLE_READ => Some(if m == X || m == S then SHRINKING else GROWING)
      case READ_COMMITTED => Some(if m == X then SHRINKING else GROWING)
      case READ_UNCOMMITTED => if m == S then None else Some(if m == X then SHRINKING else GROWING)
  }

  /** The part `UnlockTable` and `UnlockRow` share. */
  function Release(s: State, t: TxnId, tg: Target, oid: Oid): (State, Outcome)
    requires t in s.txns && tg in s.queues
  {
    var q := s.queues[tg];
    var i := Position(q.requests, t);
    if i == |q.requests| || !q.requests[i].granted then
      (SetTxnState(s, t, ABORTED), Thrown(ATTEMPTED_UNLOCK_BUT_NO_LOCK_HELD))
    else
      var m := q.requests[i].mode;
      var st := AfterRelease(s.txns[t], m);
      if st.None? then (SetTxnState(s, t, ABORTED), Thrown(READ_UNCOMMITTED_USED_SHARED))
      else
        var s1 := SetTxnState(s, t, st.value);
        var s2 := SetLocks(s1, t, DeleteLock(s.txns[t].locks, m, tg, oid));
        (s2.(queues := s.queues[tg := q.(requests := Erase(q.requests, i))]), Returned(true))
  }

  function UnlockTable(s: State, t: TxnId, oid: Oid): (State, Outcome)
    requires t in s.txns
  {
    if Table(oid) !in s.queues then (SetTxnState(s, t, ABORTED), Thrown(ATTEMPTED_UNLOCK_BUT_NO_LOCK_HELD))
    else if RowsStillLocked(s.txns[t].locks, oid) then
      (SetTxnState(s, t, ABORTED), Thrown(TABLE_UNLOCKED_BEFORE_UNLOCKING_ROWS))
    else Release(s, t, Table(oid), oid)
  }

  function UnlockRow(s: State, t: TxnId, oid: Oid, rid: Rid): (State, Outcome)
    requires t in s.txns
  {
    if Row(rid) !in s.queues then (SetTxnState(s, t, ABORTED), Thrown(ATTEMPTED_UNLOCK_BUT_NO_LOCK_HELD))
    else Release(s, t, Row(rid), oid)
  }

  // --------------------------------------------------------------- events

  datatype Event =
    | Begin(txn: TxnId, iso: Isolation)
    | LockTableCall(txn: TxnId, mode: Mode, oid: Oid)
    | LockRowCall(txn: TxnId, mode: Mode, oid: Oid, rid: Rid)
    | WakeUp(txn: TxnId)
    | UnlockTableCall(txn: TxnId, oid: Oid)
    | UnlockRowCall(txn: TxnId, oid: Oid, rid: Rid)
    | Victim(txn: TxnId)
    | Finish(txn: TxnId, commit: bool)

  predicate IsLockCall(e: Event) {
    e.LockTableCall? || e.LockRowCall?
  }

  /**
   When an event can happen: a new transaction has a fresh id, a call comes from
   a transaction that is not asleep, a wake-up comes from one that is, and the
   detector picks sleeping transactions. A row id names one table.
   */
  ghost predicate Enabled(s: State, e: Event, owner: Rid -> Oid) {
    match e
    case Begin(t, _) => 0 <= t && t !in s.txns
    case WakeUp(t) => t in s.txns && Asleep(s, t)
    case Victim(t) => t in s.txns && t in s.waits
    case LockRowCall(t, _, oid, rid) => t in s.txns && t !in s.waits && oid == owner(rid)
    case UnlockRowCall(t, oid, rid) => t in s.txns && t !in s.waits && oid == owner(rid)
    case LockTableCall(t, _, _) => t in s.txns && t !in s.waits
    case UnlockTableCall(t, _) => t in s.txns && t !in s.waits
    case Finish(t, _) => t in s.txns && t !in s.waits
  }

  // ------------------------------------------------------------ invariant

  /** The request of t on a target, if any. */
  function Entry(s: State, tg: Target, t: TxnId): Option<Request> {
    if tg in s.queues then Lookup(s.queues[tg].requests, t) else None
  }

  predicate HeldIn(e: Option<Request>, m: Mode) {
    e.Some? && e.value.granted && e.value.mode == m
  }

  predicate WaitingIn(e: Option<Request>) {
    e.Some? && !e.value.granted
  }

  ghost predicate QueuesWellFormed(s: State, owner: Rid -> Oid) {
    && (forall tg :: tg in s.queues ==> OnePerTxn(s.queues[tg].requests))
    && (forall tg, t :: Entry(s, tg, t).Some? ==> t in s.txns)
    && (forall tg: Target, t :: tg.Table? && Entry(s, tg, t).Some? ==> Entry(s, tg, t).value.oid == tg.oid)
    && (forall tg: Target, t :: tg.Row? && Entry(s, tg, t).Some? ==>
          Entry(s, tg, t).value.oid == owner(tg.rid) && Entry(s, tg, t).value.mode in {S, X})
  }

  /** A transaction sleeps on a target exactly when it has a request there that is not granted. */
  ghost predicate WaitsMatch(s: State) {
    && (forall tg, t :: WaitingIn(Entry(s, tg, t)) <==> t in s.waits && s.waits[t].target == tg)
    && (forall t :: t in s.txns ==> 0 <= t)
  }

  /** The upgrade marker of a queue names the one sleeping upgrade of that queue. */
  ghost predicate UpgradesMatch(s: State) {
    && (forall tg :: tg in s.queues && s.queues[tg].upgrading != INVALID_TXN_ID ==>
          s.queues[tg].upgrading in s.waits && s.waits[s.queues[tg].upgrading] == Wait(tg, true))
    && (forall t :: t in s.waits && s.waits[t].upgrade ==>
          s.waits[t].target in s.queues && s.queues[s.waits[t].target].upgrading == t)
  }

  /** A resource is in a transaction's set for mode m exactly when its queue holds a granted request in mode m. */
  ghost predicate LocksMatch(s: State, owner: Rid -> Oid) {
    && (forall t, m, oid :: t in s.txns ==>
          (oid in TableSet(s.txns[t].locks, m) <==> HeldIn(Entry(s, Table(oid), t), m)))
    && (forall t, m, oid, rid :: t in s.txns ==>
          (rid in RowSet(s.txns[t].locks, m, oid) <==> oid == owner(rid) && HeldIn(Entry(s, Row(rid), t), m)))
    && (forall t, oid :: t in s.txns && oid in s.txns[t].locks.sRow ==> s.txns[t].locks.sRow[oid] != {})
    && (forall t, oid :: t in s.txns && oid in s.txns[t].locks.xRow ==> s.txns[t].locks.xRow[oid] != {})
  }

  ghost predicate Inv(s: State, owner: Rid -> Oid) {
    QueuesWellFormed(s, owner) && WaitsMatch(s) && UpgradesMatch(s) && LocksMatch(s, owner)
  }

  lemma SleeperIsQueued(s: State, t: TxnId)
    requires WaitsMatch(s) && t in s.waits
    ensures Asleep(s, t)
    ensures !s.queues[s.waits[t].target].requests[Position(s.queues[s.waits[t].target].requests, t)].granted
  {
    assert WaitingIn(Entry(s, s.waits[t].target, t));
    LookupIsPosition(s.queues[s.waits[t].target].requests, t);
  }

  /** One step of a run. */
  ghost function Apply(s: State, e: Event, owner: Rid -> Oid): (State, Outcome)
    requires Enabled(s, e, owner)
  {
    match e
    case Begin(t, iso) => (BeginTxn(s, t, iso), Returned(true))
    case LockTableCall(t, m, oid) => LockTable(s, t, m, oid)
    case LockRowCall(t, m, oid, rid) => LockRow(s, t, m, oid, rid)
    case WakeUp(t) => Wake(s, t)
    case UnlockTableCall(t, oid) => UnlockTable(s, t, oid)
    case UnlockRowCall(t, oid, rid) => UnlockRow(s, t, oid, rid)
    case Victim(t) => (SetTxnState(s, t, ABORTED), Returned(true))
    case Finish(t, commit) => (SetTxnState(s, t, if commit then COMMITTED else ABORTED), Returned(true))
  }
}
