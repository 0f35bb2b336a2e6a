/**
 Lock modes and the request queue of one resource (a table or a row) of the
 lock manager (src/concurrency/lock_manager.cpp). A queue keeps its requests in
 arrival order, except that an upgrade is placed before the first request that
 is still waiting.
 */
module LockQueue {
  import opened Collections
  import opened WaitsFor

  type Oid = int
  type Rid = int

  datatype Mode = IS | IX | S | SIX | X

  datatype Request = Request(txn: TxnId, mode: Mode, oid: Oid, granted: bool)

  datatype Queue = Queue(requests: seq<Request>, upgrading: TxnId)

  /** The mode switch of `CheckGrant`. */
  predicate Compatible(held: Mode, wanted: Mode) {
    match held
    case S => wanted == IS || wanted == S
    case X => false
    case IS => wanted != X
    case IX => wanted == IS || wanted == IX
    case SIX => wanted == IS
  }

  /** What a lock lets its holder do: to the whole resource, or to parts it locks one by one. */
  datatype Activity = ReadAll | WriteAll | ReadSome | WriteSome

  function Activities(m: Mode): set<Activity> {
    match m
    case IS => {ReadSome}
    case IX => {ReadSome, WriteSome}
    case S => {ReadAll}
    case SIX => {ReadAll, WriteSome}
    case X => {WriteAll}
  }

  /**
   Writing everything goes with nothing else, and reading everything does not go
   with writing parts; two that work on parts settle it on the parts.
   */
  predicate Clash(p: Activity, q: Activity) {
    p == WriteAll || q == WriteAll || (p == ReadAll && q == WriteSome) || (p == WriteSome && q == ReadAll)
  }

  ghost predicate ModesClash(a: Mode, b: Mode) {
    exists p, q :: p in Activities(a) && q in Activities(b) && Clash(p, q)
  }

  /** The pairs of different modes that go together, one way round; of the modes themselves IS, IX and S do. */
  const COMPATIBLE_PAIRS := {(IS, IS), (IS, IX), (IS, S), (IS, SIX), (IX, IX), (S, S)}

  /** The switch lets two modes stand together exactly when nothing one permits clashes with what the other does. */
  lemma CompatibleIff(a: Mode, b: Mode)
    ensures Compatible(a, b) <==> !ModesClash(a, b)
    ensures Compatible(a, b) <==> (a, b) in COMPATIBLE_PAIRS || (b, a) in COMPATIBLE_PAIRS
  {
    if a == X || b == X {
      var p, q := if a == X then WriteAll else if a in {S, SIX} then ReadAll else ReadSome,
                  if b == X then WriteAll else if b in {S, SIX} then ReadAll else ReadSome;
      assert p in Activities(a) && q in Activities(b) && Clash(p, q);
    } else if a in {S, SIX} && b in {IX, SIX} {
      assert ReadAll in Activities(a) && WriteSome in Activities(b) && Clash(ReadAll, WriteSome);
    } else if a in {IX, SIX} && b in {S, SIX} {
      assert WriteSome in Activities(a) && ReadAll in Activities(b) && Clash(WriteSome, ReadAll);
    }
  }

  /** The upgrades the fall-through switch of `LockTable` and `LockRow` lets pass. */
  predicate UpgradeAllowed(from: Mode, to: Mode) {
    match from
    case IS => true
    case S => to == X || to == SIX
    case IX => to == X || to == SIX
    case SIX => to == X
    case X => false
  }

  // ----------------------------------------------------- queue contents

  /** At most one request per transaction. */
  ghost predicate OnePerTxn(rs: seq<Request>) {
    forall i, j :: 0 <= i < j < |rs| ==> rs[i].txn != rs[j].txn
  }

  /** The request of transaction t, if it has one. */
  function Lookup(rs: seq<Request>, t: TxnId): (r: Option<Request>)
    ensures r.Some? ==> r.value in rs && r.value.txn == t
    ensures r.None? ==> forall i :: 0 <= i < |rs| ==> rs[i].txn != t
  {
    if rs == [] then None
    else if rs[0].txn == t then Some(rs[0])
    else Lookup(rs[1..], t)
  }

  lemma {:induction false} LookupConcat(a: seq<Request>, b: seq<Request>, t: TxnId)
    ensures Lookup(a + b, t) == if Lookup(a, t).Some? then Lookup(a, t) else Lookup(b, t)
  {
    if a == [] {
      assert a + b == b;
    } else {
      assert (a + b)[1..] == a[1..] + b;
      LookupConcat(a[1..], b, t);
    }
  }

  /** The position of t's request, or the length of the queue. */
  function Position(rs: seq<Request>, t: TxnId): (i: nat)
    ensures i <= |rs|
    ensures i < |rs| ==> rs[i].txn == t
    ensures forall j :: 0 <= j < i ==> rs[j].txn != t
  {
    if rs == [] || rs[0].txn == t then 0 else 1 + Position(rs[1..], t)
  }

  lemma {:induction false} LookupIsPosition(rs: seq<Request>, t: TxnId)
    ensures Lookup(rs, t) == if Position(rs, t) < |rs| then Some(rs[Position(rs, t)]) else None
  {
    if rs != [] && rs[0].txn != t {
      LookupIsPosition(rs[1..], t);
    }
  }

  function FirstWaiting(rs: seq<Request>): (i: nat)
    ensures i <= |rs|
    ensures i < |rs| ==> !rs[i].granted
    ensures forall j :: 0 <= j < i ==> rs[j].granted
  {
    if rs == [] || !rs[0].granted then 0 else 1 + FirstWaiting(rs[1..])
  }

  function Erase(rs: seq<Request>, i: nat): seq<Request>
    requires i < |rs|
  {
    rs[..i] + rs[i + 1..]
  }

  function InsertAt(rs: seq<Request>, i: nat, r: Request): seq<Request>
    requires i <= |rs|
  {
    rs[..i] + [r] + rs[i..]
  }

  function Grant(rs: seq<Request>, i: nat): seq<Request>
    requires i < |rs|
  {
    rs[i := rs[i].(granted := true)]
  }

  lemma EraseOnePerTxn(rs: seq<Request>, i: nat)
    requires i < |rs| && OnePerTxn(rs)
    ensures OnePerTxn(Erase(rs, i))
  {
    var rs' := Erase(rs, i);
    forall a, b | 0 <= a < b < |rs'|
      ensures rs'[a].txn != rs'[b].txn
    {
      assert rs'[a] == rs[if a < i then a else a + 1] && rs'[b] == rs[if b < i then b else b + 1];
    }
  }

  lemma EraseLookup(rs: seq<Request>, i: nat, u: TxnId)
    requires i < |rs| && OnePerTxn(rs)
    ensures OnePerTxn(Erase(rs, i))
    ensures Lookup(Erase(rs, i), u) == if u == rs[i].txn then None else Lookup(rs, u)
  {
    EraseOnePerTxn(rs, i);
    var a, b := rs[..i], rs[i + 1..];
    assert rs == a + ([rs[i]] + b);
    LookupConcat(a, b, u);
    LookupConcat(a, [rs[i]] + b, u);
    LookupConcat([rs[i]], b, u);
    if u == rs[i].txn {
      assert Lookup(a, u).None? && Lookup(b, u).None?;
    }
  }

  lemma InsertedAt(rs: seq<Request>, k: nat, r: Request, b: nat)
    requires k <= |rs| && b <= |rs|
    ensures InsertAt(rs, k, r)[b] == if b < k then rs[b] else if b == k then r else rs[b - 1]
  {
  }

  lemma InsertOnePerTxn(rs: seq<Request>, i: nat, r: Request)
    requires i <= |rs| && OnePerTxn(rs) && Lookup(rs, r.txn).None?
    ensures OnePerTxn(InsertAt(rs, i, r))
  {
    var rs' := InsertAt(rs, i, r);
    forall a, b | 0 <= a < b < |rs'|
      ensures rs'[a].txn != rs'[b].txn
    {
      InsertedAt(rs, i, r, a);
      InsertedAt(rs, i, r, b);
    }
  }

  lemma InsertLookup(rs: seq<Request>, i: nat, r: Request, u: TxnId)
    requires i <= |rs| && OnePerTxn(rs) && Lookup(rs, r.txn).None?
    ensures OnePerTxn(InsertAt(rs, i, r))
    ensures Lookup(InsertAt(rs, i, r), u) == if u == r.txn then Some(r) else Lookup(rs, u)
  {
    InsertOnePerTxn(rs, i, r);
    var a, b := rs[..i], rs[i..];
    assert rs == a + b && InsertAt(rs, i, r) == a + ([r] + b);
    LookupConcat(a, b, u);
    LookupConcat(a, [r] + b, u);
    LookupConcat([r], b, u);
  }

  lemma GrantLookup(rs: seq<Request>, i: nat, u: TxnId)
    requires i < |rs| && OnePerTxn(rs)
    ensures OnePerTxn(Grant(rs, i))
    ensures Lookup(Grant(rs, i), u) ==
            if u == rs[i].txn then Some(rs[i].(granted := true)) else Lookup(rs, u)
  {
    var r' := rs[i].(granted := true);
    EraseLookup(rs, i, u);
    EraseLookup(rs, i, rs[i].txn);
    assert Grant(rs, i) == InsertAt(Erase(rs, i), i, r');
    InsertLookup(Erase(rs, i), i, r', u);
  }

  // ---------------------------------------------------------- granting

  /** What `CheckGrant` decides: the request agrees with everything that stands before it. */
  ghost predicate Grantable(rs: seq<Request>, i: nat)
    requires i < |rs|
  {
    forall j :: 0 <= j < i ==> Compatible(rs[j].mode, rs[i].mode)
  }

  /**
   `CheckGrant`. The scan stops with true at the checked request and never looks
   behind it; running off the end, where the source throws, cannot happen for a
   request that waits in the queue.
   */
  method CheckGrant(rs: seq<Request>, pos: nat) returns (ok: bool)
    requires pos < |rs| && !rs[pos].granted
    ensures ok <==> Grantable(rs, pos)
  {
    var mode := rs[pos].mode;
    var j := 0;
    while j < |rs|
      invariant 0 <= j <= pos
      invariant forall k :: 0 <= k < j ==> Compatible(rs[k].mode, mode)
    {
      if rs[j].granted {
        if !Compatible(rs[j].mode, mode) {
          return false;
        }
      } else {
        if j == pos {
          return true;
        }
        if !Compatible(rs[j].mode, mode) {
          return false;
        }
      }
      j := j + 1;
    }
    assert false;
  }

  /** Any two granted requests agree. */
  ghost predicate GrantsAgree(rs: seq<Request>) {
    forall i, j :: 0 <= i < j < |rs| && rs[i].granted && rs[j].granted ==>
      Compatible(rs[i].mode, rs[j].mode)
  }

  /** Every granted request agrees with everything before it, granted or not. */
  ghost predicate GrantsRespectOrder(rs: seq<Request>) {
    forall i, j :: 0 <= i < j < |rs| && rs[j].granted ==> Compatible(rs[i].mode, rs[j].mode)
  }

  /** Mode m agrees with every granted request that stands behind the first waiting one. */
  ghost predicate AgreesBehind(rs: seq<Request>, from: nat, m: Mode) {
    forall j :: from <= j < |rs| && rs[j].granted ==> Compatible(m, rs[j].mode)
  }

  /**
   Granting a request that passed `CheckGrant` keeps the granted requests in
   agreement exactly when it also agrees with the grants behind it, which
   `CheckGrant` does not examine.
   */
  lemma GrantKeepsAgreementIff(rs: seq<Request>, i: nat)
    requires i < |rs| && !rs[i].granted && Grantable(rs, i) && GrantsAgree(rs)
    ensures GrantsAgree(Grant(rs, i)) <==> AgreesBehind(rs, i, rs[i].mode)
  {
    var rs' := Grant(rs, i);
    if AgreesBehind(rs, i, rs[i].mode) {
      forall a, b | 0 <= a < b < |rs'| && rs'[a].granted && rs'[b].granted
        ensures Compatible(rs'[a].mode, rs'[b].mode)
      {
        if a == i { assert rs[b].granted; }
      }
    } else {
      var j :| i <= j < |rs| && rs[j].granted && !Compatible(rs[i].mode, rs[j].mode);
      assert rs'[i].granted && rs'[j].granted && i < j;
    }
  }

  lemma GrantKeepsOrder(rs: seq<Request>, i: nat)
    requires i < |rs| && Grantable(rs, i) && GrantsRespectOrder(rs)
    ensures GrantsRespectOrder(Grant(rs, i))
  {
    var rs' := Grant(rs, i);
    forall a, b | 0 <= a < b < |rs'| && rs'[b].granted ensures Compatible(rs'[a].mode, rs'[b].mode) {
      assert rs'[a].mode == rs[a].mode && rs'[b].mode == rs[b].mode;
      if b != i { assert rs[b].granted; }
    }
  }

  lemma EraseKeepsOrder(rs: seq<Request>, i: nat)
    requires i < |rs|
    ensures GrantsRespectOrder(rs) ==> GrantsRespectOrder(Erase(rs, i))
    ensures GrantsAgree(rs) ==> GrantsAgree(Erase(rs, i))
  {
    var rs' := Erase(rs, i);
    forall a, b | 0 <= a < b < |rs'|
      ensures rs'[a] == rs[if a < i then a else a + 1] && rs'[b] == rs[if b < i then b else b + 1]
    {
    }
  }

  /**
   Placing an upgrade before the first waiting request keeps the order property
   exactly when the new mode agrees with the grants behind that request.
   */
  lemma UpgradeKeepsOrderIff(rs: seq<Request>, r: Request)
    requires GrantsRespectOrder(rs) && !r.granted
    ensures GrantsRespectOrder(InsertAt(rs, FirstWaiting(rs), r)) <==>
            AgreesBehind(rs, FirstWaiting(rs), r.mode)
  {
    var k := FirstWaiting(rs);
    if AgreesBehind(rs, k, r.mode) {
      InsertKeepsOrder(rs, k, r);
    } else {
      var j :| k <= j < |rs| && rs[j].granted && !Compatible(r.mode, rs[j].mode);
      InsertedAt(rs, k, r, k);
      InsertedAt(rs, k, r, j + 1);
    }
  }

  lemma InsertKeepsOrder(rs: seq<Request>, k: nat, r: Request)
    requires k <= |rs| && GrantsRespectOrder(rs) && !r.granted && AgreesBehind(rs, k, r.mode)
    ensures GrantsRespectOrder(InsertAt(rs, k, r))
  {
    var rs' := InsertAt(rs, k, r);
    forall a, b | 0 <= a < b < |rs'| && rs'[b].granted
      ensures Compatible(rs'[a].mode, rs'[b].mode)
    {
      InsertedAt(rs, k, r, a);
      InsertedAt(rs, k, r, b);
    }
  }

  lemma AppendKeepsOrder(rs: seq<Request>, r: Request)
    requires GrantsRespectOrder(rs) && !r.granted
    ensures GrantsRespectOrder(rs + [r])
  {
  }
}
