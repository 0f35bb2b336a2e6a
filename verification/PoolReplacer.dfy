/**
 The buffer pool and its replacer: over every run the replacer is in the state
 that the pool's own calls put it in, every access, pin and unpin among them, so
 the page that has to go is the one the history of these accesses names.
 */
module PoolReplacer {
  import opened LruK
  import opened PoolModel
  import opened PoolRuns
  import opened PoolPages

  // ------------------------------------------------ the calls of each step

  /** A page is handed out in frame f: the access counts, and the frame must stay. */
  function HandOutCalls(f: Frame): seq<Op> {
    [Access(f), SetEvictable(f, false)]
  }

  /** A frame is looked for; only without free frames is the replacer asked. */
  function RoomCalls(p: Pool, reply: PoolReply): seq<Op> {
    (if p.free == [] then [Evict] else [])
    + (if reply.Framed? && reply.frame.Some? then HandOutCalls(reply.frame.value) else [])
  }

  /** The calls an operation with this reply makes to the replacer. */
  function CallsFor(p: Pool, op: PoolOp, reply: PoolReply): seq<Op> {
    match op
    case New => RoomCalls(p, reply)
    case Fetch(id) => if id in p.table then HandOutCalls(p.table[id]) else RoomCalls(p, reply)
    case Unpin(id, _) =>
      if id in p.table && SlotOf(p, id).In? && SlotOf(p, id).pins == 1 then [SetEvictable(p.table[id], true)] else []
    case Delete(id) =>
      if id in p.table && SlotOf(p, id).In? && SlotOf(p, id).pins == 0 then [Remove(p.table[id])] else []
    case _ => []
  }

  function RunFrom(r: Lru, k: nat, n: nat, calls: seq<Op>): Lru
    decreases |calls|
  {
    if calls == [] then r else RunFrom(Step(r, k, n, calls[0]).0, k, n, calls[1..])
  }

  lemma {:induction false} RunFromConcat(r: Lru, k: nat, n: nat, a: seq<Op>, b: seq<Op>)
    ensures RunFrom(r, k, n, a + b) == RunFrom(RunFrom(r, k, n, a), k, n, b)
    decreases |a|
  {
    if a == [] {
      assert a + b == b;
    } else {
      assert (a + b)[1..] == a[1..] + b;
      RunFromConcat(Step(r, k, n, a[0]).0, k, n, a[1..], b);
    }
  }

  lemma OneCall(r: Lru, k: nat, n: nat, op: Op)
    ensures RunFrom(r, k, n, [op]) == Step(r, k, n, op).0
  {
    assert [op][1..] == [];
  }

  lemma HandOutRun(r: Lru, k: nat, n: nat, f: Frame)
    requires f <= n
    ensures RunFrom(r, k, n, HandOutCalls(f)) == Touch(r, k, f)
  {
    assert HandOutCalls(f) == [Access(f)] + [SetEvictable(f, false)];
    RunFromConcat(r, k, n, [Access(f)], [SetEvictable(f, false)]);
    OneCall(r, k, n, Access(f));
    OneCall(AccessStep(r, k, f), k, n, SetEvictable(f, false));
  }

  lemma RoomRun(p: Pool, k: nat, reply: PoolReply)
    requires Shape(p) && reply == Framed(FindVictim(p).1)
    ensures FindVictim(p).1.Some? ==> FindVictim(p).1.value < |p.pages|
    ensures RunFrom(p.lru, k, |p.pages|, RoomCalls(p, reply))
         == if FindVictim(p).1.Some? then Touch(FindVictim(p).0.lru, k, FindVictim(p).1.value) else p.lru
  {
    var n := |p.pages|;
    var room := if p.free == [] then [Evict] else [];
    OneCall(p.lru, k, n, Evict);
    VictimLru(p);
    assert RunFrom(p.lru, k, n, room) == FindVictim(p).0.lru;
    if FindVictim(p).1.Some? {
      VictimReady(p);
      HandOutRun(FindVictim(p).0.lru, k, n, FindVictim(p).1.value);
      RunFromConcat(p.lru, k, n, room, HandOutCalls(FindVictim(p).1.value));
    } else {
      NoVictimNoChange(p);
      assert room + [] == room;
    }
  }

  lemma NewCalls(p: Pool, k: nat)
    requires Inv(p, k)
    ensures NewPage(p, k).0.lru == RunFrom(p.lru, k, |p.pages|, CallsFor(p, New, Framed(NewPage(p, k).1)))
  {
    if FindVictim(p).1.Some? {
      NewPageLoads(p, k);
    } else {
      NoVictimNoChange(p);
    }
    RoomRun(p, k, Framed(NewPage(p, k).1));
  }

  lemma FetchCalls(p: Pool, k: nat, id: PageId)
    requires Inv(p, k) && 0 <= id < p.next
    ensures FetchPage(p, k, id).0.lru
         == RunFrom(p.lru, k, |p.pages|, CallsFor(p, Fetch(id), Framed(FetchPage(p, k, id).1)))
  {
    if id in p.table {
      ResidentFrame(p, id);
      HandOutRun(p.lru, k, |p.pages|, p.table[id]);
    } else {
      if FindVictim(p).1.Some? {
        FetchMissCorrect(p, k, id);
        VictimReady(p);
      } else {
        NoVictimNoChange(p);
      }
      RoomRun(p, k, Framed(FetchPage(p, k, id).1));
    }
  }

  lemma UnpinCalls(p: Pool, k: nat, id: PageId, dirty: bool)
    requires Shape(p)
    ensures UnpinPage(p, id, dirty).0.lru
         == RunFrom(p.lru, k, |p.pages|, CallsFor(p, Unpin(id, dirty), Flag(UnpinPage(p, id, dirty).1)))
  {
    if id in p.table {
      ResidentFrame(p, id);
      OneCall(p.lru, k, |p.pages|, SetEvictable(p.table[id], true));
    }
  }

  lemma DeleteCalls(p: Pool, k: nat, id: PageId)
    requires Shape(p)
    ensures DeletePage(p, k, id).0.lru
         == RunFrom(p.lru, k, |p.pages|, CallsFor(p, Delete(id), Flag(DeletePage(p, k, id).1)))
  {
    if id in p.table {
      ResidentFrame(p, id);
      OneCall(p.lru, k, |p.pages|, Op.Remove(p.table[id]));
    }
  }

  lemma StepCalls(p: Pool, k: nat, op: PoolOp)
    requires Inv(p, k) && Possible(p, op)
    ensures PoolStep(p, k, op).0.lru == RunFrom(p.lru, k, |p.pages|, CallsFor(p, op, PoolStep(p, k, op).1))
  {
    match op
    case New => NewCalls(p, k);
    case Fetch(id) => FetchCalls(p, k, id);
    case Unpin(id, dirty) => UnpinCalls(p, k, id, dirty);
    case Delete(id) => DeleteCalls(p, k, id);
    case FlushAll => FlushKeepsLru(p, |p.pages|);
    case _ =>
  }

  lemma StepKeepsSize(p: Pool, k: nat, op: PoolOp)
    requires Inv(p, k) && Possible(p, op)
    ensures |PoolStep(p, k, op).0.pages| == |p.pages|
  {
    match op
    case New => NewPageCorrect(p, k);
    case Fetch(id) => FetchPageCorrect(p, k, id);
    case _ =>
  }

  // ----------------------------------------------------------------- runs

  /** All calls the pool has made to the replacer in a run. */
  ghost function CallsOf(n: nat, k: nat, ops: seq<PoolOp>): seq<Op>
    requires LegalOps(n, k, ops)
  {
    if ops == [] then []
    else
      var before := ops[..|ops| - 1];
      CallsOf(n, k, before)
      + CallsFor(PoolAfter(n, k, before), ops[|ops| - 1], PoolStep(PoolAfter(n, k, before), k, ops[|ops| - 1]).1)
  }

  lemma {:induction false} RunIsRunFrom(k: nat, n: nat, calls: seq<Op>)
    ensures Run(k, n, calls) == RunFrom(EMPTY, k, n, calls)
    decreases |calls|
  {
    if calls != [] {
      var before, last := calls[..|calls| - 1], calls[|calls| - 1];
      RunIsRunFrom(k, n, before);
      assert calls == before + [last];
      RunFromConcat(EMPTY, k, n, before, [last]);
      OneCall(RunFrom(EMPTY, k, n, before), k, n, last);
    }
  }

  /** Over every run the replacer is exactly where the calls of the run have brought it. */
  lemma {:induction false} ReplacerHasSeenTheRun(n: nat, k: nat, ops: seq<PoolOp>)
    requires 2 <= k && LegalOps(n, k, ops)
    ensures |PoolAfter(n, k, ops).pages| == n
    ensures PoolAfter(n, k, ops).lru == Run(k, n, CallsOf(n, k, ops))
    decreases |ops|
  {
    if ops != [] {
      var before, last := ops[..|ops| - 1], ops[|ops| - 1];
      var p := PoolAfter(n, k, before);
      ReplacerHasSeenTheRun(n, k, before);
      RunKeepsPoolInv(n, k, before);
      StepKeepsSize(p, k, last);
      StepCalls(p, k, last);
      var calls, more := CallsOf(n, k, before), CallsFor(p, last, PoolStep(p, k, last).1);
      RunIsRunFrom(k, n, calls);
      RunIsRunFrom(k, n, calls + more);
      RunFromConcat(EMPTY, k, n, calls, more);
    }
  }

  /** Over every run the frame that is taken for another page is the one the run's own accesses name. */
  lemma EvictsByTheRunsAccesses(n: nat, k: nat, ops: seq<PoolOp>)
    requires 2 <= k && LegalOps(n, k, ops)
    ensures var p, h := PoolAfter(n, k, ops), RunHistory(k, n, CallsOf(n, k, ops));
            && WellFormed(h)
            && (p.free == [] && FindVictim(p).1.Some? ==> IsVictim(h, k, FindVictim(p).1.value))
            && (p.free == [] && FindVictim(p).1.None? ==> h.evictable == {})
  {
    var p, calls := PoolAfter(n, k, ops), CallsOf(n, k, ops);
    ReplacerHasSeenTheRun(n, k, ops);
    RunKeepsPoolInv(n, k, ops);
    ReplacerFollowsHistory(k, n, calls, Evict);
    if p.free == [] && EvictStep(p.lru).1.Some? {
      FrameEvicted(p);
    }
  }
}
