/**
 The life of one page in the buffer pool, operation by operation: its pin count,
 its dirty flag, whether it is resident, what is on disk, and what every call
 returns. Over runs: the pin count is the balance of the calls, and what was
 flushed stays on disk.
 */
module PoolPages {
  import opened LruK
  import opened PoolModel
  import opened PoolRuns

  /** A page is not in the pool, or it is there with a pin count and a dirty flag. */
  datatype Slot = Out | In(pins: nat, dirty: bool)

  function SlotOf(p: Pool, id: PageId): Slot {
    if id in p.table && FrameOk(p, p.table[id]) then In(p.pages[p.table[id]].pins, p.pages[p.table[id]].dirty)
    else Out
  }

  /** Making room for another page can only put out a page nobody has pinned. */
  predicate StaysOrMakesRoom(a: Slot, b: Slot) {
    b == a || (a.In? && a.pins == 0 && b == Out)
  }

  /** A page that is asked for: pinned once more, or brought in clean and pinned once. */
  function Pinned(a: Slot): Slot {
    match a
    case In(pins, dirty) => In(pins + 1, dirty)
    case Out => In(1, false)
  }

  /** What an operation and its reply do to page `id`; `next` is the id a new page would get. */
  predicate Moves(a: Slot, b: Slot, op: PoolOp, reply: PoolReply, id: PageId, next: PageId) {
    match op
    case New =>
      reply.Framed? && (if reply.frame.None? then b == a
                        else if id == next then b == In(1, false)
                        else StaysOrMakesRoom(a, b))
    case Fetch(i) =>
      reply.Framed? && (if reply.frame.None? then b == a
                        else if id == i then b == Pinned(a)
                        else StaysOrMakesRoom(a, b))
    case Write(_, _) => b == a
    case Unpin(i, dirty) =>
      if i != id then b == a
      else if a.In? && 0 < a.pins then reply == Flag(true) && b == In(a.pins - 1, a.dirty || dirty)
      else reply == Flag(false) && b == a
    case Flush(i) =>
      if i != id then b == a
      else if a.In? then reply == Flag(true) && b == In(a.pins, false)
      else reply == Flag(false) && b == a
    case FlushAll => b == (if a.In? then In(a.pins, false) else a)
    case Delete(i) =>
      if i != id then b == a
      else if a.In? && a.pins == 0 then reply == Flag(true) && b == Out
      else reply == Flag(a == Out) && b == a
  }

  // ------------------------------------------------------------ each step

  lemma DeliveredElsewhere(p: Pool, p': Pool, other: PageId, f: Frame, id: PageId)
    requires Shape(p) && Shape(p') && Delivered(p, p', other, f) && id != other
    ensures StaysOrMakesRoom(SlotOf(p, id), SlotOf(p', id))
  {
    if id in p.table {
      ResidentFrame(p, id);
      if other in p.table { ResidentFrame(p, other); }
    }
    if id in p'.table {
      ResidentFrame(p', id);
      ResidentFrame(p', other);
      var g := p'.table[id];
      assert g != f && p'.pages[g] == p.pages[g];
      assert FrameInv(p, g);
    }
  }

  lemma NewMoves(p: Pool, k: nat, id: PageId)
    requires Inv(p, k)
    ensures Moves(SlotOf(p, id), SlotOf(NewPage(p, k).0, id), New, Framed(NewPage(p, k).1), id, p.next)
  {
    NewPageCorrect(p, k);
    if NewPage(p, k).1.Some? {
      var f := NewPage(p, k).1.value;
      if id == p.next {
        assert NewPage(p, k).0.pages[f] == Page(p.next, 1, false, ZERO_PAGE);
      } else {
        DeliveredElsewhere(p, NewPage(p, k).0, p.next, f, id);
      }
    }
  }

  lemma FetchMoves(p: Pool, k: nat, i: PageId, id: PageId)
    requires Inv(p, k) && 0 <= i < p.next
    ensures Moves(SlotOf(p, id), SlotOf(FetchPage(p, k, i).0, id), Fetch(i), Framed(FetchPage(p, k, i).1), id, p.next)
  {
    FetchPageCorrect(p, k, i);
    if FetchPage(p, k, i).1.Some? {
      var f := FetchPage(p, k, i).1.value;
      if id != i {
        DeliveredElsewhere(p, FetchPage(p, k, i).0, i, f, id);
      } else if i in p.table {
        ResidentFrame(p, i);
      }
    }
  }

  lemma UnpinMoves(p: Pool, i: PageId, dirty: bool, id: PageId)
    requires Shape(p)
    ensures Moves(SlotOf(p, id), SlotOf(UnpinPage(p, i, dirty).0, id), Unpin(i, dirty), Flag(UnpinPage(p, i, dirty).1),
                  id, p.next)
  {
    if i in p.table { ResidentFrame(p, i); }
    if id in p.table { ResidentFrame(p, id); }
  }

  lemma FlushMoves(p: Pool, i: PageId, id: PageId)
    requires Shape(p)
    ensures Moves(SlotOf(p, id), SlotOf(FlushPage(p, i).0, id), Flush(i), Flag(FlushPage(p, i).1), id, p.next)
  {
    if i in p.table { ResidentFrame(p, i); }
    if id in p.table { ResidentFrame(p, id); }
  }

  lemma FlushAllMoves(p: Pool, id: PageId)
    requires Shape(p)
    ensures Moves(SlotOf(p, id), SlotOf(FlushFrames(p, |p.pages|), id), FlushAll, Unit, id, p.next)
  {
    FlushFramesCorrect(p, |p.pages|);
    if id in p.table { ResidentFrame(p, id); }
  }

  lemma DeleteMoves(p: Pool, k: nat, i: PageId, id: PageId)
    requires Shape(p)
    ensures Moves(SlotOf(p, id), SlotOf(DeletePage(p, k, i).0, id), Delete(i), Flag(DeletePage(p, k, i).1), id, p.next)
  {
    if i in p.table { ResidentFrame(p, i); }
    if id in p.table { ResidentFrame(p, id); }
  }

  /** Every operation moves every page as the table of moves says, replies included. */
  lemma StepMoves(p: Pool, k: nat, op: PoolOp, id: PageId)
    requires Inv(p, k) && Possible(p, op)
    ensures Moves(SlotOf(p, id), SlotOf(PoolStep(p, k, op).0, id), op, PoolStep(p, k, op).1, id, p.next)
  {
    match op
    case New => NewMoves(p, k, id);
    case Fetch(i) => FetchMoves(p, k, i, id);
    case Write(_, _) =>
    case Unpin(i, dirty) => UnpinMoves(p, i, dirty, id);
    case Flush(i) => FlushMoves(p, i, id);
    case FlushAll => FlushAllMoves(p, id);
    case Delete(i) => DeleteMoves(p, k, i, id);
  }

  // ------------------------------------------------- pins over whole runs

  function PinCount(a: Slot): nat {
    if a.In? then a.pins else 0
  }

  ghost function ReplyAt(n: nat, k: nat, ops: seq<PoolOp>, i: nat): PoolReply
    requires LegalOps(n, k, ops) && i < |ops| && 2 <= k
  {
    PoolAtNext(n, k, ops, i);
    PoolStep(PoolAt(n, k, ops, i), k, ops[i]).1
  }

  /** The call handed page `id` to its caller; `next` is the id a new page would get. */
  predicate HandsOut(op: PoolOp, reply: PoolReply, id: PageId, next: PageId) {
    reply.Framed? && reply.frame.Some? && (op == Fetch(id) || (op == New && id == next))
  }

  /** The call took page `id` back. */
  predicate TakesBack(op: PoolOp, reply: PoolReply, id: PageId) {
    op.Unpin? && op.id == id && reply == Flag(true)
  }

  lemma MovesAreBalanced(a: Slot, b: Slot, op: PoolOp, reply: PoolReply, id: PageId, next: PageId)
    requires Moves(a, b, op, reply, id, next) && (id == next ==> a == Out) && (op == Fetch(id) ==> id < next)
    ensures PinCount(b) == PinCount(a) + (if HandsOut(op, reply, id, next) then 1 else 0)
                           - (if TakesBack(op, reply, id) then 1 else 0)
  {
  }

  /** Calls that handed the page out minus calls that took it back, among the first j. */
  ghost function Balance(n: nat, k: nat, ops: seq<PoolOp>, j: nat, id: PageId): int
    requires LegalOps(n, k, ops) && j <= |ops| && 2 <= k
  {
    if j == 0 then 0
    else
      var reply := ReplyAt(n, k, ops, j - 1);
      Balance(n, k, ops, j - 1, id)
      + (if HandsOut(ops[j - 1], reply, id, PoolAt(n, k, ops, j - 1).next) then 1 else 0)
      - (if TakesBack(ops[j - 1], reply, id) then 1 else 0)
  }

  /** Over every run the pin count of a page is the number of times it was handed out and not yet taken back. */
  lemma {:induction false} PinsAreBalanced(n: nat, k: nat, ops: seq<PoolOp>, j: nat, id: PageId)
    requires 2 <= k && LegalOps(n, k, ops) && j <= |ops|
    ensures PinCount(SlotOf(PoolAt(n, k, ops, j), id)) == Balance(n, k, ops, j, id)
  {
    if j > 0 {
      PinsAreBalanced(n, k, ops, j - 1, id);
      PoolAtNext(n, k, ops, j - 1);
      var p := PoolAt(n, k, ops, j - 1);
      StepBalance(p, k, ops[j - 1], id);
    }
  }

  lemma StepBalance(p: Pool, k: nat, op: PoolOp, id: PageId)
    requires Inv(p, k) && Possible(p, op)
    ensures var reply := PoolStep(p, k, op).1;
            PinCount(SlotOf(PoolStep(p, k, op).0, id))
            == PinCount(SlotOf(p, id)) + (if HandsOut(op, reply, id, p.next) then 1 else 0)
               - (if TakesBack(op, reply, id) then 1 else 0)
  {
    StepMoves(p, k, op, id);
    if id == p.next { NeverHandedOut(p, id); }
    MovesAreBalanced(SlotOf(p, id), SlotOf(PoolStep(p, k, op).0, id), op, PoolStep(p, k, op).1, id, p.next);
  }

  lemma NeverHandedOut(p: Pool, id: PageId)
    requires Shape(p) && p.next <= id
    ensures SlotOf(p, id) == Out
  {
    TableIdsAllocated(p);
  }

  // ------------------------------------------------------- what is on disk

  /** `FlushPgImp` succeeds exactly for a resident page, and puts its bytes and nothing else on disk. */
  lemma FlushPageCorrect(p: Pool, id: PageId)
    requires Shape(p)
    ensures FlushPage(p, id).1 <==> SlotOf(p, id).In?
    ensures FlushPage(p, id).1 ==> SlotOf(FlushPage(p, id).0, id) == In(SlotOf(p, id).pins, false)
    ensures DiskRead(FlushPage(p, id).0.disk, id) == Bytes(p, id)
    ensures forall i :: i != id ==> DiskRead(FlushPage(p, id).0.disk, i) == DiskRead(p.disk, i)
    ensures forall i :: Bytes(FlushPage(p, id).0, i) == Bytes(p, i)
  {
    if id in p.table {
      ResidentFrame(p, id);
      forall i
        ensures Bytes(FlushPage(p, id).0, i) == Bytes(p, i)
      {
        if i in p.table { ResidentFrame(p, i); }
      }
    }
  }

  /** The copy on disk is what the page reads as. */
  predicate OnDisk(p: Pool, id: PageId) {
    DiskRead(p.disk, id) == Bytes(p, id)
  }

  /** What an operation may do to a page whose bytes are on disk: nothing but leave them there. */
  ghost predicate LeavesOnDisk(p: Pool, p': Pool, id: PageId) {
    OnDisk(p, id) ==> OnDisk(p', id) && Bytes(p', id) == Bytes(p, id)
  }

  lemma VictimLeavesOnDisk(p: Pool, id: PageId)
    requires Shape(p) && FindVictim(p).1.Some? && OnDisk(p, id)
    ensures FrameOk(FindVictim(p).0, FindVictim(p).1.value)
    ensures DiskRead(FindVictim(p).0.disk, id) == Bytes(p, id) && Bytes(FindVictim(p).0, id) == Bytes(p, id)
  {
    VictimReady(p);
    if p.free == [] {
      FrameEvicted(p);
      if id in p.table { ResidentFrame(p, id); }
    }
  }

  lemma LoadLeavesOnDisk(p: Pool, k: nat, other: PageId, data: Data, next: PageId, id: PageId)
    requires Shape(p) && FindVictim(p).1.Some? && id != other
    requires FrameOk(FindVictim(p).0, FindVictim(p).1.value)
    ensures LeavesOnDisk(p, Loaded(p, k, other, data, next), id)
  {
    if OnDisk(p, id) {
      VictimLeavesOnDisk(p, id);
      LoadedShows(p, k, other, data, next, id);
    }
  }

  lemma NewLeavesOnDisk(p: Pool, k: nat, id: PageId)
    requires Inv(p, k) && id < p.next
    ensures LeavesOnDisk(p, NewPage(p, k).0, id)
  {
    FindVictimFailsIff(p, k);
    if FindVictim(p).1.Some? {
      VictimReady(p);
      LoadLeavesOnDisk(p, k, p.next, ZERO_PAGE, p.next + 1, id);
      assert NewPage(p, k).0 == Loaded(p, k, p.next, ZERO_PAGE, p.next + 1);
    }
  }

  lemma FetchLeavesOnDisk(p: Pool, k: nat, i: PageId, id: PageId)
    requires Inv(p, k) && 0 <= i < p.next
    ensures LeavesOnDisk(p, FetchPage(p, k, i).0, id)
  {
    if i in p.table {
      ResidentFrame(p, i);
      if id in p.table { ResidentFrame(p, id); }
    } else {
      FindVictimFailsIff(p, k);
      if FindVictim(p).1.Some? {
        VictimReady(p);
        var data := DiskRead(FindVictim(p).0.disk, i);
        assert FetchPage(p, k, i).0 == Loaded(p, k, i, data, p.next);
        if i != id {
          LoadLeavesOnDisk(p, k, i, data, p.next, id);
        } else {
          VictimLeavesDisk(p, id);
          LoadedShows(p, k, i, data, p.next, id);
        }
      }
    }
  }

  lemma {:induction false} FlushesLeaveOnDisk(p: Pool, n: nat, id: PageId)
    requires Shape(p) && n <= |p.pages|
    ensures LeavesOnDisk(p, FlushFrames(p, n), id)
  {
    if n > 0 {
      FlushesLeaveOnDisk(p, n - 1, id);
      FlushFramesCorrect(p, n - 1);
      var p1 := FlushFrames(p, n - 1);
      assert FrameInv(p1, n - 1);
      if p1.pages[n - 1].id != INVALID_PAGE_ID {
        FlushPageCorrect(p1, p1.pages[n - 1].id);
      }
    }
  }

  lemma DeleteLeavesOnDisk(p: Pool, k: nat, i: PageId, id: PageId)
    requires Shape(p)
    ensures LeavesOnDisk(p, DeletePage(p, k, i).0, id)
  {
    if i in p.table {
      ResidentFrame(p, i);
      if id in p.table { ResidentFrame(p, id); }
    }
  }

  /** No operation but a write to the page itself parts a page from its copy on disk. */
  lemma StepLeavesOnDisk(p: Pool, k: nat, op: PoolOp, id: PageId)
    requires Inv(p, k) && Possible(p, op) && id < p.next && (op.Write? ==> op.id != id)
    ensures LeavesOnDisk(p, PoolStep(p, k, op).0, id)
  {
    match op
    case New => NewLeavesOnDisk(p, k, id);
    case Fetch(i) => FetchLeavesOnDisk(p, k, i, id);
    case Write(i, _) => ResidentFrame(p, i); if id in p.table { ResidentFrame(p, id); }
    case Unpin(i, _) => if i in p.table { ResidentFrame(p, i); } if id in p.table { ResidentFrame(p, id); }
    case Flush(i) => FlushPageCorrect(p, i);
    case FlushAll => FlushesLeaveOnDisk(p, |p.pages|, id);
    case Delete(i) => DeleteLeavesOnDisk(p, k, i, id);
  }

  /** The operation puts page `id` on disk. */
  predicate Flushes(op: PoolOp, id: PageId) {
    op == Flush(id) || op == FlushAll
  }

  lemma FlushPutsOnDisk(p: Pool, k: nat, op: PoolOp, id: PageId)
    requires Shape(p) && Flushes(op, id) && Possible(p, op)
    ensures OnDisk(PoolStep(p, k, op).0, id) && Bytes(PoolStep(p, k, op).0, id) == Bytes(p, id)
  {
    if op == Flush(id) {
      FlushPageCorrect(p, id);
    } else {
      FlushFramesCorrect(p, |p.pages|);
      AllFlushedOnDisk(p, FlushFrames(p, |p.pages|), id);
      if id !in p.table { FlushesLeaveOnDisk(p, |p.pages|, id); }
    }
  }

  lemma AllFlushedOnDisk(p: Pool, p': Pool, id: PageId)
    requires Shape(p) && FlushedUpTo(p, p', |p.pages|)
    ensures id in p.table ==> OnDisk(p', id) && Bytes(p', id) == Bytes(p, id)
  {
    if id in p.table {
      ResidentFrame(p, id);
    }
  }

  lemma {:induction false} StaysOnDisk(n: nat, k: nat, ops: seq<PoolOp>, i: nat, j: nat, id: PageId)
    requires 2 <= k && LegalOps(n, k, ops) && i <= j <= |ops| && id < PoolAt(n, k, ops, i).next
    requires OnDisk(PoolAt(n, k, ops, i), id)
    requires forall m :: i <= m < j && ops[m].Write? ==> ops[m].id != id
    ensures OnDisk(PoolAt(n, k, ops, j), id) && Bytes(PoolAt(n, k, ops, j), id) == Bytes(PoolAt(n, k, ops, i), id)
    ensures id < PoolAt(n, k, ops, j).next
    decreases j
  {
    if i < j {
      StaysOnDisk(n, k, ops, i, j - 1, id);
      StaysOneStep(n, k, ops, j - 1, id);
    }
  }

  lemma StaysOneStep(n: nat, k: nat, ops: seq<PoolOp>, i: nat, id: PageId)
    requires 2 <= k && LegalOps(n, k, ops) && i < |ops| && id < PoolAt(n, k, ops, i).next
    requires OnDisk(PoolAt(n, k, ops, i), id) && (ops[i].Write? ==> ops[i].id != id)
    ensures OnDisk(PoolAt(n, k, ops, i + 1), id)
    ensures Bytes(PoolAt(n, k, ops, i + 1), id) == Bytes(PoolAt(n, k, ops, i), id)
    ensures id < PoolAt(n, k, ops, i + 1).next
  {
    PoolAtNext(n, k, ops, i);
    StepLeavesOnDisk(PoolAt(n, k, ops, i), k, ops[i], id);
    NextOnlyGrows(PoolAt(n, k, ops, i), k, ops[i]);
  }

  lemma NextOnlyGrows(p: Pool, k: nat, op: PoolOp)
    requires Inv(p, k) && Possible(p, op)
    ensures p.next <= PoolStep(p, k, op).0.next
  {
    match op
    case New => NewPageCorrect(p, k);
    case Fetch(i) => FetchPageCorrect(p, k, i);
    case FlushAll => FlushFramesCorrect(p, |p.pages|);
    case _ =>
  }

  /**
   Over every run, careful or not: after a flush of the page or of all pages the
   disk alone holds the bytes the page had, until the next write to the page.
   */
  lemma FlushedStaysOnDisk(n: nat, k: nat, ops: seq<PoolOp>, i: nat, j: nat, id: PageId)
    requires 2 <= k && LegalOps(n, k, ops) && i < j <= |ops|
    requires Flushes(ops[i], id) && 0 <= id < PoolAt(n, k, ops, i).next
    requires forall m :: i <= m < j && ops[m].Write? ==> ops[m].id != id
    ensures DiskRead(PoolAt(n, k, ops, j).disk, id) == Bytes(PoolAt(n, k, ops, i), id)
  {
    PoolAtNext(n, k, ops, i);
    FlushPutsOnDisk(PoolAt(n, k, ops, i), k, ops[i], id);
    NextOnlyGrows(PoolAt(n, k, ops, i), k, ops[i]);
    StaysOnDisk(n, k, ops, i + 1, j, id);
  }

  /** In a careful run these are the bytes of the plain map. */
  lemma FlushedMapIsOnDisk(n: nat, k: nat, ops: seq<PoolOp>, i: nat, id: PageId)
    requires 2 <= k && LegalOps(n, k, ops) && Careful(n, k, ops) && i < |ops|
    requires Flushes(ops[i], id) && 0 <= id < PoolAt(n, k, ops, i).next
    requires forall m :: i <= m < |ops| && ops[m].Write? ==> ops[m].id != id
    ensures id in MapAfter(n, k, ops) && DiskRead(PoolAfter(n, k, ops).disk, id) == MapAfter(n, k, ops)[id]
  {
    PoolAtNext(n, k, ops, i);
    FlushPutsOnDisk(PoolAt(n, k, ops, i), k, ops[i], id);
    NextOnlyGrows(PoolAt(n, k, ops, i), k, ops[i]);
    StaysOnDisk(n, k, ops, i + 1, |ops|, id);
    assert ops[..|ops|] == ops;
    PoolRefinesMap(n, k, ops);
    assert Contents(PoolAfter(n, k, ops))[id] == Bytes(PoolAfter(n, k, ops), id);
  }
}
