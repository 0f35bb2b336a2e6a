/**
 The buffer pool against its specification: over every run of its operations,
 pool and disk together are a plain map from page id to bytes, frames are never
 lost or shared, and a pinned page stays where it is.
 */
module PoolRuns {
  import opened Collections
  import opened LruK
  import opened PoolModel

  datatype PoolOp =
    | New
    | Fetch(id: PageId)
    | Write(id: PageId, data: Data)
    | Unpin(id: PageId, dirty: bool)
    | Flush(id: PageId)
    | FlushAll
    | Delete(id: PageId)

  datatype PoolReply = Framed(frame: Option<Frame>) | Flag(ok: bool) | Unit

  /** The last unpin of a page passes is_dirty unless the page is flagged already or equal to its copy on disk. */
  ghost predicate UnpinSafe(p: Pool, id: PageId, dirty: bool) {
    id in p.table && FrameOk(p, p.table[id]) && p.pages[p.table[id]].pins == 1 ==>
      dirty || p.pages[p.table[id]].dirty || p.pages[p.table[id]].data == DiskRead(p.disk, id)
  }

  /** Users write only pages they hold pinned. */
  ghost predicate HeldPinned(p: Pool, id: PageId) {
    id in p.table && FrameOk(p, p.table[id]) && 0 < p.pages[p.table[id]].pins
  }

  /** What can happen at all: fetched ids were handed out, and only a pinned page has somebody to write it. */
  ghost predicate Possible(p: Pool, op: PoolOp) {
    match op
    case Fetch(id) => 0 <= id < p.next
    case Write(id, _) => HeldPinned(p, id)
    case _ => true
  }

  /** What the users of the pool must respect. */
  ghost predicate Allowed(p: Pool, op: PoolOp) {
    Possible(p, op) && (op.Unpin? ==> UnpinSafe(p, op.id, op.dirty))
  }

  ghost function PoolStep(p: Pool, k: nat, op: PoolOp): (Pool, PoolReply)
    requires Possible(p, op)
  {
    match op
    case New => (NewPage(p, k).0, Framed(NewPage(p, k).1))
    case Fetch(id) => (FetchPage(p, k, id).0, Framed(FetchPage(p, k, id).1))
    case Write(id, data) => (UserWrite(p, id, data), Unit)
    case Unpin(id, dirty) => (UnpinPage(p, id, dirty).0, Flag(UnpinPage(p, id, dirty).1))
    case Flush(id) => (FlushPage(p, id).0, Flag(FlushPage(p, id).1))
    case FlushAll => (FlushFrames(p, |p.pages|), Unit)
    case Delete(id) => (DeletePage(p, k, id).0, Flag(DeletePage(p, k, id).1))
  }

  /** The specification: a map of all pages handed out. The reply tells whether a new page was granted. */
  function MapStep(m: map<PageId, Data>, op: PoolOp, reply: PoolReply): map<PageId, Data> {
    match op
    case New => if reply.Framed? && reply.frame.Some? then m[|m| := ZERO_PAGE] else m
    case Write(id, data) => m[id := data]
    case _ => m
  }

  /** The ids below n. */
  function Ids(n: nat): (s: set<PageId>)
    ensures |s| == n && forall id :: id in s <==> 0 <= id < n
  {
    if n == 0 then {} else Ids(n - 1) + {n - 1}
  }

  lemma ContentsSize(p: Pool)
    requires 0 <= p.next
    ensures |Contents(p)| == p.next
  {
    assert Contents(p).Keys == Ids(p.next);
  }

  // ------------------------------------------------------ each operation

  /** `NewPgImp` hands out the next id with zeroed bytes, or fails exactly when every frame is pinned. */
  lemma NewPageCorrect(p: Pool, k: nat)
    requires Shape(p) && LruOk(p.lru, k)
    ensures Shape(NewPage(p, k).0)
    ensures NewPage(p, k).1.None? <==> AllPinned(p)
    ensures NewPage(p, k).1.None? ==> NewPage(p, k).0 == p
    ensures NewPage(p, k).1.Some? ==>
              && NewPage(p, k).0.next == p.next + 1
              && Delivered(p, NewPage(p, k).0, p.next, NewPage(p, k).1.value)
              && NewPage(p, k).0.pages[NewPage(p, k).1.value].data == ZERO_PAGE
    ensures NothingUnsaved(p) ==>
              && NothingUnsaved(NewPage(p, k).0)
              && (NewPage(p, k).1.Some? ==> Contents(NewPage(p, k).0) == Contents(p)[p.next := ZERO_PAGE])
  {
    FindVictimFailsIff(p, k);
    if FindVictim(p).1.Some? {
      NewPageLoads(p, k);
      if NothingUnsaved(p) {
        NewPageContents(p, k);
      }
    }
  }

  lemma NewPageLoads(p: Pool, k: nat)
    requires Shape(p) && FindVictim(p).1.Some?
    ensures NewPage(p, k).1 == FindVictim(p).1
    ensures Shape(NewPage(p, k).0) && NewPage(p, k).0.next == p.next + 1
    ensures Delivered(p, NewPage(p, k).0, p.next, NewPage(p, k).1.value)
    ensures NewPage(p, k).0.pages[NewPage(p, k).1.value].data == ZERO_PAGE
    ensures NothingUnsaved(p) ==> NothingUnsaved(NewPage(p, k).0)
  {
    TableIdsAllocated(p);
    LoadedCorrect(p, k, p.next, ZERO_PAGE, p.next + 1);
    assert NewPage(p, k).0 == Loaded(p, k, p.next, ZERO_PAGE, p.next + 1);
  }

  lemma NewPageContents(p: Pool, k: nat)
    requires Shape(p) && NothingUnsaved(p) && FindVictim(p).1.Some?
    ensures Contents(NewPage(p, k).0) == Contents(p)[p.next := ZERO_PAGE]
  {
    VictimReady(p);
    var p' := NewPage(p, k).0;
    assert p' == Loaded(p, k, p.next, ZERO_PAGE, p.next + 1);
    forall i | 0 <= i < p.next + 1
      ensures Bytes(p', i) == if i == p.next then ZERO_PAGE else Bytes(p, i)
    {
      LoadedBytes(p, k, p.next, ZERO_PAGE, p.next + 1, i);
    }
    assert Contents(p').Keys == Contents(p)[p.next := ZERO_PAGE].Keys;
  }

  lemma FetchResidentCorrect(p: Pool, k: nat, id: PageId)
    requires Shape(p) && id in p.table
    ensures FetchPage(p, k, id).1 == Some(p.table[id])
    ensures Shape(FetchPage(p, k, id).0) && FetchPage(p, k, id).0.next == p.next
    ensures Delivered(p, FetchPage(p, k, id).0, id, p.table[id])
    ensures FetchPage(p, k, id).0.pages[p.table[id]].data == Bytes(p, id)
    ensures Contents(FetchPage(p, k, id).0) == Contents(p)
    ensures NothingUnsaved(p) ==> NothingUnsaved(FetchPage(p, k, id).0)
  {
    ResidentFrame(p, id);
    var p' := FetchPage(p, k, id).0;
    TouchEntries(p.lru, k, p.table[id]);
    assert p.lru.entries.Keys + {p.table[id]} == p.lru.entries.Keys;
    assert PageChanged(p, p', id);
    PageChangedShape(p, p', id);
    SameDataSameContents(p, p', id);
    if NothingUnsaved(p) {
      PageChangedSavedIff(p, p', id);
    }
  }

  /** Making room writes back a resident page only. */
  lemma VictimLeavesDisk(p: Pool, id: PageId)
    requires Shape(p) && FindVictim(p).1.Some? && id !in p.table
    ensures DiskRead(FindVictim(p).0.disk, id) == Bytes(p, id)
  {
    if p.free == [] {
      FrameEvicted(p);
    }
  }

  lemma FetchMissCorrect(p: Pool, k: nat, id: PageId)
    requires Shape(p) && 0 <= id < p.next && id !in p.table && FindVictim(p).1.Some?
    ensures FetchPage(p, k, id).1 == FindVictim(p).1
    ensures Shape(FetchPage(p, k, id).0) && FetchPage(p, k, id).0.next == p.next
    ensures Delivered(p, FetchPage(p, k, id).0, id, FetchPage(p, k, id).1.value)
    ensures FetchPage(p, k, id).0.pages[FetchPage(p, k, id).1.value].data == Bytes(p, id)
    ensures NothingUnsaved(p) ==> NothingUnsaved(FetchPage(p, k, id).0)
  {
    VictimReady(p);
    VictimLeavesDisk(p, id);
    var data := DiskRead(FindVictim(p).0.disk, id);
    LoadedCorrect(p, k, id, data, p.next);
    assert FetchPage(p, k, id).0 == Loaded(p, k, id, data, p.next);
  }

  lemma FetchMissContents(p: Pool, k: nat, id: PageId)
    requires Shape(p) && NothingUnsaved(p) && 0 <= id < p.next && id !in p.table && FindVictim(p).1.Some?
    ensures Contents(FetchPage(p, k, id).0) == Contents(p)
  {
    VictimReady(p);
    VictimLeavesDisk(p, id);
    var data := DiskRead(FindVictim(p).0.disk, id);
    var p' := FetchPage(p, k, id).0;
    assert p' == Loaded(p, k, id, data, p.next);
    forall i | 0 <= i < p.next
      ensures Bytes(p', i) == Bytes(p, i)
    {
      LoadedBytes(p, k, id, data, p.next, i);
    }
  }

  /**
   `FetchPgImp` pins the page with the bytes it last had, or fails exactly when
   it is not resident and every frame is pinned.
   */
  lemma FetchPageCorrect(p: Pool, k: nat, id: PageId)
    requires Shape(p) && LruOk(p.lru, k) && 0 <= id < p.next
    ensures Shape(FetchPage(p, k, id).0) && FetchPage(p, k, id).0.next == p.next
    ensures FetchPage(p, k, id).1.None? <==> id !in p.table && AllPinned(p)
    ensures FetchPage(p, k, id).1.None? ==> FetchPage(p, k, id).0 == p
    ensures FetchPage(p, k, id).1.Some? ==>
              && Delivered(p, FetchPage(p, k, id).0, id, FetchPage(p, k, id).1.value)
              && FetchPage(p, k, id).0.pages[FetchPage(p, k, id).1.value].data == Contents(p)[id]
    ensures NothingUnsaved(p) ==>
              NothingUnsaved(FetchPage(p, k, id).0) && Contents(FetchPage(p, k, id).0) == Contents(p)
  {
    if id in p.table {
      FetchResidentCorrect(p, k, id);
    } else {
      FindVictimFailsIff(p, k);
      if FindVictim(p).1.Some? {
        FetchMissCorrect(p, k, id);
        if NothingUnsaved(p) {
          FetchMissContents(p, k, id);
        }
      }
    }
  }

  /**
   `UnpinPgImp` never changes what a page reads as; it leaves nothing unsaved
   exactly when the caller respects `UnpinSafe`.
   */
  lemma UnpinPageCorrect(p: Pool, id: PageId, dirty: bool)
    requires Shape(p)
    ensures Shape(UnpinPage(p, id, dirty).0) && Contents(UnpinPage(p, id, dirty).0) == Contents(p)
    ensures NothingUnsaved(p) ==> (NothingUnsaved(UnpinPage(p, id, dirty).0) <==> UnpinSafe(p, id, dirty))
    ensures UnpinPage(p, id, dirty).1 <==> HeldPinned(p, id)
    ensures HeldPinned(p, id) ==> FramesKept(p, UnpinPage(p, id, dirty).0, p.table[id])
    ensures !HeldPinned(p, id) ==> UnpinPage(p, id, dirty).0 == p
  {
    if id in p.table {
      ResidentFrame(p, id);
      if 0 < p.pages[p.table[id]].pins {
        var p' := UnpinPage(p, id, dirty).0;
        assert PageChanged(p, p', id);
        PageChangedShape(p, p', id);
        SameDataSameContents(p, p', id);
        if NothingUnsaved(p) { PageChangedSavedIff(p, p', id); }
      }
    }
  }

  lemma UserWriteCorrect(p: Pool, id: PageId, data: Data)
    requires Shape(p) && HeldPinned(p, id)
    ensures Shape(UserWrite(p, id, data)) && (NothingUnsaved(p) ==> NothingUnsaved(UserWrite(p, id, data)))
    ensures Contents(UserWrite(p, id, data)) == Contents(p)[id := data]
    ensures FramesKept(p, UserWrite(p, id, data), p.table[id])
  {
    ResidentFrame(p, id);
    var p' := UserWrite(p, id, data);
    assert PageChanged(p, p', id);
    PageChangedShape(p, p', id);
    PageChangedContents(p, p', id);
    if NothingUnsaved(p) { PageChangedSavedIff(p, p', id); }
  }

  /** Writing a resident page to disk makes the two copies equal and changes nothing else. */
  lemma WriteBackCorrect(p: Pool, id: PageId)
    requires Shape(p) && id in p.table
    ensures FrameOk(p, p.table[id])
    ensures var p' := WriteBack(p, p.table[id]);
            && Shape(p') && (NothingUnsaved(p) ==> NothingUnsaved(p')) && Contents(p') == Contents(p)
            && FramesKept(p, p', p.table[id]) && DiskRead(p'.disk, id) == Contents(p)[id]
            && p'.pages[p.table[id]] == p.pages[p.table[id]].(dirty := false)
  {
    ResidentFrame(p, id);
    var p' := WriteBack(p, p.table[id]);
    assert PageChanged(p, p', id);
    PageChangedShape(p, p', id);
    SameDataSameContents(p, p', id);
    if NothingUnsaved(p) { PageChangedSavedIff(p, p', id); }
    assert Contents(p)[id] == p.pages[p.table[id]].data;
  }

  /** p' is p with the first n frames flushed; ids, pins, tables and bytes are untouched. */
  ghost predicate FlushedUpTo(p: Pool, p': Pool, n: nat) {
    && n <= |p.pages| && |p'.pages| == |p.pages|
    && Shape(p') && (NothingUnsaved(p) ==> NothingUnsaved(p')) && Contents(p') == Contents(p)
    && p'.table == p.table && p'.lru == p.lru && p'.free == p.free && p'.next == p.next
    && (forall f :: FrameOk(p, f) ==> p'.pages[f] == if f < n && p.pages[f].id != INVALID_PAGE_ID
                                                     then p.pages[f].(dirty := false) else p.pages[f])
    && (forall f :: 0 <= f < n && p.pages[f].id != INVALID_PAGE_ID ==>
          DiskRead(p'.disk, p.pages[f].id) == p.pages[f].data)
  }

  /** The frames flushed so far are equal to their copies on disk. */
  lemma {:induction false} FlushFramesCorrect(p: Pool, n: nat)
    requires Shape(p) && n <= |p.pages|
    ensures FlushedUpTo(p, FlushFrames(p, n), n)
  {
    if n == 0 {
      NothingFlushed(p);
    } else {
      FlushFramesCorrect(p, n - 1);
      var p1 := FlushFrames(p, n - 1);
      if p1.pages[n - 1].id != INVALID_PAGE_ID {
        FlushOneMore(p, p1, n - 1);
      } else {
        FlushSkips(p, p1, n - 1);
      }
    }
  }

  lemma NothingFlushed(p: Pool)
    requires Shape(p)
    ensures FlushedUpTo(p, p, 0)
  {
  }

  lemma FlushSkips(p: Pool, p1: Pool, x: nat)
    requires FlushedUpTo(p, p1, x) && x < |p.pages| && p1.pages[x].id == INVALID_PAGE_ID
    ensures FlushedUpTo(p, p1, x + 1)
  {
    assert FrameOk(p, x) && p1.pages[x] == p.pages[x];
  }

  /** Flushing frame x after the frames before it. */
  lemma FlushOneMore(p: Pool, p1: Pool, x: nat)
    requires Shape(p) && FlushedUpTo(p, p1, x) && x < |p.pages| && p1.pages[x].id != INVALID_PAGE_ID
    ensures FlushedUpTo(p, WriteBack(p1, x), x + 1)
  {
    assert FrameOk(p, x) && FrameInv(p1, x);
    var id := p1.pages[x].id;
    WriteBackCorrect(p1, id);
    forall f | 0 <= f < x && p.pages[f].id != INVALID_PAGE_ID ensures p.pages[f].id != id {
      assert FrameInv(p, f) && FrameInv(p, x);
    }
  }

  /** `DeletePgImp` frees the frame of an unpinned resident page; the page's bytes stay readable. */
  lemma DeletePageCorrect(p: Pool, k: nat, id: PageId)
    requires Shape(p)
    ensures Shape(DeletePage(p, k, id).0)
    ensures NothingUnsaved(p) ==>
              NothingUnsaved(DeletePage(p, k, id).0) && Contents(DeletePage(p, k, id).0) == Contents(p)
    ensures DeletePage(p, k, id).1 <==> !HeldPinned(p, id)
    ensures id in p.table && !HeldPinned(p, id) ==>
              && id !in DeletePage(p, k, id).0.table
              && p.table[id] in DeletePage(p, k, id).0.free
              && FramesKept(p, DeletePage(p, k, id).0, p.table[id])
    ensures id !in p.table || HeldPinned(p, id) ==> DeletePage(p, k, id).0 == p
  {
    if id in p.table {
      ResidentFrame(p, id);
      if p.pages[p.table[id]].pins == 0 {
        var p1 := if p.pages[p.table[id]].dirty then WriteBack(p, p.table[id]) else p;
        if p.pages[p.table[id]].dirty { WriteBackCorrect(p, id); }
        DropFrameShape(p1, DeletePage(p, k, id).0, id);
        if NothingUnsaved(p) { DropFrame(p1, DeletePage(p, k, id).0, id); }
      }
    }
  }

  lemma DropFrameShape(p: Pool, p': Pool, id: PageId)
    requires Shape(p) && id in p.table && FrameOk(p, p.table[id])
    requires p' == p.(pages := p.pages[p.table[id] := BLANK], table := p.table - {id}, lru := p'.lru,
                      free := p.free + [p.table[id]])
    requires p'.lru.entries == p.lru.entries - {p.table[id]}
    ensures Shape(p') && FramesKept(p, p', p.table[id])
  {
    ResidentFrame(p, id);
    var x := p.table[id];
    assert forall f :: f in p'.free <==> f in p.free || f == x;
    assert forall f :: FrameOk(p', f) <==> FrameOk(p, f);
    forall f | FrameOk(p', f) ensures FrameInv(p', f) {
      assert FrameInv(p, f);
    }
    forall i | i in p'.table ensures p'.table[i] != x && p'.pages[p'.table[i]].id == i {
      assert p.pages[p.table[i]].id == i;
    }
  }

  lemma DropFrame(p: Pool, p': Pool, id: PageId)
    requires Shape(p) && NothingUnsaved(p) && id in p.table && FrameOk(p, p.table[id])
    requires p.pages[p.table[id]].pins == 0 && !p.pages[p.table[id]].dirty
    requires p' == p.(pages := p.pages[p.table[id] := BLANK], table := p.table - {id}, lru := p'.lru,
                      free := p.free + [p.table[id]])
    requires p'.lru.entries == p.lru.entries - {p.table[id]}
    ensures Shape(p') && NothingUnsaved(p') && Contents(p') == Contents(p)
    ensures FramesKept(p, p', p.table[id])
  {
    DropFrameShape(p, p', id);
    ResidentFrame(p, id);
    assert p.pages[p.table[id]].data == DiskRead(p.disk, id);
    forall i | 0 <= i < p.next ensures Bytes(p', i) == Bytes(p, i) {
      if i in p.table { assert p.pages[p.table[i]].id == i; }
    }
  }

  // ----------------------------- the structure, whatever users do with it

  lemma NewShape(p: Pool, k: nat)
    requires Shape(p)
    ensures Shape(NewPage(p, k).0)
  {
    if FindVictim(p).1.Some? {
      NewPageLoads(p, k);
    } else {
      NoVictimNoChange(p);
    }
  }

  lemma NoVictimNoChange(p: Pool)
    requires Shape(p) && FindVictim(p).1.None?
    ensures FindVictim(p).0 == p
  {
    EvictEntries(p.lru);
    if p.free != [] { FreeFrameTaken(p); }
    if p.free == [] && EvictStep(p.lru).1.Some? { FrameEvicted(p); }
  }

  /** A fetch keeps the pool in order exactly when the id was handed out, or when it fails. */
  lemma FetchShapeIff(p: Pool, k: nat, id: PageId)
    requires Shape(p) && 0 <= id
    ensures Shape(FetchPage(p, k, id).0) <==> id < p.next || FetchPage(p, k, id).1.None?
  {
    TableIdsAllocated(p);
    if id in p.table {
      FetchResidentCorrect(p, k, id);
    } else if FindVictim(p).1.None? {
      NoVictimNoChange(p);
    } else if id < p.next {
      FetchMissCorrect(p, k, id);
    } else {
      VictimReady(p);
      var p' := FetchPage(p, k, id).0;
      assert id in p'.table && p'.next == p.next;
      if Shape(p') { TableIdsAllocated(p'); }
    }
  }

  // ------------------------------------------------------------ every step

  lemma StepKeepsLru(p: Pool, k: nat, op: PoolOp)
    requires 2 <= k && Shape(p) && LruOk(p.lru, k) && Possible(p, op)
    ensures LruOk(PoolStep(p, k, op).0.lru, k)
  {
    match op
    case New => NewKeepsLru(p, k);
    case Fetch(id) => FetchKeepsLru(p, k, id);
    case Unpin(id, dirty) => UnpinKeepsLru(p, k, id, dirty);
    case Delete(id) => DeleteKeepsLru(p, k, id);
    case FlushAll => FlushKeepsLru(p, |p.pages|);
    case _ =>
  }

  lemma NewKeepsLru(p: Pool, k: nat)
    requires 2 <= k && LruOk(p.lru, k)
    ensures LruOk(NewPage(p, k).0.lru, k)
  {
    LoadKeepsLru(p, k);
  }

  lemma FetchKeepsLru(p: Pool, k: nat, id: PageId)
    requires 2 <= k && LruOk(p.lru, k)
    ensures LruOk(FetchPage(p, k, id).0.lru, k)
  {
    if id in p.table && FrameOk(p, p.table[id]) {
      TouchOk(p.lru, k, p.table[id]);
    } else {
      LoadKeepsLru(p, k);
    }
  }

  lemma UnpinKeepsLru(p: Pool, k: nat, id: PageId, dirty: bool)
    requires LruOk(p.lru, k)
    ensures LruOk(UnpinPage(p, id, dirty).0.lru, k)
  {
    if id in p.table { ReleaseOk(p.lru, k, p.table[id]); }
  }

  lemma DeleteKeepsLru(p: Pool, k: nat, id: PageId)
    requires Shape(p) && LruOk(p.lru, k)
    ensures LruOk(DeletePage(p, k, id).0.lru, k)
  {
    if id in p.table {
      ResidentFrame(p, id);
      if p.pages[p.table[id]].pins == 0 { RemoveOk(p.lru, k, |p.pages|, p.table[id]); }
    }
  }

  lemma LoadKeepsLru(p: Pool, k: nat)
    requires 2 <= k && LruOk(p.lru, k)
    ensures LruOk(FindVictim(p).0.lru, k)
    ensures FindVictim(p).1.Some? ==> LruOk(Touch(FindVictim(p).0.lru, k, FindVictim(p).1.value), k)
  {
    VictimLru(p);
    EvictOk(p.lru, k);
    if FindVictim(p).1.Some? {
      TouchOk(FindVictim(p).0.lru, k, FindVictim(p).1.value);
    }
  }

  lemma VictimLru(p: Pool)
    ensures FindVictim(p).0.lru == if p.free != [] then p.lru else EvictStep(p.lru).0
  {
  }

  lemma {:induction false} FlushKeepsLru(p: Pool, n: nat)
    requires n <= |p.pages|
    ensures FlushFrames(p, n).lru == p.lru
  {
    if n > 0 { FlushKeepsLru(p, n - 1); }
  }

  lemma StepKeepsShape(p: Pool, k: nat, op: PoolOp)
    requires Shape(p) && Possible(p, op)
    ensures Shape(PoolStep(p, k, op).0)
  {
    match op
    case New => NewShape(p, k);
    case Fetch(id) => FetchShapeIff(p, k, id);
    case Write(id, data) => UserWriteCorrect(p, id, data);
    case Unpin(id, dirty) => UnpinPageCorrect(p, id, dirty);
    case Flush(id) => if id in p.table { WriteBackCorrect(p, id); }
    case FlushAll => FlushFramesCorrect(p, |p.pages|);
    case Delete(id) => DeletePageCorrect(p, k, id);
  }

  lemma StepKeepsInv(p: Pool, k: nat, op: PoolOp)
    requires Inv(p, k) && Possible(p, op)
    ensures Inv(PoolStep(p, k, op).0, k)
  {
    StepKeepsLru(p, k, op);
    StepKeepsShape(p, k, op);
  }

  /** One operation of pool and disk is one operation of the plain map. */
  lemma StepRefinesMap(p: Pool, k: nat, op: PoolOp)
    requires Inv(p, k) && NothingUnsaved(p) && Allowed(p, op)
    ensures Inv(PoolStep(p, k, op).0, k) && NothingUnsaved(PoolStep(p, k, op).0)
    ensures Contents(PoolStep(p, k, op).0) == MapStep(Contents(p), op, PoolStep(p, k, op).1)
  {
    StepKeepsLru(p, k, op);
    StepKeepsContents(p, k, op);
  }

  lemma StepKeepsContents(p: Pool, k: nat, op: PoolOp)
    requires Inv(p, k) && NothingUnsaved(p) && Allowed(p, op)
    ensures Shape(PoolStep(p, k, op).0) && NothingUnsaved(PoolStep(p, k, op).0)
    ensures Contents(PoolStep(p, k, op).0) == MapStep(Contents(p), op, PoolStep(p, k, op).1)
  {
    ContentsSize(p);
    match op
    case New => NewPageCorrect(p, k);
    case Fetch(id) => FetchPageCorrect(p, k, id);
    case Write(id, data) => UserWriteCorrect(p, id, data);
    case Unpin(id, dirty) => UnpinPageCorrect(p, id, dirty);
    case Flush(id) => if id in p.table { WriteBackCorrect(p, id); }
    case FlushAll => FlushFramesCorrect(p, |p.pages|);
    case Delete(id) => DeletePageCorrect(p, k, id);
  }

  ghost predicate InSameFrame(p: Pool, p': Pool, id: PageId) {
    && id in p.table && FrameOk(p, p.table[id])
    && id in p'.table && p'.table[id] == p.table[id] && FrameOk(p', p'.table[id]) && p'.pages[p'.table[id]].id == id
  }

  ghost predicate StillHeld(p: Pool, p': Pool, id: PageId) {
    InSameFrame(p, p', id) && p.pages[p.table[id]].pins <= p'.pages[p'.table[id]].pins
  }

  /** The times an operation unpins page `id`. */
  function Unpins(op: PoolOp, id: PageId): nat {
    if op.Unpin? && op.id == id then 1 else 0
  }

  /** A page stays in its frame as long as it is pinned: only its own unpins lower the count, each by one. */
  lemma PinnedPageStays(p: Pool, k: nat, op: PoolOp, id: PageId)
    requires Inv(p, k) && Possible(p, op) && HeldPinned(p, id)
    ensures var p' := PoolStep(p, k, op).0;
            && InSameFrame(p, p', id)
            && p.pages[p.table[id]].pins <= p'.pages[p'.table[id]].pins + Unpins(op, id)
  {
    ResidentFrame(p, id);
    match op
    case New => PinnedThroughNew(p, k, id);
    case Fetch(i) => PinnedThroughFetch(p, k, i, id);
    case Write(i, data) => UserWriteCorrect(p, i, data);
    case Unpin(i, dirty) => UnpinPageCorrect(p, i, dirty);
    case Flush(i) => if i in p.table { WriteBackCorrect(p, i); }
    case FlushAll => PinnedThroughFlush(p, id);
    case Delete(i) => PinnedThroughDelete(p, k, i, id);
  }

  lemma PinnedThroughFlush(p: Pool, id: PageId)
    requires Shape(p) && HeldPinned(p, id)
    ensures StillHeld(p, FlushFrames(p, |p.pages|), id)
  {
    ResidentFrame(p, id);
    FlushFramesCorrect(p, |p.pages|);
  }

  lemma PinnedThroughDelete(p: Pool, k: nat, i: PageId, id: PageId)
    requires Shape(p) && HeldPinned(p, id)
    ensures StillHeld(p, DeletePage(p, k, i).0, id)
  {
    ResidentFrame(p, id);
    DeletePageCorrect(p, k, i);
    if i in p.table { ResidentFrame(p, i); }
  }

  lemma PinnedThroughNew(p: Pool, k: nat, id: PageId)
    requires Inv(p, k) && HeldPinned(p, id)
    ensures StillHeld(p, NewPage(p, k).0, id)
  {
    ResidentFrame(p, id);
    NewPageCorrect(p, k);
    PinnedNotDelivered(p, NewPage(p, k).0, p.next, id);
  }

  lemma PinnedThroughFetch(p: Pool, k: nat, i: PageId, id: PageId)
    requires Inv(p, k) && 0 <= i < p.next && HeldPinned(p, id)
    ensures StillHeld(p, FetchPage(p, k, i).0, id)
  {
    ResidentFrame(p, id);
    FetchPageCorrect(p, k, i);
    if i != id {
      PinnedNotDelivered(p, FetchPage(p, k, i).0, i, id);
    }
  }

  lemma PinnedNotDelivered(p: Pool, p': Pool, other: PageId, id: PageId)
    requires Shape(p) && Shape(p') && HeldPinned(p, id) && other != id
    requires p' == p || exists f :: Delivered(p, p', other, f)
    ensures id in p'.table && p'.table[id] == p.table[id] && FrameOk(p', p.table[id])
    ensures p'.pages[p.table[id]] == p.pages[p.table[id]]
  {
    ResidentFrame(p, id);
    if other in p.table { ResidentFrame(p, other); }
  }

  // --------------------------------------------------------- conservation

  /** The frames that hold a pinned page, among the first n. */
  ghost function PinnedFrames(p: Pool, n: nat): set<Frame>
    requires n <= |p.pages|
  {
    set f | 0 <= f < n && 0 < p.pages[f].pins
  }

  ghost function EvictableFrames(p: Pool): set<Frame> {
    set f | f in p.lru.entries && p.lru.entries[f].evictable
  }

  /** Free, evictable and pinned frames part the pool, and the counters add up to its size. */
  lemma FramesAreConserved(p: Pool, k: nat)
    requires Inv(p, k)
    ensures forall f :: FrameOk(p, f) ==>
              (if f in p.free then f !in EvictableFrames(p) && f !in PinnedFrames(p, |p.pages|)
               else f in EvictableFrames(p) <==> f !in PinnedFrames(p, |p.pages|))
    ensures |p.free| + p.lru.size + |PinnedFrames(p, |p.pages|)| == |p.pages|
  {
    forall f | FrameOk(p, f)
      ensures if f in p.free then f !in EvictableFrames(p) && f !in PinnedFrames(p, |p.pages|)
              else f in EvictableFrames(p) <==> f !in PinnedFrames(p, |p.pages|)
    {
      assert FrameInv(p, f);
    }
    assert forall f :: f in p.free ==> FrameOk(p, f);
    assert forall f :: f in p.lru.entries ==> FrameOk(p, f);
    var free := set f | f in p.free;
    ThreeParts(|p.pages|, free, EvictableFrames(p), PinnedFrames(p, |p.pages|));
    DistinctSize(p.free);
    EvictableCount(p.lru, k);
  }

  /** Three sets that part the numbers below n have n elements together. */
  lemma ThreeParts(n: nat, free: set<Frame>, evictable: set<Frame>, pinned: set<Frame>)
    requires forall f :: 0 <= f < n ==>
               if f in free then f !in evictable && f !in pinned else f in evictable <==> f !in pinned
    requires forall f :: f in free || f in evictable || f in pinned ==> 0 <= f < n
    ensures |free| + |evictable| + |pinned| == n
  {
    assert free + evictable + pinned == Ids(n);
    assert free !! evictable && (free + evictable) !! pinned;
  }

  lemma {:induction false} DistinctSize(s: seq<Frame>)
    requires Distinct(s)
    ensures |set f | f in s| == |s|
  {
    if s != [] {
      var n := |s| - 1;
      DistinctSize(s[..n]);
      assert (set f | f in s) == (set f | f in s[..n]) + {s[n]};
      assert s[n] !in s[..n];
    }
  }

  lemma EvictableCount(lru: Lru, k: nat)
    requires LruOk(lru, k)
    ensures lru.size == |set f | f in lru.entries && lru.entries[f].evictable|
  {
    var h :| Matches(lru, h, k);
    var s := set f | f in lru.entries && lru.entries[f].evictable;
    forall f ensures f in h.evictable <==> f in s {
      assert f in h.evictable ==> f in h.log.Keys;
    }
    assert h.evictable == s;
  }

  // ----------------------------------------------------------------- runs

  function Fresh(n: nat): (p: Pool) {
    Pool(seq(n, _ => BLANK), seq(n, i => i), map[], EMPTY, map[], 0)
  }

  lemma FreshInv(n: nat, k: nat)
    requires 2 <= k
    ensures Inv(Fresh(n), k) && NothingUnsaved(Fresh(n)) && Contents(Fresh(n)) == map[]
  {
    var p := Fresh(n);
    assert Matches(EMPTY, NO_HISTORY, k) by {
      assert EMPTY.entries.Keys == NO_HISTORY.log.Keys;
    }
    forall f | FrameOk(p, f) ensures FrameInv(p, f) {
      assert p.free[f] == f;
    }
  }

  /** The operations can happen one after another. */
  ghost predicate LegalOps(n: nat, k: nat, ops: seq<PoolOp>)
    decreases |ops|, 0
  {
    ops == [] ||
    (LegalOps(n, k, ops[..|ops| - 1]) && Possible(PoolAfter(n, k, ops[..|ops| - 1]), ops[|ops| - 1]))
  }

  ghost function PoolAfter(n: nat, k: nat, ops: seq<PoolOp>): Pool
    requires LegalOps(n, k, ops)
    decreases |ops|, 1
  {
    if ops == [] then Fresh(n) else PoolStep(PoolAfter(n, k, ops[..|ops| - 1]), k, ops[|ops| - 1]).0
  }

  /** The plain map after the same operations. */
  ghost function MapAfter(n: nat, k: nat, ops: seq<PoolOp>): map<PageId, Data>
    requires LegalOps(n, k, ops)
    decreases |ops|
  {
    if ops == [] then map[]
    else
      MapStep(MapAfter(n, k, ops[..|ops| - 1]), ops[|ops| - 1],
              PoolStep(PoolAfter(n, k, ops[..|ops| - 1]), k, ops[|ops| - 1]).1)
  }

  lemma {:induction false} RunKeepsPoolInv(n: nat, k: nat, ops: seq<PoolOp>)
    requires 2 <= k && LegalOps(n, k, ops)
    ensures Inv(PoolAfter(n, k, ops), k)
    decreases |ops|
  {
    if ops == [] {
      FreshInv(n, k);
    } else {
      RunKeepsPoolInv(n, k, ops[..|ops| - 1]);
      StepKeepsInv(PoolAfter(n, k, ops[..|ops| - 1]), k, ops[|ops| - 1]);
    }
  }

  lemma {:induction false} LegalOpsPrefix(n: nat, k: nat, ops: seq<PoolOp>, i: nat)
    requires LegalOps(n, k, ops) && i <= |ops|
    ensures LegalOps(n, k, ops[..i])
    decreases |ops|
  {
    if i == |ops| {
      assert ops[..i] == ops;
    } else {
      assert ops[..|ops| - 1][..i] == ops[..i];
      LegalOpsPrefix(n, k, ops[..|ops| - 1], i);
    }
  }

  /** The pool before operation i of a run. */
  ghost function PoolAt(n: nat, k: nat, ops: seq<PoolOp>, i: nat): Pool
    requires LegalOps(n, k, ops) && i <= |ops|
  {
    LegalOpsPrefix(n, k, ops, i);
    PoolAfter(n, k, ops[..i])
  }

  lemma PoolAtNext(n: nat, k: nat, ops: seq<PoolOp>, i: nat)
    requires 2 <= k && LegalOps(n, k, ops) && i < |ops|
    ensures Inv(PoolAt(n, k, ops, i), k) && Possible(PoolAt(n, k, ops, i), ops[i])
    ensures PoolAt(n, k, ops, i + 1) == PoolStep(PoolAt(n, k, ops, i), k, ops[i]).0
  {
    LegalOpsPrefix(n, k, ops, i + 1);
    assert ops[..i + 1][..i] == ops[..i];
    RunKeepsPoolInv(n, k, ops[..i]);
  }

  /** How often operations i to j - 1 of a run unpin page `id`. */
  function UnpinsBetween(ops: seq<PoolOp>, i: nat, j: nat, id: PageId): nat
    requires i <= j <= |ops|
    decreases j
  {
    if i == j then 0 else UnpinsBetween(ops, i, j - 1, id) + Unpins(ops[j - 1], id)
  }

  ghost function PinsOf(p: Pool, id: PageId): nat
    requires HeldPinned(p, id)
  {
    p.pages[p.table[id]].pins
  }

  /**
   Over every run, careful or not: a page that is pinned at some moment stays in
   its frame, pinned, through every continuation that unpins it fewer times than
   its count.
   */
  lemma {:induction false} PinsOutlastUnpins(n: nat, k: nat, ops: seq<PoolOp>, i: nat, j: nat, id: PageId)
    requires 2 <= k && LegalOps(n, k, ops) && i <= j <= |ops| && HeldPinned(PoolAt(n, k, ops, i), id)
    requires UnpinsBetween(ops, i, j, id) < PinsOf(PoolAt(n, k, ops, i), id)
    ensures HeldPinned(PoolAt(n, k, ops, j), id) && InSameFrame(PoolAt(n, k, ops, i), PoolAt(n, k, ops, j), id)
    ensures PinsOf(PoolAt(n, k, ops, i), id) <= PinsOf(PoolAt(n, k, ops, j), id) + UnpinsBetween(ops, i, j, id)
    decreases j
  {
    if i == j {
      LegalOpsPrefix(n, k, ops, i);
      RunKeepsPoolInv(n, k, ops[..i]);
      ResidentFrame(PoolAt(n, k, ops, i), id);
    } else {
      PinsOutlastUnpins(n, k, ops, i, j - 1, id);
      PoolAtNext(n, k, ops, j - 1);
      PinnedPageStays(PoolAt(n, k, ops, j - 1), k, ops[j - 1], id);
    }
  }

  /** A page keeps its frame up to and including the unpin that takes its count to zero. */
  lemma {:induction false} FrameKeptUntilLastUnpin(n: nat, k: nat, ops: seq<PoolOp>, i: nat, j: nat, id: PageId)
    requires 2 <= k && LegalOps(n, k, ops) && i < j <= |ops|
    requires forall m :: i <= m < j ==> HeldPinned(PoolAt(n, k, ops, m), id)
    ensures InSameFrame(PoolAt(n, k, ops, i), PoolAt(n, k, ops, j), id)
    decreases j
  {
    if i < j - 1 {
      FrameKeptUntilLastUnpin(n, k, ops, i, j - 1, id);
    }
    PoolAtNext(n, k, ops, j - 1);
    PinnedPageStays(PoolAt(n, k, ops, j - 1), k, ops[j - 1], id);
  }

  // ------------------------------------------------- ids never handed out

  /** Two frames hold page `id`. */
  ghost predicate TwoCopies(p: Pool, id: PageId) {
    exists f, g :: FrameOk(p, f) && FrameOk(p, g) && f != g && p.pages[f].id == id && p.pages[g].id == id
  }

  /** A fetch of an id that was never handed out is granted, and the next new page gets that id in a second frame. */
  lemma EarlyFetchDuplicates(k: nat)
    ensures FetchPage(Fresh(2), k, 0).1.Some? && !Shape(FetchPage(Fresh(2), k, 0).0)
    ensures NewPage(FetchPage(Fresh(2), k, 0).0, k).1.Some?
    ensures TwoCopies(NewPage(FetchPage(Fresh(2), k, 0).0, k).0, 0)
  {
    var p := FetchPage(Fresh(2), k, 0).0;
    assert Fresh(2).free == [0, 1] && [0, 1][..1] == [0];
    assert p.free == [0] && p.pages[1].id == 0 && 0 in p.table && p.next == 0;
    if Shape(p) { TableIdsAllocated(p); }
    var p' := NewPage(p, k).0;
    assert p'.pages[0].id == 0 && p'.pages[1].id == 0;
  }

  /** The users respect their obligations all along. */
  ghost predicate Careful(n: nat, k: nat, ops: seq<PoolOp>)
    requires LegalOps(n, k, ops)
  {
    ops == [] ||
    (Careful(n, k, ops[..|ops| - 1]) && Allowed(PoolAfter(n, k, ops[..|ops| - 1]), ops[|ops| - 1]))
  }

  /**
   Over every careful run, whatever was evicted in between, the pool with its disk
   is the plain map; in particular a fetch presents the bytes last written.
   */
  lemma {:induction false} PoolRefinesMap(n: nat, k: nat, ops: seq<PoolOp>)
    requires 2 <= k && LegalOps(n, k, ops) && Careful(n, k, ops)
    ensures Inv(PoolAfter(n, k, ops), k) && NothingUnsaved(PoolAfter(n, k, ops))
    ensures Contents(PoolAfter(n, k, ops)) == MapAfter(n, k, ops)
    decreases |ops|
  {
    if ops == [] {
      FreshInv(n, k);
    } else {
      PoolRefinesMap(n, k, ops[..|ops| - 1]);
      StepRefinesMap(PoolAfter(n, k, ops[..|ops| - 1]), k, ops[|ops| - 1]);
    }
  }

  lemma FetchReadsLastWrite(n: nat, k: nat, ops: seq<PoolOp>, id: PageId)
    requires 2 <= k && LegalOps(n, k, ops) && Careful(n, k, ops) && id in MapAfter(n, k, ops)
    ensures var p := PoolAfter(n, k, ops);
            && Allowed(p, Fetch(id))
            && (FetchPage(p, k, id).1.None? <==> id !in p.table && AllPinned(p))
            && (FetchPage(p, k, id).1.Some? ==>
                  && FrameOk(FetchPage(p, k, id).0, FetchPage(p, k, id).1.value)
                  && FetchPage(p, k, id).0.pages[FetchPage(p, k, id).1.value].data == MapAfter(n, k, ops)[id])
  {
    PoolRefinesMap(n, k, ops);
    FetchPageCorrect(PoolAfter(n, k, ops), k, id);
  }
}
