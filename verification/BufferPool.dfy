/**
 The buffer pool manager object (src/buffer/buffer_pool_manager_instance.cpp),
 built on the contracts of the hash table and the replacer. Every method is
 proved to take the step of the pool model.
 */
module BufferPool {
  import opened Collections
  import opened LruK
  import opened PoolModel
  import opened PoolRuns
  import opened ExtendibleHash

  /** std::hash on page ids: the id itself, taken modulo the word size when negative. */
  function PageHash(id: PageId): nat {
    if 0 <= id then id else (0x1_0000_0000_0000_0000 + id) % 0x1_0000_0000_0000_0000
  }

  const BUCKET_SIZE := 4

  /** The page table only ever inserts ids it does not hold, so its split loop ends. */
  lemma PageTableHasRoom(table: map<PageId, Frame>, id: PageId)
    requires 0 <= id && id !in table && forall i :: i in table ==> 0 <= i
    ensures exists d :: Sparse(table, PageHash, BUCKET_SIZE, id, d)
  {
    FreshHashIsSparse(table, PageHash, BUCKET_SIZE, id);
  }

  class BufferPoolManagerInstance {
    const pages: array<Page>
    const pageTable: ExtendibleHashTable<PageId, Frame>
    const replacer: LRUKReplacer
    var nextPageId: PageId
    var freeList: seq<Frame>
    /** The pages the disk manager has written. */
    var disk: map<PageId, Data>

    ghost function View(): Pool
      reads this, pages, pageTable, replacer
    {
      Pool(pages[..], freeList, pageTable.contents, replacer.View(), disk, nextPageId)
    }

    /** The page table is in order. */
    ghost predicate TableOk()
      reads this, pageTable, pageTable.dir
    {
      pageTable.Valid() && pageTable.bucketSize == BUCKET_SIZE && pageTable.hash == PageHash
    }

    ghost predicate Valid()
      reads this, pages, pageTable, pageTable.dir, replacer
    {
      TableOk() && replacer.replacerSize == pages.Length && Shape(View())
    }

    constructor (poolSize: nat, replacerK: nat)
      requires 2 <= replacerK
      ensures Valid() && View() == Fresh(poolSize) && replacer.k == replacerK
      ensures fresh(pages) && fresh(pageTable) && fresh(pageTable.dir) && fresh(replacer)
    {
      pages := new Page[poolSize](_ => BLANK);
      pageTable := new ExtendibleHashTable(BUCKET_SIZE, PageHash);
      replacer := new LRUKReplacer(poolSize, replacerK);
      freeList := seq(poolSize, i => i);
      nextPageId, disk := 0, map[];
      new;
      FreshInv(poolSize, replacerK);
      assert pages[..] == Fresh(poolSize).pages;
    }

    /** `disk_manager_->WritePage` followed by clearing the dirty flag. */
    method WriteBackFrame(f: Frame)
      requires 0 <= f < pages.Length
      modifies this`disk, pages
      ensures View() == WriteBack(old(View()), f)
    {
      disk := disk[pages[f].id := pages[f].data];
      pages[f] := pages[f].(dirty := false);
    }

    method RetireFrame(f: Frame)
      requires TableOk() && 0 <= f < pages.Length
      modifies this`disk, pages, pageTable`contents, pageTable.dir
      ensures TableOk() && View() == Retire(old(View()), f)
      ensures pageTable.dir == old(pageTable.dir)
    {
      var id := pages[f].id;
      if pages[f].dirty {
        WriteBackFrame(f);
      }
      assert pageTable.dir[pageTable.IndexOf(id)] in pageTable.dir;
      var _ := pageTable.Remove(id);
    }

    method EvictVictim() returns (v: Option<Frame>)
      requires TableOk() && freeList == []
      requires EvictStep(replacer.View()).1.Some? ==> 0 <= EvictStep(replacer.View()).1.value < pages.Length
      modifies this`disk, pages, pageTable`contents, pageTable.dir, replacer
      ensures TableOk()
      ensures (View(), v) == FindVictim(old(View()))
      ensures pageTable.dir == old(pageTable.dir)
    {
      v := replacer.Evict();
      if v.Some? {
        RetireFrame(v.value);
      }
    }

    /** `FindVictim`: the free list first, then the replacer. */
    method TakeVictim() returns (v: Option<Frame>)
      requires TableOk() && VictimInRange(View())
      modifies this`freeList, this`disk, pages, pageTable`contents, pageTable.dir, replacer
      ensures TableOk()
      ensures (View(), v) == FindVictim(old(View()))
      ensures pageTable.dir == old(pageTable.dir)
    {
      if freeList != [] {
        v := Some(freeList[|freeList| - 1]);
        freeList := freeList[..|freeList| - 1];
      } else {
        v := EvictVictim();
      }
    }

    /** `RecordAccess` and `SetEvictable(false)` on a frame. */
    method TouchFrame(f: Frame)
      requires 0 <= f < pages.Length && replacer.replacerSize == pages.Length
      requires forall g :: g in replacer.entries ==> 1 <= replacer.entries[g].hits
      modifies replacer
      ensures View() == old(View()).(lru := Touch(old(View()).lru, replacer.k, f))
    {
      var _ := replacer.RecordAccess(f);
      var _ := replacer.SetEvictable(f, false);
    }

    /** Fill a victim frame with page `id`, pin it and enter it into the page table. */
    method InstallPage(f: Frame, id: PageId, data: Data)
      requires TableOk() && replacer.replacerSize == pages.Length && 0 <= f < pages.Length
      requires forall g :: g in replacer.entries ==> 1 <= replacer.entries[g].hits
      requires 0 <= id && id !in pageTable.contents && forall i :: i in pageTable.contents ==> 0 <= i
      modifies pages, replacer, pageTable, pageTable.dir
      ensures TableOk() && View() == Install(old(View()), replacer.k, f, id, data)
      ensures forall b :: b in pageTable.dir ==> b in old(pageTable.dir) || fresh(b)
    {
      pages[f] := Page(id, 1, false, data);
      TouchFrame(f);
      PageTableHasRoom(pageTable.contents, id);
      pageTable.Insert(id, f);
    }

    /** Both `NewPgImp` and a missing `FetchPgImp`: take a victim frame and fill it with page `id`. */
    method LoadPage(id: PageId, fromDisk: bool) returns (v: Option<Frame>)
      requires TableOk() && replacer.replacerSize == pages.Length && LoadReady(View(), id)
      modifies this`freeList, this`disk, pages, pageTable, pageTable.dir, replacer
      ensures TableOk() && v == FindVictim(old(View())).1
      ensures v.None? ==> View() == FindVictim(old(View())).0
      ensures v.Some? ==>
                && FrameOk(FindVictim(old(View())).0, v.value)
                && View() == Install(FindVictim(old(View())).0, replacer.k, v.value, id,
                                     if fromDisk then DiskRead(FindVictim(old(View())).0.disk, id) else ZERO_PAGE)
      ensures forall b :: b in pageTable.dir ==> b in old(pageTable.dir) || fresh(b)
    {
      v := TakeVictim();
      if v.Some? {
        InstallPage(v.value, id, if fromDisk then DiskRead(disk, id) else ZERO_PAGE);
      }
    }

    method NewPgStep() returns (v: Option<Frame>)
      requires TableOk() && replacer.replacerSize == pages.Length && LoadReady(View(), nextPageId)
      modifies this, pages, pageTable, pageTable.dir, replacer
      ensures TableOk() && (View(), v) == NewPage(old(View()), replacer.k)
      ensures forall b :: b in pageTable.dir ==> b in old(pageTable.dir) || fresh(b)
    {
      v := LoadPage(nextPageId, false);
      ghost var loaded := View();
      if v.Some? {
        nextPageId := nextPageId + 1;
        assert View() == loaded.(next := nextPageId);
      }
    }

    /** `NewPgImp`: the new page's id is the old value of nextPageId. */
    method NewPg() returns (v: Option<Frame>)
      requires Valid()
      modifies this, pages, pageTable, pageTable.dir, replacer
      ensures Valid() && (View(), v) == NewPage(old(View()), replacer.k)
      ensures forall b :: b in pageTable.dir ==> b in old(pageTable.dir) || fresh(b)
    {
      NewShape(View(), replacer.k);
      NextIdIsNew(View());
      ReadyToLoad(View(), nextPageId);
      v := NewPgStep();
    }

    /** Pin a resident page once more. */
    method PinAgain(f: Frame)
      requires 0 <= f < pages.Length && replacer.replacerSize == pages.Length
      requires forall g :: g in replacer.entries ==> 1 <= replacer.entries[g].hits
      modifies pages, replacer
      ensures View() == old(View()).(pages := old(pages[..])[f := old(pages[f]).(pins := old(pages[f]).pins + 1)],
                                     lru := Touch(old(View()).lru, replacer.k, f))
    {
      TouchFrame(f);
      pages[f] := pages[f].(pins := pages[f].pins + 1);
    }

    method FetchPgStep(id: PageId) returns (v: Option<Frame>)
      requires TableOk() && replacer.replacerSize == pages.Length
      requires id in pageTable.contents ==> 0 <= pageTable.contents[id] < pages.Length
      requires id !in pageTable.contents ==> LoadReady(View(), id)
      requires forall g :: g in replacer.entries ==> 1 <= replacer.entries[g].hits
      modifies this`freeList, this`disk, pages, pageTable, pageTable.dir, replacer
      ensures TableOk() && (View(), v) == FetchPage(old(View()), replacer.k, id)
      ensures forall b :: b in pageTable.dir ==> b in old(pageTable.dir) || fresh(b)
    {
      var found := pageTable.Find(id);
      if found.Some? {
        PinAgain(found.value);
        return found;
      }
      v := LoadPage(id, true);
    }

    method FetchPg(id: PageId) returns (v: Option<Frame>)
      requires Valid() && 0 <= id
      modifies this, pages, pageTable, pageTable.dir, replacer
      ensures (View(), v) == FetchPage(old(View()), replacer.k, id)
      ensures TableOk() && (Valid() <==> id < old(nextPageId) || v.None?)
      ensures forall b :: b in pageTable.dir ==> b in old(pageTable.dir) || fresh(b)
    {
      FetchShapeIff(View(), replacer.k, id);
      TrackedHits(View(), -1);
      if id in pageTable.contents { ResidentFrame(View(), id); } else { ReadyToLoad(View(), id); }
      v := FetchPgStep(id);
    }

    method UnpinPg(id: PageId, isDirty: bool) returns (ok: bool)
      requires Valid()
      modifies pages, replacer
      ensures Valid() && (View(), ok) == UnpinPage(old(View()), id, isDirty)
    {
      UnpinPageCorrect(View(), id, isDirty);
      if id in pageTable.contents { ResidentFrame(View(), id); }
      ok := UnpinPgStep(id, isDirty);
    }

    method UnpinPgStep(id: PageId, isDirty: bool) returns (ok: bool)
      requires TableOk() && replacer.replacerSize == pages.Length
      requires id in pageTable.contents ==> 0 <= pageTable.contents[id] < pages.Length
      modifies pages, replacer
      ensures (View(), ok) == UnpinPage(old(View()), id, isDirty)
    {
      var found := pageTable.Find(id);
      if found.None? {
        return false;
      }
      var f := found.value;
      if pages[f].pins == 0 {
        return false;
      }
      pages[f] := pages[f].(pins := pages[f].pins - 1);
      if pages[f].pins == 0 {
        var _ := replacer.SetEvictable(f, true);
      }
      if isDirty {
        pages[f] := pages[f].(dirty := true);
      }
      assert pages[..] == old(pages[..])[f := pages[f]];
      return true;
    }

    method FlushPg(id: PageId) returns (ok: bool)
      requires Valid()
      modifies this`disk, pages
      ensures Valid() && (View(), ok) == FlushPage(old(View()), id)
    {
      if id in pageTable.contents { WriteBackCorrect(View(), id); }
      var found := pageTable.Find(id);
      if found.None? {
        return false;
      }
      WriteBackFrame(found.value);
      return true;
    }

    method FlushAllPgs()
      requires Valid()
      modifies this`disk, pages
      ensures Valid() && View() == FlushFrames(old(View()), pages.Length)
    {
      FlushFramesCorrect(View(), pages.Length);
      ghost var p := View();
      var i := 0;
      while i < pages.Length
        invariant 0 <= i <= pages.Length && View() == FlushFrames(p, i)
      {
        if pages[i].id != INVALID_PAGE_ID {
          WriteBackFrame(i);
        }
        i := i + 1;
      }
    }

    method DeletePg(id: PageId) returns (ok: bool)
      requires Valid()
      modifies this`freeList, this`disk, pages, pageTable`contents, pageTable.dir, replacer
      ensures Valid() && (View(), ok) == DeletePage(old(View()), replacer.k, id)
      ensures pageTable.dir == old(pageTable.dir)
    {
      DeletePageCorrect(View(), replacer.k, id);
      if id in pageTable.contents { ResidentFrame(View(), id); }
      ok := DeletePgStep(id);
    }

    method DeletePgStep(id: PageId) returns (ok: bool)
      requires TableOk() && replacer.replacerSize == pages.Length
      requires id in pageTable.contents ==>
                 0 <= pageTable.contents[id] < pages.Length && pages[pageTable.contents[id]].id == id
      modifies this`freeList, this`disk, pages, pageTable`contents, pageTable.dir, replacer
      ensures TableOk() && (View(), ok) == DeletePage(old(View()), replacer.k, id)
      ensures pageTable.dir == old(pageTable.dir)
    {
      var found := pageTable.Find(id);
      if found.None? {
        return true;
      }
      var f := found.value;
      if pages[f].pins != 0 {
        return false;
      }
      RetireFrame(f);
      FreeFrame(f);
      return true;
    }

    /** Stop tracking the frame, blank it and put it on the free list. */
    method FreeFrame(f: Frame)
      requires 0 <= f < pages.Length && replacer.replacerSize == pages.Length
      modifies this`freeList, pages, replacer
      ensures View() == old(View()).(pages := old(pages[..])[f := BLANK], free := old(freeList) + [f],
                                     lru := Step(old(View()).lru, replacer.k, pages.Length, Op.Remove(f)).0)
    {
      var _ := replacer.Remove(f);
      freeList := freeList + [f];
      pages[f] := BLANK;
    }

    /** A user writes through the page pointer it holds. */
    method WriteThrough(id: PageId, f: Frame, data: Data)
      requires Valid() && id in pageTable.contents && pageTable.contents[id] == f
      requires FrameOk(View(), f) && 0 < pages[f].pins
      modifies pages
      ensures Valid() && View() == UserWrite(old(View()), id, data)
    {
      PageChangedShape(View(), UserWrite(View(), id, data), id);
      pages[f] := pages[f].(data := data);
    }
  }

  /** An eviction can only name a frame of the pool. */
  ghost predicate VictimInRange(p: Pool) {
    p.free == [] && EvictStep(p.lru).1.Some? ==> FrameOk(p, EvictStep(p.lru).1.value)
  }

  /** What loading page `id` needs from the pool. */
  ghost predicate LoadReady(p: Pool, id: PageId) {
    var p1 := FindVictim(p).0;
    && VictimInRange(p)
    && |p1.pages| == |p.pages|
    && (FindVictim(p).1.Some? ==> FrameOk(p, FindVictim(p).1.value))
    && (forall g :: g in p1.lru.entries ==> 1 <= p1.lru.entries[g].hits)
    && 0 <= id && id !in p1.table && (forall i :: i in p1.table ==> 0 <= i)
  }

  lemma NextIdIsNew(p: Pool)
    requires Shape(p)
    ensures 0 <= p.next && p.next !in p.table
  {
    TableIdsAllocated(p);
  }

  lemma ReadyToLoad(p: Pool, id: PageId)
    requires Shape(p) && 0 <= id && id !in p.table
    ensures LoadReady(p, id)
  {
    TableIdsAllocated(p);
    EvictEntries(p.lru);
    if FindVictim(p).1.Some? {
      VictimReady(p);
      TrackedHits(FindVictim(p).0, FindVictim(p).1.value);
    } else {
      NoVictimNoChange(p);
      TrackedHits(p, -1);
    }
  }

  lemma TrackedHits(p: Pool, x: Frame)
    requires ShapeBut(p, x)
    ensures forall g :: g in p.lru.entries ==> 1 <= p.lru.entries[g].hits
  {
    forall g | g in p.lru.entries ensures 1 <= p.lru.entries[g].hits {
      assert FrameOk(p, g);
      assert FrameInv(p, g);
    }
  }
}
