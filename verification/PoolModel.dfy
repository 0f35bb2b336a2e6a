/**
 The buffer pool as a value (src/buffer/buffer_pool_manager_instance.cpp): its
 operations as functions, what every operation keeps, and the proof that pool
 and disk together behave like a plain map from page id to bytes.
 */
module PoolModel {
  import opened Collections
  import opened LruK

  type PageId = int
  type Data = seq<bv8>

  const INVALID_PAGE_ID: PageId := -1
  const PAGE_SIZE := 4096
  const ZERO_PAGE: Data := Zeros(PAGE_SIZE)

  function Zeros(n: nat): Data {
    if n == 0 then [] else [0] + Zeros(n - 1)
  }

  datatype Page = Page(id: PageId, pins: nat, dirty: bool, data: Data)

  const BLANK := Page(INVALID_PAGE_ID, 0, false, ZERO_PAGE)

  datatype Pool = Pool(pages: seq<Page>, free: seq<Frame>, table: map<PageId, Frame>, lru: Lru,
                       disk: map<PageId, Data>, next: PageId)

  /** A page that was never written reads back as zeros. */
  function DiskRead(disk: map<PageId, Data>, id: PageId): Data {
    if id in disk then disk[id] else ZERO_PAGE
  }

  // ----------------------------------------------------------- operations

  /** A page in frame range; frames outside never occur in reachable pools. */
  predicate FrameOk(p: Pool, f: Frame) {
    0 <= f < |p.pages|
  }

  function WriteBack(p: Pool, f: Frame): Pool
    requires FrameOk(p, f)
  {
    var pg := p.pages[f];
    p.(disk := p.disk[pg.id := pg.data], pages := p.pages[f := pg.(dirty := false)])
  }

  /** `FindVictim`: a free frame, else an evicted one whose page is written back if dirty. */
  function FindVictim(p: Pool): (Pool, Option<Frame>) {
    if p.free != [] then
      (p.(free := p.free[..|p.free| - 1]), Some(p.free[|p.free| - 1]))
    else
      var v := EvictStep(p.lru).1;
      var p1 := p.(lru := EvictStep(p.lru).0);
      if v.None? || !FrameOk(p, v.value) then (p1, None) else (Retire(p1, v.value), v)
  }

  /** Write the page of an evicted frame back if it is dirty and forget where it was. */
  function Retire(p: Pool, f: Frame): Pool
    requires FrameOk(p, f)
  {
    var p1 := if p.pages[f].dirty then WriteBack(p, f) else p;
    p1.(table := p1.table - {p.pages[f].id})
  }

  /** Record an access to frame f and pin it down in the replacer. */
  function Touch(lru: Lru, k: nat, f: Frame): Lru {
    SetEvictableStep(AccessStep(lru, k, f), f, false)
  }

  /** Put page `id` with the given bytes into frame f, pinned once. */
  function Install(p: Pool, k: nat, f: Frame, id: PageId, data: Data): Pool
    requires FrameOk(p, f)
  {
    p.(pages := p.pages[f := Page(id, 1, false, data)], lru := Touch(p.lru, k, f), table := p.table[id := f])
  }

  function NewPage(p: Pool, k: nat): (Pool, Option<Frame>) {
    var p1 := FindVictim(p).0;
    var v := FindVictim(p).1;
    if v.None? || !FrameOk(p1, v.value) then (p1, None)
    else (Install(p1, k, v.value, p.next, ZERO_PAGE).(next := p.next + 1), v)
  }

  function FetchPage(p: Pool, k: nat, id: PageId): (Pool, Option<Frame>) {
    if id in p.table && FrameOk(p, p.table[id]) then
      var f := p.table[id];
      (p.(pages := p.pages[f := p.pages[f].(pins := p.pages[f].pins + 1)], lru := Touch(p.lru, k, f)), Some(f))
    else
      var p1 := FindVictim(p).0;
      var v := FindVictim(p).1;
      if v.None? || !FrameOk(p1, v.value) then (p1, None)
      else (Install(p1, k, v.value, id, DiskRead(p1.disk, id)), v)
  }

  function UnpinPage(p: Pool, id: PageId, dirty: bool): (Pool, bool) {
    if id !in p.table || !FrameOk(p, p.table[id]) || p.pages[p.table[id]].pins == 0 then (p, false)
    else
      var f := p.table[id];
      var pg := p.pages[f];
      var pg' := pg.(pins := pg.pins - 1, dirty := pg.dirty || dirty);
      (p.(pages := p.pages[f := pg'], lru := if pg'.pins == 0 then SetEvictableStep(p.lru, f, true) else p.lru), true)
  }

  function FlushPage(p: Pool, id: PageId): (Pool, bool) {
    if id !in p.table || !FrameOk(p, p.table[id]) then (p, false) else (WriteBack(p, p.table[id]), true)
  }

  /** The loop of `FlushAllPgsImp` over the first n frames. */
  function FlushFrames(p: Pool, n: nat): (p': Pool)
    requires n <= |p.pages|
    ensures |p'.pages| == |p.pages|
  {
    if n == 0 then p
    else
      var p1 := FlushFrames(p, n - 1);
      if p1.pages[n - 1].id != INVALID_PAGE_ID then WriteBack(p1, n - 1) else p1
  }

  function DeletePage(p: Pool, k: nat, id: PageId): (Pool, bool) {
    if id !in p.table || !FrameOk(p, p.table[id]) then (p, true)
    else
      var f := p.table[id];
      if p.pages[f].pins != 0 then (p, false)
      else
        var p1 := if p.pages[f].dirty then WriteBack(p, f) else p;
        var lru := Step(p.lru, k, |p.pages|, Remove(f)).0;
        (p1.(pages := p1.pages[f := BLANK], table := p1.table - {id}, lru := lru, free := p1.free + [f]), true)
  }

  /** A user who holds the page pinned overwrites its bytes. */
  function UserWrite(p: Pool, id: PageId, data: Data): Pool
    requires id in p.table && FrameOk(p, p.table[id])
  {
    p.(pages := p.pages[p.table[id] := p.pages[p.table[id]].(data := data)])
  }

  // ------------------------------------------------------------ invariant

  ghost predicate Distinct(s: seq<Frame>) {
    forall i, j :: 0 <= i < j < |s| ==> s[i] != s[j]
  }

  /** The replacer is in a state some access history accounts for. */
  ghost predicate LruOk(lru: Lru, k: nat) {
    exists h :: Matches(lru, h, k)
  }

  /** A frame is free, or it holds a page, is tracked by the replacer, and is evictable exactly when unpinned. */
  ghost predicate FrameInv(p: Pool, f: Frame) {
    FrameOk(p, f) &&
    var pg := p.pages[f];
    if f in p.free then
      pg.id == INVALID_PAGE_ID && pg.pins == 0 && f !in p.lru.entries
    else
      && 0 <= pg.id < p.next && pg.id in p.table && p.table[pg.id] == f
      && f in p.lru.entries && 1 <= p.lru.entries[f].hits && (p.lru.entries[f].evictable <==> pg.pins == 0)
  }

  /** The structure of the pool for all frames except x, which holds nothing and is on its way to a new page. */
  ghost predicate ShapeBut(p: Pool, x: Frame) {
    && 0 <= p.next
    && Distinct(p.free)
    && (forall f :: f in p.free ==> FrameOk(p, f))
    && (forall f :: f in p.lru.entries ==> FrameOk(p, f))
    && (forall f :: FrameOk(p, f) && f != x ==> FrameInv(p, f))
    && (forall id :: id in p.table ==>
          FrameOk(p, p.table[id]) && p.table[id] !in p.free && p.pages[p.table[id]].id == id)
    && (forall id :: id in p.disk ==> 0 <= id < p.next)
    && (FrameOk(p, x) ==> x !in p.free && x !in p.lru.entries && forall id :: id in p.table ==> p.table[id] != x)
  }

  /** No frame is in transit. */
  ghost predicate Shape(p: Pool) {
    ShapeBut(p, -1)
  }

  ghost predicate Inv(p: Pool, k: nat) {
    2 <= k && Shape(p) && LruOk(p.lru, k)
  }

  /** What the outside world sees under a page id. */
  function Bytes(p: Pool, id: PageId): Data {
    if id in p.table && FrameOk(p, p.table[id]) then p.pages[p.table[id]].data else DiskRead(p.disk, id)
  }

  /** The pages handed out so far. */
  function Contents(p: Pool): map<PageId, Data> {
    map id | 0 <= id < p.next :: Bytes(p, id)
  }

  /** Every unpinned resident page is flagged dirty or equal to its copy on disk. */
  ghost predicate NothingUnsaved(p: Pool) {
    forall f :: FrameOk(p, f) && p.pages[f].id != INVALID_PAGE_ID && p.pages[f].pins == 0 ==>
      p.pages[f].dirty || p.pages[f].data == DiskRead(p.disk, p.pages[f].id)
  }

  ghost predicate AllPinned(p: Pool) {
    forall f :: FrameOk(p, f) ==> 0 < p.pages[f].pins
  }

  // ------------------------------------------------------ replacer facts

  lemma TouchOk(lru: Lru, k: nat, f: Frame)
    requires 2 <= k && LruOk(lru, k)
    ensures LruOk(Touch(lru, k, f), k)
  {
    var h :| Matches(lru, h, k);
    AccessMatches(lru, h, k, f);
    SetEvictableMatches(AccessStep(lru, k, f), AccessHistory(h, f), k, f, false);
  }

  lemma TouchEntries(lru: Lru, k: nat, f: Frame)
    ensures Touch(lru, k, f).entries.Keys == lru.entries.Keys + {f}
    ensures !Touch(lru, k, f).entries[f].evictable && 1 <= Touch(lru, k, f).entries[f].hits
    ensures f in lru.entries ==> lru.entries[f].hits <= Touch(lru, k, f).entries[f].hits
    ensures forall g :: g in lru.entries && g != f ==> Touch(lru, k, f).entries[g] == lru.entries[g]
  {
  }

  lemma ReleaseOk(lru: Lru, k: nat, f: Frame)
    requires LruOk(lru, k)
    ensures LruOk(SetEvictableStep(lru, f, true), k)
  {
    var h :| Matches(lru, h, k);
    SetEvictableMatches(lru, h, k, f, true);
  }

  lemma RemoveOk(lru: Lru, k: nat, n: nat, f: Frame)
    requires LruOk(lru, k) && f in lru.entries && lru.entries[f].evictable
    ensures LruOk(Step(lru, k, n, Remove(f)).0, k)
  {
    var h :| Matches(lru, h, k);
    RemoveTracked(lru, h, k, n, f);
  }

  lemma RemoveTracked(lru: Lru, h: History, k: nat, n: nat, f: Frame)
    requires Matches(lru, h, k) && f in lru.entries && lru.entries[f].evictable
    ensures Matches(Step(lru, k, n, Remove(f)).0, DropHistory(h, f), k)
  {
    assert f in h.evictable;
    DropMatches(lru, h, k, f);
  }

  lemma EvictOk(lru: Lru, k: nat)
    requires LruOk(lru, k)
    ensures LruOk(EvictStep(lru).0, k)
    ensures EvictStep(lru).1.None? ==> forall f :: f in lru.entries ==> !lru.entries[f].evictable
  {
    var h :| Matches(lru, h, k);
    EvictMatches(lru, h, k);
    if EvictStep(lru).1.None? {
      NothingEvictable(lru, h, k);
    }
  }

  lemma NothingEvictable(lru: Lru, h: History, k: nat)
    requires Matches(lru, h, k) && h.evictable == {}
    ensures forall f :: f in lru.entries ==> !lru.entries[f].evictable
  {
  }

  lemma EvictEntries(lru: Lru)
    ensures EvictStep(lru).1.None? ==> EvictStep(lru).0 == lru
    ensures EvictStep(lru).1.Some? ==>
              var f := EvictStep(lru).1.value;
              f in lru.entries && lru.entries[f].evictable && EvictStep(lru).0.entries == lru.entries - {f}
  {
  }

  // ----------------------------------------------------------- FindVictim

  /** The other frames keep their pages, their pins and their entry in the page table. */
  ghost predicate FramesKept(p: Pool, p': Pool, x: Frame) {
    && |p'.pages| == |p.pages|
    && (forall f :: FrameOk(p, f) && f != x ==> p'.pages[f] == p.pages[f])
    && (forall id :: id in p.table && p.table[id] != x ==> id in p'.table && p'.table[id] == p.table[id])
  }

  lemma FreeFrameTaken(p: Pool)
    requires Shape(p) && p.free != []
    ensures FindVictim(p).1.Some? && FrameOk(p, FindVictim(p).1.value)
    ensures ShapeBut(FindVictim(p).0, FindVictim(p).1.value)
    ensures FramesKept(p, FindVictim(p).0, FindVictim(p).1.value)
    ensures p.pages[FindVictim(p).1.value].pins == 0
  {
    var n := |p.free| - 1;
    var x := p.free[n];
    var rest := p.free[..n];
    assert p.free == rest + [x];
    assert x in p.free && FrameInv(p, x);
    assert x !in rest;
    var p' := FindVictim(p).0;
    assert forall f :: f in p'.free ==> f in p.free;
    assert forall f :: FrameOk(p', f) <==> FrameOk(p, f);
    forall f | FrameOk(p', f) && f != x ensures FrameInv(p', f) {
      assert FrameInv(p, f);
    }
  }

  lemma FrameEvicted(p: Pool)
    requires Shape(p) && p.free == [] && EvictStep(p.lru).1.Some?
    ensures FindVictim(p).1 == EvictStep(p.lru).1 && FrameOk(p, FindVictim(p).1.value)
    ensures ShapeBut(FindVictim(p).0, FindVictim(p).1.value)
    ensures FramesKept(p, FindVictim(p).0, FindVictim(p).1.value)
    ensures p.pages[FindVictim(p).1.value].pins == 0 && FrameInv(p, FindVictim(p).1.value)
    ensures FindVictim(p).0.table == p.table - {p.pages[FindVictim(p).1.value].id}
  {
    EvictEntries(p.lru);
    var x := EvictStep(p.lru).1.value;
    assert FrameInv(p, x);
    EvictedShape(p, x);
  }

  lemma EvictedShape(p: Pool, x: Frame)
    requires Shape(p) && p.free == [] && EvictStep(p.lru).1 == Some(x)
    requires FrameInv(p, x) && p.pages[x].pins == 0
    requires EvictStep(p.lru).0.entries == p.lru.entries - {x}
    ensures ShapeBut(FindVictim(p).0, x) && FramesKept(p, FindVictim(p).0, x)
  {
    var p' := FindVictim(p).0;
    assert p'.table == p.table - {p.pages[x].id};
    assert forall f :: FrameOk(p', f) <==> FrameOk(p, f);
    assert forall f :: FrameOk(p, f) && f != x ==> p'.pages[f] == p.pages[f];
    forall id | id in p'.table ensures p'.table[id] != x && p'.pages[p'.table[id]].id == id {
      assert p.pages[p.table[id]].id == id;
    }
    forall f | FrameOk(p', f) && f != x ensures FrameInv(p', f) {
      assert FrameInv(p, f);
      assert p'.pages[f].id != p.pages[x].id;
    }
  }

  /** What `FindVictim` leaves behind when it succeeds. */
  lemma VictimReady(p: Pool)
    requires Shape(p) && FindVictim(p).1.Some?
    ensures FrameOk(p, FindVictim(p).1.value) && p.pages[FindVictim(p).1.value].pins == 0
    ensures ShapeBut(FindVictim(p).0, FindVictim(p).1.value)
    ensures FramesKept(p, FindVictim(p).0, FindVictim(p).1.value)
    ensures FindVictim(p).0.next == p.next && FindVictim(p).0.table.Keys <= p.table.Keys
  {
    if p.free != [] {
      FreeFrameTaken(p);
    } else {
      FrameEvicted(p);
    }
  }

  /** `FindVictim` fails exactly when every frame is pinned, and then changes nothing. */
  lemma FindVictimFailsIff(p: Pool, k: nat)
    requires Shape(p) && LruOk(p.lru, k)
    ensures FindVictim(p).1.None? <==> AllPinned(p)
    ensures FindVictim(p).1.None? ==> FindVictim(p).0 == p
  {
    if p.free != [] {
      FreeFrameTaken(p);
      assert FrameOk(p, FindVictim(p).1.value);
    } else {
      EvictEntries(p.lru);
      EvictOk(p.lru, k);
      if EvictStep(p.lru).1.Some? {
        FrameEvicted(p);
        assert FrameOk(p, FindVictim(p).1.value);
      } else {
        AllPinnedIfNoneEvictable(p);
      }
    }
  }

  lemma AllPinnedIfNoneEvictable(p: Pool)
    requires Shape(p) && p.free == [] && forall f :: f in p.lru.entries ==> !p.lru.entries[f].evictable
    ensures AllPinned(p)
  {
    forall f | FrameOk(p, f) ensures 0 < p.pages[f].pins {
      assert FrameInv(p, f);
    }
  }

  /**
   Evicting keeps the bytes of every page exactly when the victim's page is
   flagged dirty or equal to its copy on disk.
   */
  lemma EvictionKeepsBytesIff(p: Pool)
    requires Shape(p) && p.free == [] && EvictStep(p.lru).1.Some?
    ensures FrameOk(p, EvictStep(p.lru).1.value)
    ensures (forall id :: 0 <= id < p.next ==> Bytes(FindVictim(p).0, id) == Bytes(p, id)) <==>
            (p.pages[EvictStep(p.lru).1.value].dirty ||
             p.pages[EvictStep(p.lru).1.value].data == DiskRead(p.disk, p.pages[EvictStep(p.lru).1.value].id))
  {
    FrameEvicted(p);
    var x := EvictStep(p.lru).1.value;
    var p' := FindVictim(p).0;
    var pg := p.pages[x];
    assert Bytes(p, pg.id) == pg.data && Bytes(p', pg.id) == DiskRead(p'.disk, pg.id);
    forall id | 0 <= id < p.next && id != pg.id ensures Bytes(p', id) == Bytes(p, id) {
      if id in p.table { assert p.pages[p.table[id]].id == id; }
    }
  }

  /** Outside frame x every unpinned page is flagged or equal to the given disk. */
  ghost predicate SavedBut(p: Pool, x: Frame, disk: map<PageId, Data>) {
    forall f :: FrameOk(p, f) && f != x && p.pages[f].id != INVALID_PAGE_ID && p.pages[f].pins == 0 ==>
      p.pages[f].dirty || p.pages[f].data == DiskRead(disk, p.pages[f].id)
  }

  lemma FindVictimKeepsBytes(p: Pool)
    requires Shape(p) && NothingUnsaved(p) && FindVictim(p).1.Some?
    ensures forall id :: 0 <= id < p.next ==> Bytes(FindVictim(p).0, id) == Bytes(p, id)
    ensures SavedBut(p, FindVictim(p).1.value, FindVictim(p).0.disk)
  {
    if p.free == [] {
      FrameEvicted(p);
      EvictionKeepsBytesIff(p);
      var x := EvictStep(p.lru).1.value;
      forall f | FrameOk(p, f) && f != x && p.pages[f].id != INVALID_PAGE_ID ensures p.pages[f].id != p.pages[x].id {
        assert FrameInv(p, f);
      }
    }
  }

  // ------------------------------------------------------- loading a page

  lemma PlacedShape(p: Pool, p': Pool, x: Frame, id: PageId, next: PageId, lru: Lru)
    requires ShapeBut(p, x) && FrameOk(p, x) && id !in p.table && 0 <= id < next && p.next <= next
    requires lru.entries.Keys == p.lru.entries.Keys + {x} && !lru.entries[x].evictable && 1 <= lru.entries[x].hits
    requires forall g :: g in p.lru.entries && g != x ==> lru.entries[g] == p.lru.entries[g]
    requires |p'.pages| == |p.pages| && p'.pages[x].id == id && p'.pages[x].pins == 1
    requires forall f :: FrameOk(p, f) && f != x ==> p'.pages[f] == p.pages[f]
    requires p'.table == p.table[id := x] && p'.free == p.free && p'.next == next && p'.disk == p.disk && p'.lru == lru
    ensures Shape(p')
  {
    assert forall f :: FrameOk(p', f) <==> FrameOk(p, f);
    forall f | FrameOk(p', f) ensures FrameInv(p', f) {
      if f != x { assert FrameInv(p, f); }
    }
    forall i | i in p'.table
      ensures FrameOk(p', p'.table[i]) && p'.table[i] !in p'.free && p'.pages[p'.table[i]].id == i
    {
      if i != id { assert p.pages[p.table[i]].id == i; }
    }
  }

  lemma InstallShape(p: Pool, k: nat, x: Frame, id: PageId, data: Data, next: PageId)
    requires ShapeBut(p, x) && FrameOk(p, x) && id !in p.table && 0 <= id < next && p.next <= next
    ensures Shape(Install(p, k, x, id, data).(next := next))
  {
    TouchEntries(p.lru, k, x);
    PlacedShape(p, Install(p, k, x, id, data).(next := next), x, id, next, Touch(p.lru, k, x));
  }

  lemma InstallKeepsBytes(p: Pool, k: nat, x: Frame, id: PageId, data: Data, other: PageId)
    requires ShapeBut(p, x) && FrameOk(p, x)
    ensures Bytes(Install(p, k, x, id, data), other) == if other == id then data else Bytes(p, other)
  {
  }

  lemma PinnedFrameIsSafe(p: Pool, p': Pool, x: Frame)
    requires SavedBut(p, x, p'.disk) && FramesKept(p, p', x)
    requires FrameOk(p', x) ==> 0 < p'.pages[x].pins
    ensures NothingUnsaved(p')
  {
  }

  lemma TableIdsAllocated(p: Pool)
    requires Shape(p)
    ensures forall id :: id in p.table ==> 0 <= id < p.next
  {
    forall id | id in p.table ensures 0 <= id < p.next {
      assert FrameInv(p, p.table[id]);
    }
  }

  /** What a caller of New or Fetch gets: page `id` pinned in frame f, every other frame as it was. */
  ghost predicate Delivered(p: Pool, p': Pool, id: PageId, f: Frame) {
    && id in p'.table && p'.table[id] == f
    && FrameOk(p', f) && 0 < p'.pages[f].pins
    && FramesKept(p, p', f)
    && if id in p.table then f == p.table[id] else p.pages[f].pins == 0
  }

  /** The pool after a victim frame was found and filled with page `id`. */
  function Loaded(p: Pool, k: nat, id: PageId, data: Data, next: PageId): Pool
    requires FindVictim(p).1.Some? && FrameOk(FindVictim(p).0, FindVictim(p).1.value)
  {
    Install(FindVictim(p).0, k, FindVictim(p).1.value, id, data).(next := next)
  }

  lemma LoadedCorrect(p: Pool, k: nat, id: PageId, data: Data, next: PageId)
    requires Shape(p) && FindVictim(p).1.Some? && id !in p.table && 0 <= id < next && p.next <= next
    ensures FrameOk(FindVictim(p).0, FindVictim(p).1.value)
    ensures Shape(Loaded(p, k, id, data, next))
    ensures Delivered(p, Loaded(p, k, id, data, next), id, FindVictim(p).1.value)
    ensures NothingUnsaved(p) ==> NothingUnsaved(Loaded(p, k, id, data, next))
  {
    VictimReady(p);
    var x := FindVictim(p).1.value;
    var p' := Loaded(p, k, id, data, next);
    InstallShape(FindVictim(p).0, k, x, id, data, next);
    if NothingUnsaved(p) {
      FindVictimKeepsBytes(p);
      PinnedFrameIsSafe(p, p', x);
    }
  }

  /** Loading shows the given bytes under `id` and all other pages as finding the frame left them. */
  lemma LoadedShows(p: Pool, k: nat, id: PageId, data: Data, next: PageId, i: PageId)
    requires Shape(p) && FindVictim(p).1.Some? && FrameOk(FindVictim(p).0, FindVictim(p).1.value)
    ensures Bytes(Loaded(p, k, id, data, next), i) == if i == id then data else Bytes(FindVictim(p).0, i)
  {
    VictimReady(p);
    var x := FindVictim(p).1.value;
    InstallKeepsBytes(FindVictim(p).0, k, x, id, data, i);
    var q := Install(FindVictim(p).0, k, x, id, data);
    assert Bytes(q.(next := next), i) == Bytes(q, i);
  }

  /** Loading shows the given bytes under `id` and leaves all other pages as they were. */
  lemma LoadedBytes(p: Pool, k: nat, id: PageId, data: Data, next: PageId, i: PageId)
    requires Shape(p) && NothingUnsaved(p) && FindVictim(p).1.Some? && FrameOk(FindVictim(p).0, FindVictim(p).1.value)
    requires 0 <= i < p.next || i == id
    ensures Bytes(Loaded(p, k, id, data, next), i) == if i == id then data else Bytes(p, i)
  {
    FindVictimKeepsBytes(p);
    LoadedShows(p, k, id, data, next, i);
  }

  // ------------------------------------------- changing one resident page

  /** The page id is resident in the frame the page table names. */
  lemma ResidentFrame(p: Pool, id: PageId)
    requires Shape(p) && id in p.table
    ensures FrameOk(p, p.table[id]) && FrameInv(p, p.table[id]) && p.pages[p.table[id]].id == id
    ensures p.table[id] !in p.free && 0 <= id < p.next
  {
    assert FrameInv(p, p.table[id]);
  }

  /** p' differs from p in the page of one resident id, in its evictable mark and on disk. */
  ghost predicate PageChanged(p: Pool, p': Pool, id: PageId) {
    && id in p.table && FrameOk(p, p.table[id]) && |p'.pages| == |p.pages|
    && p'.free == p.free && p'.table == p.table && p'.next == p.next
    && p'.pages[p.table[id]].id == id
    && (forall f :: FrameOk(p, f) && f != p.table[id] ==> p'.pages[f] == p.pages[f])
    && p'.lru.entries.Keys == p.lru.entries.Keys
    && (forall f :: f in p.lru.entries ==> p.lru.entries[f].hits <= p'.lru.entries[f].hits)
    && (forall f :: f in p.lru.entries && f != p.table[id] ==>
          p'.lru.entries[f].evictable == p.lru.entries[f].evictable)
    && (p.table[id] in p'.lru.entries ==>
          (p'.lru.entries[p.table[id]].evictable <==> p'.pages[p.table[id]].pins == 0))
    && (forall i :: i in p'.disk ==> i in p.disk || i == id)
    && (forall i :: i != id ==> DiskRead(p'.disk, i) == DiskRead(p.disk, i))
  }

  lemma PageChangedShape(p: Pool, p': Pool, id: PageId)
    requires Shape(p) && PageChanged(p, p', id)
    ensures Shape(p') && FramesKept(p, p', p.table[id])
  {
    ResidentFrame(p, id);
    assert forall f :: FrameOk(p', f) <==> FrameOk(p, f);
    forall f | FrameOk(p', f) ensures FrameInv(p', f) {
      assert FrameInv(p, f);
    }
    forall i | i in p'.table
      ensures FrameOk(p', p'.table[i]) && p'.table[i] !in p'.free && p'.pages[p'.table[i]].id == i
    {
      assert p.pages[p.table[i]].id == i;
    }
  }

  /** Only the changed page's bytes differ. */
  lemma PageChangedContents(p: Pool, p': Pool, id: PageId)
    requires Shape(p) && PageChanged(p, p', id)
    ensures Contents(p') == Contents(p)[id := p'.pages[p.table[id]].data]
  {
    ResidentFrame(p, id);
    forall i | 0 <= i < p.next
      ensures Bytes(p', i) == if i == id then p'.pages[p.table[id]].data else Bytes(p, i)
    {
      if i in p.table && i != id {
        ResidentFrame(p, i);
      }
    }
  }

  lemma SameDataSameContents(p: Pool, p': Pool, id: PageId)
    requires Shape(p) && PageChanged(p, p', id) && p'.pages[p.table[id]].data == p.pages[p.table[id]].data
    ensures Contents(p') == Contents(p)
  {
    ResidentFrame(p, id);
    PageChangedContents(p, p', id);
    assert Contents(p)[id] == p.pages[p.table[id]].data;
  }

  /** Nothing is unsaved after the change exactly when the changed page is pinned, flagged or on disk. */
  lemma PageChangedSavedIff(p: Pool, p': Pool, id: PageId)
    requires Shape(p) && PageChanged(p, p', id) && NothingUnsaved(p)
    ensures NothingUnsaved(p') <==>
            var pg := p'.pages[p.table[id]];
            0 < pg.pins || pg.dirty || pg.data == DiskRead(p'.disk, id)
  {
    ResidentFrame(p, id);
    var x := p.table[id];
    assert FrameOk(p', x);
    forall f | FrameOk(p', f) && f != x && p'.pages[f].id != INVALID_PAGE_ID && p'.pages[f].pins == 0
      ensures p'.pages[f].dirty || p'.pages[f].data == DiskRead(p'.disk, p'.pages[f].id)
    {
      assert FrameInv(p, f);
    }
  }
}
