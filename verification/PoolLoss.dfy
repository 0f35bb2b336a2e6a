/**
 When the buffer pool loses bytes. Over every possible run, careful or not, pool
 and disk are the map exactly as long as no frame is given up whose page is
 neither flagged dirty nor equal to its copy on disk.
 */
module PoolLoss {
  import opened LruK
  import opened PoolModel
  import opened PoolRuns

  ghost predicate Saved(p: Pool, f: Frame) {
    FrameOk(p, f) ==> p.pages[f].dirty || p.pages[f].data == DiskRead(p.disk, p.pages[f].id)
  }

  /** The frame an eviction would take next, if it has to take one, is saved. */
  ghost predicate VictimSaved(p: Pool) {
    p.free == [] && EvictStep(p.lru).1.Some? ==> Saved(p, EvictStep(p.lru).1.value)
  }

  /** The operation gives up no frame with unsaved bytes. */
  ghost predicate LosesNothing(p: Pool, op: PoolOp) {
    match op
    case New => VictimSaved(p)
    case Fetch(id) => id !in p.table ==> VictimSaved(p)
    case Delete(id) => id in p.table && !HeldPinned(p, id) ==> Saved(p, p.table[id])
    case _ => true
  }

  lemma VictimBytesIff(p: Pool)
    requires Shape(p) && FindVictim(p).1.Some?
    ensures (forall id :: 0 <= id < p.next ==> Bytes(FindVictim(p).0, id) == Bytes(p, id)) <==> VictimSaved(p)
  {
    if p.free == [] {
      EvictionKeepsBytesIff(p);
    } else {
      FreeFrameTaken(p);
    }
  }

  lemma NewContentsIff(p: Pool, k: nat)
    requires Shape(p) && FindVictim(p).1.Some?
    ensures NewPage(p, k).1.Some? && NewPage(p, k).0.next == p.next + 1
    ensures Contents(NewPage(p, k).0) == Contents(p)[p.next := ZERO_PAGE] <==> VictimSaved(p)
  {
    TableIdsAllocated(p);
    LoadedCorrect(p, k, p.next, ZERO_PAGE, p.next + 1);
    var p' := NewPage(p, k).0;
    assert p' == Loaded(p, k, p.next, ZERO_PAGE, p.next + 1);
    forall i | 0 <= i < p.next + 1
      ensures Bytes(p', i) == if i == p.next then ZERO_PAGE else Bytes(FindVictim(p).0, i)
    {
      LoadedShows(p, k, p.next, ZERO_PAGE, p.next + 1, i);
    }
    VictimBytesIff(p);
    ExtendedContents(p, p', FindVictim(p).0);
  }

  lemma ExtendedContents(p: Pool, p': Pool, q: Pool)
    requires 0 <= p.next && p'.next == p.next + 1
    requires forall i :: 0 <= i < p.next + 1 ==> Bytes(p', i) == if i == p.next then ZERO_PAGE else Bytes(q, i)
    ensures Contents(p') == Contents(p)[p.next := ZERO_PAGE]
            <==> forall i :: 0 <= i < p.next ==> Bytes(q, i) == Bytes(p, i)
  {
    var m := Contents(p)[p.next := ZERO_PAGE];
    assert Contents(p').Keys == m.Keys;
    if Contents(p') == m {
      forall i | 0 <= i < p.next
        ensures Bytes(q, i) == Bytes(p, i)
      {
        assert Contents(p')[i] == m[i];
      }
    }
  }

  lemma SameContents(p: Pool, p': Pool)
    requires p'.next == p.next
    ensures Contents(p') == Contents(p) <==> forall i :: 0 <= i < p.next ==> Bytes(p', i) == Bytes(p, i)
  {
    if Contents(p') == Contents(p) {
      forall i | 0 <= i < p.next
        ensures Bytes(p', i) == Bytes(p, i)
      {
        assert Contents(p')[i] == Contents(p)[i];
      }
    }
  }

  lemma FetchMissContentsIff(p: Pool, k: nat, id: PageId)
    requires Shape(p) && FindVictim(p).1.Some? && 0 <= id < p.next && id !in p.table
    ensures Contents(FetchPage(p, k, id).0) == Contents(p) <==> VictimSaved(p)
  {
    VictimReady(p);
    var data := DiskRead(FindVictim(p).0.disk, id);
    LoadedCorrect(p, k, id, data, p.next);
    var p' := FetchPage(p, k, id).0;
    assert p' == Loaded(p, k, id, data, p.next);
    assert Bytes(FindVictim(p).0, id) == data;
    forall i | 0 <= i < p.next
      ensures Bytes(p', i) == Bytes(FindVictim(p).0, i)
    {
      LoadedShows(p, k, id, data, p.next, i);
    }
    VictimBytesIff(p);
    SameContents(p, p');
  }

  lemma FetchContentsIff(p: Pool, k: nat, id: PageId)
    requires Inv(p, k) && 0 <= id < p.next
    ensures Contents(FetchPage(p, k, id).0) == Contents(p) <==> LosesNothing(p, Fetch(id))
  {
    if id in p.table {
      ResidentFrame(p, id);
      TouchEntries(p.lru, k, p.table[id]);
      assert p.lru.entries.Keys + {p.table[id]} == p.lru.entries.Keys;
      SameDataSameContents(p, FetchPage(p, k, id).0, id);
    } else {
      FindVictimFailsIff(p, k);
      if FindVictim(p).1.Some? {
        FetchMissContentsIff(p, k, id);
      } else {
        NoVictimMeansSaved(p);
      }
    }
  }

  lemma NoVictimMeansSaved(p: Pool)
    requires Shape(p) && FindVictim(p).1.None?
    ensures VictimSaved(p)
  {
    EvictEntries(p.lru);
    if p.free == [] && EvictStep(p.lru).1.Some? {
      FrameEvicted(p);
    }
  }

  /** Giving up the frame of a page leaves its bytes readable exactly when they are on disk. */
  lemma DropContentsIff(p: Pool, p': Pool, id: PageId)
    requires Shape(p) && id in p.table && FrameOk(p, p.table[id])
    requires p'.disk == p.disk && p'.table == p.table - {id} && p'.next == p.next && |p'.pages| == |p.pages|
    requires forall f :: FrameOk(p, f) && f != p.table[id] ==> p'.pages[f] == p.pages[f]
    ensures Contents(p') == Contents(p) <==> p.pages[p.table[id]].data == DiskRead(p.disk, id)
  {
    ResidentFrame(p, id);
    assert Bytes(p, id) == p.pages[p.table[id]].data && Bytes(p', id) == DiskRead(p.disk, id);
    forall i | 0 <= i < p.next && i != id
      ensures Bytes(p', i) == Bytes(p, i)
    {
      if i in p.table {
        ResidentFrame(p, i);
      }
    }
    SameContents(p, p');
  }

  lemma DeleteContentsIff(p: Pool, k: nat, id: PageId)
    requires Shape(p)
    ensures Contents(DeletePage(p, k, id).0) == Contents(p) <==> LosesNothing(p, Delete(id))
  {
    if id in p.table {
      ResidentFrame(p, id);
      var f := p.table[id];
      if p.pages[f].pins == 0 {
        if p.pages[f].dirty {
          WriteBackCorrect(p, id);
          DropContentsIff(WriteBack(p, f), DeletePage(p, k, id).0, id);
        } else {
          DropContentsIff(p, DeletePage(p, k, id).0, id);
        }
      }
    }
  }

  /** One operation is the map's operation exactly when it loses nothing. */
  lemma StepIsMapStepIff(p: Pool, k: nat, op: PoolOp)
    requires Inv(p, k) && Possible(p, op)
    ensures Contents(PoolStep(p, k, op).0) == MapStep(Contents(p), op, PoolStep(p, k, op).1) <==> LosesNothing(p, op)
  {
    ContentsSize(p);
    match op
    case New =>
      FindVictimFailsIff(p, k);
      if FindVictim(p).1.Some? {
        NewContentsIff(p, k);
      } else {
        NoVictimMeansSaved(p);
      }
    case Fetch(id) => FetchContentsIff(p, k, id);
    case Write(id, data) => UserWriteCorrect(p, id, data);
    case Unpin(id, dirty) => UnpinPageCorrect(p, id, dirty);
    case Flush(id) => if id in p.table { WriteBackCorrect(p, id); }
    case FlushAll => FlushFramesCorrect(p, |p.pages|);
    case Delete(id) => DeleteContentsIff(p, k, id);
  }

  // ----------------------------------------------------------------- runs

  /** Pool and disk have been the map at every moment of the run. */
  ghost predicate AlwaysTheMap(n: nat, k: nat, ops: seq<PoolOp>)
    requires LegalOps(n, k, ops)
    decreases |ops|
  {
    Contents(PoolAfter(n, k, ops)) == MapAfter(n, k, ops) && (ops != [] ==> AlwaysTheMap(n, k, ops[..|ops| - 1]))
  }

  /** No step of the run has given up unsaved bytes. */
  ghost predicate NeverLoses(n: nat, k: nat, ops: seq<PoolOp>)
    requires LegalOps(n, k, ops)
    decreases |ops|
  {
    ops == [] ||
    (NeverLoses(n, k, ops[..|ops| - 1]) && LosesNothing(PoolAfter(n, k, ops[..|ops| - 1]), ops[|ops| - 1]))
  }

  /** Over all runs: pool and disk are the map throughout exactly when no step loses bytes. */
  lemma {:induction false} PoolIsTheMapIff(n: nat, k: nat, ops: seq<PoolOp>)
    requires 2 <= k && LegalOps(n, k, ops)
    ensures AlwaysTheMap(n, k, ops) <==> NeverLoses(n, k, ops)
    decreases |ops|
  {
    if ops == [] {
      FreshInv(n, k);
    } else {
      var before := ops[..|ops| - 1];
      PoolIsTheMapIff(n, k, before);
      RunKeepsPoolInv(n, k, before);
      StepIsMapStepIff(PoolAfter(n, k, before), k, ops[|ops| - 1]);
    }
  }

  /** Users who report what they wrote lose nothing. */
  lemma {:induction false} CarefulNeverLoses(n: nat, k: nat, ops: seq<PoolOp>)
    requires 2 <= k && LegalOps(n, k, ops) && Careful(n, k, ops)
    ensures NeverLoses(n, k, ops) && AlwaysTheMap(n, k, ops)
    decreases |ops|
  {
    PoolRefinesMap(n, k, ops);
    if ops != [] {
      CarefulNeverLoses(n, k, ops[..|ops| - 1]);
    }
    PoolIsTheMapIff(n, k, ops);
  }

  // -------------------------------------------------- a run that does lose

  /** A user writes a page, unpins it as clean, and the only frame goes to the next page. */
  function CarelessRun(d: Data): seq<PoolOp> {
    [New, Write(0, d), Unpin(0, false), New]
  }

  lemma RunStep(n: nat, k: nat, ops: seq<PoolOp>, op: PoolOp)
    requires LegalOps(n, k, ops) && Possible(PoolAfter(n, k, ops), op)
    ensures LegalOps(n, k, ops + [op])
    ensures PoolAfter(n, k, ops + [op]) == PoolStep(PoolAfter(n, k, ops), k, op).0
  {
    assert (ops + [op])[..|ops + [op]| - 1] == ops;
  }

  /** The only frame holds page 0 with bytes d, and nothing is on disk. */
  ghost predicate OnlyPage(p: Pool, pins: nat, d: Data) {
    p.pages == [Page(0, pins, false, d)] && p.free == [] && p.table == map[0 := 0] && p.disk == map[] && p.next == 1
  }

  lemma FirstPage(k: nat)
    ensures OnlyPage(NewPage(Fresh(1), k).0, 1, ZERO_PAGE)
  {
    assert Fresh(1).free == [0] && [0][..0] == [] && Fresh(1).pages == [BLANK];
  }

  lemma CarelessPrefix(d: Data)
    ensures LegalOps(1, 2, CarelessRun(d)[..3]) && OnlyPage(PoolAfter(1, 2, CarelessRun(d)[..3]), 0, d)
  {
    FirstPage(2);
    RunStep(1, 2, [], New);
    assert [] + [New] == [New];
    RunStep(1, 2, [New], Write(0, d));
    assert [New] + [Write(0, d)] == [New, Write(0, d)];
    RunStep(1, 2, [New, Write(0, d)], Unpin(0, false));
    assert CarelessRun(d)[..3] == [New, Write(0, d)] + [Unpin(0, false)];
  }

  /** Bytes written but not reported are gone once the frame is needed. */
  lemma CarelessRunLoses(d: Data)
    requires d != ZERO_PAGE
    ensures LegalOps(1, 2, CarelessRun(d)) && !AlwaysTheMap(1, 2, CarelessRun(d))
  {
    var before := CarelessRun(d)[..3];
    CarelessPrefix(d);
    RunStep(1, 2, before, New);
    assert CarelessRun(d) == before + [New];
    var p := PoolAfter(1, 2, before);
    RunKeepsPoolInv(1, 2, before);
    FindVictimFailsIff(p, 2);
    assert FrameOk(p, 0);
    FrameEvicted(p);
    PoolIsTheMapIff(1, 2, CarelessRun(d));
    assert CarelessRun(d)[..|CarelessRun(d)| - 1] == before;
  }
}
