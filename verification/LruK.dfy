/**
 The replacer of the buffer pool (src/buffer/lru_k_replacer.cpp).

 The replacer keeps two lists, newest at the front: frames with fewer than k
 accesses in the order of their first access, and the others in the order of
 their last access. It is proved against the access history, which knows only
 the time of every access. The list switching of the source presumes k >= 2.
 */
module LruK {
  import opened Collections

  type Frame = int

  datatype Entry = Entry(hits: nat, evictable: bool)

  /** The fields of the replacer. */
  datatype Lru = Lru(hist: seq<Frame>, cache: seq<Frame>, entries: map<Frame, Entry>, size: int)

  const EMPTY := Lru([], [], map[], 0)

  datatype Op = Access(f: Frame) | SetEvictable(f: Frame, evictable: bool) | Remove(f: Frame) | Evict

  /** What a call does: return, throw, or deliver the evicted frame. */
  datatype Reply = Done | Invalid | Evicted(victim: Option<Frame>)

  /** Erase the list position an entry points at. */
  function Without(l: seq<Frame>, f: Frame): seq<Frame> {
    if l == [] then [] else if l[0] == f then l[1..] else [l[0]] + Without(l[1..], f)
  }

  function AccessStep(r: Lru, k: nat, f: Frame): Lru {
    if f !in r.entries then
      Lru([f] + r.hist, r.cache, r.entries[f := Entry(1, true)], r.size + 1)
    else
      var n := r.entries[f].hits + 1;
      var r' := r.(entries := r.entries[f := r.entries[f].(hits := n)]);
      if n == k then r'.(hist := Without(r.hist, f), cache := [f] + r.cache)
      else if n > k then r'.(cache := [f] + Without(r.cache, f))
      else r'
  }

  function SetEvictableStep(r: Lru, f: Frame, evictable: bool): Lru {
    if f !in r.entries then r
    else
      var was := r.entries[f].evictable;
      var size := if evictable && !was then r.size + 1 else if was && !evictable then r.size - 1 else r.size;
      r.(entries := r.entries[f := r.entries[f].(evictable := evictable)], size := size)
  }

  /** Take f out of the list its hit count says it is in. */
  function DropStep(r: Lru, k: nat, f: Frame): Lru
    requires f in r.entries
  {
    var r' := r.(entries := r.entries - {f}, size := r.size - 1);
    if r.entries[f].hits < k then r'.(hist := Without(r.hist, f)) else r'.(cache := Without(r.cache, f))
  }

  predicate IsEvictable(r: Lru, f: Frame) {
    f in r.entries && r.entries[f].evictable
  }

  /** The last evictable frame of a list, which is what the reverse scan meets first. */
  function LastEvictable(r: Lru, l: seq<Frame>): (v: Option<Frame>)
    ensures v.Some? ==> v.value in l && IsEvictable(r, v.value)
    ensures v.None? ==> forall x :: x in l ==> !IsEvictable(r, x)
  {
    if l == [] then None
    else if IsEvictable(r, l[|l| - 1]) then Some(l[|l| - 1])
    else
      assert l == l[..|l| - 1] + [l[|l| - 1]];
      LastEvictable(r, l[..|l| - 1])
  }

  function EvictStep(r: Lru): (Lru, Option<Frame>) {
    var h := LastEvictable(r, r.hist);
    if h.Some? then
      (r.(hist := Without(r.hist, h.value), entries := r.entries - {h.value}, size := r.size - 1), h)
    else
      var c := LastEvictable(r, r.cache);
      if c.Some? then
        (r.(cache := Without(r.cache, c.value), entries := r.entries - {c.value}, size := r.size - 1), c)
      else (r, None)
  }

  /** One call; n is the number of frames. A frame id above n is refused, n itself is let through. */
  function Step(r: Lru, k: nat, n: nat, op: Op): (Lru, Reply) {
    match op
    case Access(f) => if f > n then (r, Invalid) else (AccessStep(r, k, f), Done)
    case SetEvictable(f, b) => if f > n then (r, Invalid) else (SetEvictableStep(r, f, b), Done)
    case Remove(f) =>
      if f !in r.entries then (r, Done)
      else if !r.entries[f].evictable then (r, Invalid)
      else (DropStep(r, k, f), Done)
    case Evict => (EvictStep(r).0, Evicted(EvictStep(r).1))
  }

  // ------------------------------------------------------ access history

  /** The times of the accesses of every tracked frame, and the frames that may be evicted. */
  datatype History = History(log: map<Frame, seq<nat>>, evictable: set<Frame>, clock: nat)

  const NO_HISTORY := History(map[], {}, 0)

  function First(h: History, f: Frame): nat
    requires f in h.log && h.log[f] != []
  {
    h.log[f][0]
  }

  function Last(h: History, f: Frame): nat
    requires f in h.log && h.log[f] != []
  {
    h.log[f][|h.log[f]| - 1]
  }

  ghost predicate WellFormed(h: History) {
    && (forall f :: f in h.log ==> h.log[f] != [] && Last(h, f) < h.clock && First(h, f) < h.clock)
    && h.evictable <= h.log.Keys
  }

  /** Evictable and accessed fewer than k times. */
  ghost predicate Cold(h: History, k: nat, f: Frame) {
    f in h.evictable && f in h.log && |h.log[f]| < k
  }

  /**
   The frame to evict: among the evictable frames with fewer than k accesses the
   one whose first access is oldest; if there is none, the evictable frame whose
   last access is oldest.
   */
  ghost predicate IsVictim(h: History, k: nat, f: Frame)
    requires WellFormed(h)
  {
    f in h.evictable &&
    if exists g :: Cold(h, k, g) then
      Cold(h, k, f) && forall g :: Cold(h, k, g) && g != f ==> First(h, f) < First(h, g)
    else
      forall g :: g in h.evictable && g != f ==> Last(h, f) < Last(h, g)
  }

  function AccessHistory(h: History, f: Frame): History {
    if f in h.log then h.(log := h.log[f := h.log[f] + [h.clock]], clock := h.clock + 1)
    else History(h.log[f := [h.clock]], h.evictable + {f}, h.clock + 1)
  }

  function MarkHistory(h: History, f: Frame, evictable: bool): History {
    if f !in h.log then h
    else h.(evictable := if evictable then h.evictable + {f} else h.evictable - {f})
  }

  function DropHistory(h: History, f: Frame): History {
    h.(log := h.log - {f}, evictable := h.evictable - {f})
  }

  // --------------------------------------------------- lists and history

  /** Each frame's stamp in the list its hit count puts it in. */
  ghost function Stamps(h: History, first: bool): map<Frame, nat> {
    map f | f in h.log && h.log[f] != [] :: if first then First(h, f) else Last(h, f)
  }

  ghost function At(st: map<Frame, nat>, f: Frame): nat {
    if f in st then st[f] else 0
  }

  /** Newest first: the stamps of the list decrease. */
  ghost predicate Descends(l: seq<Frame>, st: map<Frame, nat>) {
    && (forall x :: x in l ==> x in st)
    && forall i, j :: 0 <= i < j < |l| ==> At(st, l[i]) > At(st, l[j])
  }

  /** The replacer's fields tell the same story as the history. */
  ghost predicate EntriesMatch(r: Lru, h: History) {
    && r.entries.Keys == h.log.Keys
    && (forall f :: f in r.entries ==>
          r.entries[f].hits == |h.log[f]| && (r.entries[f].evictable <==> f in h.evictable))
    && r.size == |h.evictable|
  }

  /** The two lists part the entries by hit count. */
  ghost predicate ListsPart(r: Lru, k: nat) {
    && (forall f :: f in r.hist <==> f in r.entries && r.entries[f].hits < k)
    && (forall f :: f in r.cache <==> f in r.entries && r.entries[f].hits >= k)
  }

  ghost predicate Matches(r: Lru, h: History, k: nat) {
    && WellFormed(h)
    && EntriesMatch(r, h)
    && ListsPart(r, k)
    && Descends(r.hist, Stamps(h, true))
    && Descends(r.cache, Stamps(h, false))
  }

  lemma DescendsTail(l: seq<Frame>, st: map<Frame, nat>)
    requires l != [] && Descends(l, st)
    ensures Descends(l[1..], st) && l[0] !in l[1..] && forall x :: x in l[1..] ==> At(st, l[0]) > At(st, x)
  {
    var t := l[1..];
    assert forall i :: 0 <= i < |t| ==> t[i] == l[i + 1];
  }

  lemma DescendsCons(f: Frame, l: seq<Frame>, st: map<Frame, nat>)
    requires Descends(l, st) && f in st && forall x :: x in l ==> At(st, f) > At(st, x)
    ensures Descends([f] + l, st)
  {
    var m := [f] + l;
    forall i, j | 0 <= i < j < |m| ensures At(st, m[i]) > At(st, m[j]) {
      assert m[j] == l[j - 1] && l[j - 1] in l;
    }
  }

  lemma {:induction false} WithoutDescends(l: seq<Frame>, f: Frame, st: map<Frame, nat>)
    requires Descends(l, st)
    ensures forall x :: x in Without(l, f) <==> x in l && x != f
    ensures Descends(Without(l, f), st)
  {
    if l != [] {
      DescendsTail(l, st);
      assert l == [l[0]] + l[1..];
      if l[0] != f {
        WithoutDescends(l[1..], f, st);
        DescendsCons(l[0], Without(l[1..], f), st);
      }
    }
  }

  lemma DescendsRestamp(l: seq<Frame>, st: map<Frame, nat>, st': map<Frame, nat>)
    requires Descends(l, st) && forall x :: x in l ==> x in st' && st'[x] == st[x]
    ensures Descends(l, st')
  {
    forall i, j | 0 <= i < j < |l| ensures At(st', l[i]) > At(st', l[j]) {
      assert l[i] in l && l[j] in l;
    }
  }

  lemma AccessMatches(r: Lru, h: History, k: nat, f: Frame)
    requires 2 <= k && Matches(r, h, k)
    ensures Matches(AccessStep(r, k, f), AccessHistory(h, f), k)
  {
    AccessEntries(r, h, k, f);
    AccessLists(r, k, f, Stamps(h, true), Stamps(h, false));
    AccessHistOrder(r, h, k, f);
    AccessCacheOrder(r, h, k, f);
  }

  lemma AccessEntries(r: Lru, h: History, k: nat, f: Frame)
    requires WellFormed(h) && EntriesMatch(r, h)
    ensures WellFormed(AccessHistory(h, f)) && EntriesMatch(AccessStep(r, k, f), AccessHistory(h, f))
  {
  }

  lemma AccessLists(r: Lru, k: nat, f: Frame, st: map<Frame, nat>, lt: map<Frame, nat>)
    requires 2 <= k && ListsPart(r, k) && Descends(r.hist, st) && Descends(r.cache, lt)
    ensures ListsPart(AccessStep(r, k, f), k)
  {
    WithoutDescends(r.hist, f, st);
    WithoutDescends(r.cache, f, lt);
  }

  /** First stamps never change once given; a new frame gets the newest. */
  lemma AccessFirsts(h: History, f: Frame)
    requires WellFormed(h)
    ensures forall x :: x in Stamps(h, true) ==>
              At(Stamps(h, true), x) < h.clock && x in Stamps(AccessHistory(h, f), true) &&
              Stamps(AccessHistory(h, f), true)[x] == Stamps(h, true)[x]
    ensures f !in h.log ==>
              f in Stamps(AccessHistory(h, f), true) && At(Stamps(AccessHistory(h, f), true), f) == h.clock
  {
  }

  /** An access gives f the newest last stamp and leaves the others alone. */
  lemma AccessLasts(h: History, f: Frame)
    requires WellFormed(h)
    ensures forall x :: x in Stamps(h, false) && x != f ==>
              At(Stamps(h, false), x) < h.clock && x in Stamps(AccessHistory(h, f), false) &&
              Stamps(AccessHistory(h, f), false)[x] == Stamps(h, false)[x]
    ensures f in Stamps(AccessHistory(h, f), false) && At(Stamps(AccessHistory(h, f), false), f) == h.clock
  {
  }

  lemma AccessHistOrder(r: Lru, h: History, k: nat, f: Frame)
    requires 2 <= k && Matches(r, h, k)
    ensures Descends(AccessStep(r, k, f).hist, Stamps(AccessHistory(h, f), true))
  {
    var st, st' := Stamps(h, true), Stamps(AccessHistory(h, f), true);
    AccessFirsts(h, f);
    WithoutDescends(r.hist, f, st);
    DescendsRestamp(Without(r.hist, f), st, st');
    DescendsRestamp(r.hist, st, st');
    if f !in r.entries { DescendsCons(f, r.hist, st'); }
  }

  lemma AccessCacheOrder(r: Lru, h: History, k: nat, f: Frame)
    requires 2 <= k && Matches(r, h, k)
    ensures Descends(AccessStep(r, k, f).cache, Stamps(AccessHistory(h, f), false))
  {
    var lt, lt' := Stamps(h, false), Stamps(AccessHistory(h, f), false);
    AccessLasts(h, f);
    WithoutDescends(r.cache, f, lt);
    DescendsRestamp(Without(r.cache, f), lt, lt');
    DescendsCons(f, Without(r.cache, f), lt');
    if f !in r.cache {
      DescendsRestamp(r.cache, lt, lt');
      DescendsCons(f, r.cache, lt');
    }
  }

  lemma SetEvictableMatches(r: Lru, h: History, k: nat, f: Frame, b: bool)
    requires Matches(r, h, k)
    ensures Matches(SetEvictableStep(r, f, b), MarkHistory(h, f, b), k)
  {
    DescendsRestamp(r.hist, Stamps(h, true), Stamps(MarkHistory(h, f, b), true));
    DescendsRestamp(r.cache, Stamps(h, false), Stamps(MarkHistory(h, f, b), false));
    SetEvictableEntries(r, h, f, b);
  }

  lemma SetEvictableEntries(r: Lru, h: History, f: Frame, b: bool)
    requires WellFormed(h) && EntriesMatch(r, h)
    ensures WellFormed(MarkHistory(h, f, b)) && EntriesMatch(SetEvictableStep(r, f, b), MarkHistory(h, f, b))
  {
    if f in h.log {
      if b && f !in h.evictable { assert |h.evictable + {f}| == |h.evictable| + 1; }
      if b && f in h.evictable { assert h.evictable + {f} == h.evictable; }
      if !b && f !in h.evictable { assert h.evictable - {f} == h.evictable; }
    }
  }

  lemma DropMatches(r: Lru, h: History, k: nat, f: Frame)
    requires Matches(r, h, k) && f in h.evictable
    ensures Matches(DropStep(r, k, f), DropHistory(h, f), k)
  {
    DropEntries(r, h, k, f);
    var h' := DropHistory(h, f);
    DropLists(r, k, f, Stamps(h, true), Stamps(h, false), Stamps(h', true), Stamps(h', false));
  }

  lemma DropLists(r: Lru, k: nat, f: Frame, st: map<Frame, nat>, lt: map<Frame, nat>,
                  st': map<Frame, nat>, lt': map<Frame, nat>)
    requires f in r.entries && ListsPart(r, k) && Descends(r.hist, st) && Descends(r.cache, lt)
    requires forall x :: x in st && x != f ==> x in st' && st'[x] == st[x]
    requires forall x :: x in lt && x != f ==> x in lt' && lt'[x] == lt[x]
    ensures ListsPart(DropStep(r, k, f), k)
    ensures Descends(DropStep(r, k, f).hist, st') && Descends(DropStep(r, k, f).cache, lt')
  {
    WithoutDescends(r.hist, f, st);
    WithoutDescends(r.cache, f, lt);
    DescendsRestamp(Without(r.hist, f), st, st');
    DescendsRestamp(Without(r.cache, f), lt, lt');
    if r.entries[f].hits < k {
      DescendsRestamp(r.cache, lt, lt');
    } else {
      DescendsRestamp(r.hist, st, st');
    }
  }

  lemma DropEntries(r: Lru, h: History, k: nat, f: Frame)
    requires WellFormed(h) && EntriesMatch(r, h) && f in h.evictable
    ensures WellFormed(DropHistory(h, f)) && EntriesMatch(DropStep(r, k, f), DropHistory(h, f))
  {
  }

  /** The reverse scan of a list meets the evictable frame with the oldest stamp. */
  lemma {:induction false} LastEvictableIsOldest(r: Lru, l: seq<Frame>, st: map<Frame, nat>)
    requires Descends(l, st) && LastEvictable(r, l).Some?
    ensures var v := LastEvictable(r, l).value;
            forall x :: x in l && x != v && IsEvictable(r, x) ==> At(st, v) < At(st, x)
  {
    var n := |l| - 1;
    assert l == l[..n] + [l[n]];
    if !IsEvictable(r, l[n]) {
      LastEvictableIsOldest(r, l[..n], st);
    }
  }

  /** Eviction takes the victim the history names, and fails exactly when nothing is evictable. */
  lemma EvictMatches(r: Lru, h: History, k: nat)
    requires Matches(r, h, k)
    ensures EvictStep(r).1.None? <==> h.evictable == {}
    ensures EvictStep(r).1.Some? ==>
              IsVictim(h, k, EvictStep(r).1.value) && Matches(EvictStep(r).0, DropHistory(h, EvictStep(r).1.value), k)
    ensures EvictStep(r).1.None? ==> EvictStep(r).0 == r
  {
    var hh := LastEvictable(r, r.hist);
    assert forall g :: Cold(h, k, g) <==> g in r.hist && IsEvictable(r, g);
    assert forall g :: g in h.evictable <==> IsEvictable(r, g);
    if hh.Some? {
      LastEvictableIsOldest(r, r.hist, Stamps(h, true));
      assert Cold(h, k, hh.value);
      DropMatches(r, h, k, hh.value);
    } else {
      var c := LastEvictable(r, r.cache);
      assert forall g :: g in h.evictable ==> g in r.cache;
      if c.Some? {
        LastEvictableIsOldest(r, r.cache, Stamps(h, false));
        DropMatches(r, h, k, c.value);
      }
    }
  }

  /** No history has two victims. */
  lemma VictimIsUnique(h: History, k: nat, f: Frame, g: Frame)
    requires WellFormed(h) && IsVictim(h, k, f) && IsVictim(h, k, g)
    ensures f == g
  {
  }

  // ----------------------------------------------------------------- runs

  /** The history's own account of a call. */
  ghost function HistoryStep(h: History, k: nat, n: nat, op: Op): History
    requires WellFormed(h)
  {
    match op
    case Access(f) => if f > n then h else AccessHistory(h, f)
    case SetEvictable(f, b) =>
      if f > n then h else MarkHistory(h, f, b)
    case Remove(f) => if f in h.evictable then DropHistory(h, f) else h
    case Evict =>
      if exists f :: IsVictim(h, k, f) then
        var f :| IsVictim(h, k, f);
        DropHistory(h, f)
      else h
  }

  /** What the history says a call must answer. */
  ghost predicate Answers(h: History, k: nat, n: nat, op: Op, reply: Reply)
    requires WellFormed(h)
  {
    match op
    case Access(f) => reply == if f > n then Invalid else Done
    case SetEvictable(f, _) => reply == if f > n then Invalid else Done
    case Remove(f) => reply == if f in h.log && f !in h.evictable then Invalid else Done
    case Evict =>
      && reply.Evicted?
      && (reply.victim.None? <==> h.evictable == {})
      && (reply.victim.Some? ==> IsVictim(h, k, reply.victim.value))
  }

  lemma StepMatches(r: Lru, h: History, k: nat, n: nat, op: Op)
    requires 2 <= k && Matches(r, h, k)
    ensures Matches(Step(r, k, n, op).0, HistoryStep(h, k, n, op), k)
    ensures Answers(h, k, n, op, Step(r, k, n, op).1)
  {
    match op
    case Access(f) => AccessMatches(r, h, k, f);
    case SetEvictable(f, b) => SetEvictableMatches(r, h, k, f, b);
    case Remove(f) => if f in h.evictable { DropMatches(r, h, k, f); }
    case Evict =>
      EvictMatches(r, h, k);
      if EvictStep(r).1.Some? {
        var v := EvictStep(r).1.value;
        forall f | IsVictim(h, k, f) ensures f == v { VictimIsUnique(h, k, f, v); }
      }
  }

  function Run(k: nat, n: nat, ops: seq<Op>): Lru {
    if ops == [] then EMPTY else Step(Run(k, n, ops[..|ops| - 1]), k, n, ops[|ops| - 1]).0
  }

  /** The history after a run, told without the replacer's lists. */
  ghost function RunHistory(k: nat, n: nat, ops: seq<Op>): (h: History)
  {
    if ops == [] then NO_HISTORY
    else
      var h := RunHistory(k, n, ops[..|ops| - 1]);
      if WellFormed(h) then HistoryStep(h, k, n, ops[|ops| - 1]) else h
  }

  /** Over every run the replacer answers as the access history demands; its size is the number of evictable frames. */
  lemma {:induction false} ReplacerFollowsHistory(k: nat, n: nat, ops: seq<Op>, op: Op)
    requires 2 <= k
    ensures Matches(Run(k, n, ops), RunHistory(k, n, ops), k)
    ensures Answers(RunHistory(k, n, ops), k, n, op, Step(Run(k, n, ops), k, n, op).1)
    decreases |ops|
  {
    if ops != [] {
      ReplacerFollowsHistory(k, n, ops[..|ops| - 1], ops[|ops| - 1]);
      StepMatches(Run(k, n, ops[..|ops| - 1]), RunHistory(k, n, ops[..|ops| - 1]), k, n, ops[|ops| - 1]);
    }
    StepMatches(Run(k, n, ops), RunHistory(k, n, ops), k, n, op);
  }

  // ------------------------------------------------- the documented rule

  /** The time of the k-th previous access of a frame that has at least k; a frame with fewer has none. */
  function KthPrevious(h: History, k: nat, f: Frame): nat
    requires f in h.log
  {
    if 1 <= k <= |h.log[f]| then h.log[f][|h.log[f]| - k] else 0
  }

  ghost predicate AnyCold(h: History, k: nat) {
    exists g :: Cold(h, k, g)
  }

  /** f was accessed for the k-th time from the end before every other evictable frame was. */
  ghost predicate LargestDistance(h: History, k: nat, f: Frame)
    requires WellFormed(h) && 1 <= k && !AnyCold(h, k) && f in h.evictable
  {
    forall g :: g in h.evictable && g != f ==> KthPrevious(h, k, f) < KthPrevious(h, k, g)
  }

  /**
   The frame the documentation of `Evict` names: the one with the largest
   backward k-distance, which is infinite for fewer than k accesses, and among
   infinite ones the one with the earliest timestamp.
   */
  ghost predicate IsDocumentedVictim(h: History, k: nat, f: Frame)
    requires WellFormed(h) && 1 <= k
  {
    f in h.evictable &&
    if AnyCold(h, k) then
      Cold(h, k, f) && forall g :: Cold(h, k, g) && g != f ==> First(h, f) < First(h, g)
    else
      LargestDistance(h, k, f)
  }

  /** Some evictable frame is oldest both by its last and by its k-th previous access. */
  ghost predicate OldestByBoth(h: History, k: nat)
    requires WellFormed(h) && 1 <= k && !AnyCold(h, k)
  {
    exists f :: f in h.evictable && LargestDistance(h, k, f)
                && forall g :: g in h.evictable && g != f ==> Last(h, f) < Last(h, g)
  }

  /**
   The victim is the documented one exactly when some evictable frame has fewer
   than k accesses, or the frame with the oldest last access also has the oldest
   k-th previous access.
   */
  lemma DocumentedVictimIff(h: History, k: nat, v: Frame)
    requires WellFormed(h) && 1 <= k && IsVictim(h, k, v)
    ensures IsDocumentedVictim(h, k, v) <==> AnyCold(h, k) || OldestByBoth(h, k)
  {
    if !AnyCold(h, k) {
      assert forall g :: g in h.evictable && g != v ==> Last(h, v) < Last(h, g);
      if OldestByBoth(h, k) {
        var f :| f in h.evictable && LargestDistance(h, k, f)
                 && forall g :: g in h.evictable && g != f ==> Last(h, f) < Last(h, g);
        assert f == v;
      }
    }
  }

  /** Over every run, when the evicted frame is the documented one. */
  lemma EvictsDocumentedIff(k: nat, n: nat, ops: seq<Op>, v: Frame)
    requires 2 <= k && Step(Run(k, n, ops), k, n, Evict).1 == Evicted(Some(v))
    ensures WellFormed(RunHistory(k, n, ops))
    ensures var h := RunHistory(k, n, ops);
            IsDocumentedVictim(h, k, v) <==> AnyCold(h, k) || OldestByBoth(h, k)
  {
    ReplacerFollowsHistory(k, n, ops, Evict);
    DocumentedVictimIff(RunHistory(k, n, ops), k, v);
  }

  /** The cold frame whose last access is oldest. */
  ghost predicate LeastRecentCold(h: History, k: nat, f: Frame)
    requires WellFormed(h)
  {
    Cold(h, k, f) && forall g :: Cold(h, k, g) && g != f ==> Last(h, f) < Last(h, g)
  }

  /**
   The frame the comment of the class names: the largest backward k-distance,
   and the least recently used of the frames with fewer than k accesses.
   */
  ghost predicate IsClassicVictim(h: History, k: nat, f: Frame)
    requires WellFormed(h) && 1 <= k
  {
    f in h.evictable && if AnyCold(h, k) then LeastRecentCold(h, k, f) else LargestDistance(h, k, f)
  }

  /** Some cold frame is oldest both by its first and by its last access. */
  ghost predicate OldestColdByBoth(h: History, k: nat)
    requires WellFormed(h)
  {
    exists f :: LeastRecentCold(h, k, f) && forall g :: Cold(h, k, g) && g != f ==> First(h, f) < First(h, g)
  }

  lemma ClassicVictimIff(h: History, k: nat, v: Frame)
    requires WellFormed(h) && 1 <= k && IsVictim(h, k, v)
    ensures IsClassicVictim(h, k, v) <==> if AnyCold(h, k) then OldestColdByBoth(h, k) else OldestByBoth(h, k)
  {
    if !AnyCold(h, k) {
      DocumentedVictimIff(h, k, v);
    } else if OldestColdByBoth(h, k) {
      var f :| LeastRecentCold(h, k, f) && forall g :: Cold(h, k, g) && g != f ==> First(h, f) < First(h, g);
      assert f == v;
    }
  }

  /** With k = 2 a cold frame has one access, so the two comments agree on cold frames. */
  lemma ColdVictimIsLeastRecent(h: History, v: Frame)
    requires WellFormed(h) && IsVictim(h, 2, v) && AnyCold(h, 2)
    ensures LeastRecentCold(h, 2, v)
  {
    forall g | Cold(h, 2, g)
      ensures First(h, g) == Last(h, g)
    {
      assert |h.log[g]| == 1;
    }
  }

  /** Over every run, when the evicted frame is the one the class comment names. */
  lemma EvictsClassicIff(k: nat, n: nat, ops: seq<Op>, v: Frame)
    requires 2 <= k && Step(Run(k, n, ops), k, n, Evict).1 == Evicted(Some(v))
    ensures WellFormed(RunHistory(k, n, ops))
    ensures var h := RunHistory(k, n, ops);
            && (IsClassicVictim(h, k, v) <==> if AnyCold(h, k) then OldestColdByBoth(h, k) else OldestByBoth(h, k))
            && (k == 2 && AnyCold(h, k) ==> IsClassicVictim(h, k, v))
  {
    ReplacerFollowsHistory(k, n, ops, Evict);
    var h := RunHistory(k, n, ops);
    ClassicVictimIff(h, k, v);
    if k == 2 && AnyCold(h, k) {
      ColdVictimIsLeastRecent(h, v);
    }
  }

  const SEEN_AGAIN := [Access(1), Access(2), Access(1)]

  /** With k = 3 frame 1 was seen first and goes, though frame 2 is the least recently used. */
  lemma FirstAccessIsNotLastAccess(n: nat)
    requires 2 <= n
    ensures Step(Run(3, n, SEEN_AGAIN), 3, n, Evict).1 == Evicted(Some(1))
    ensures RunHistory(3, n, SEEN_AGAIN) == History(map[1 := [0, 2], 2 := [1]], {1, 2}, 3)
    ensures WellFormed(RunHistory(3, n, SEEN_AGAIN)) && IsClassicVictim(RunHistory(3, n, SEEN_AGAIN), 3, 2)
    ensures !IsClassicVictim(RunHistory(3, n, SEEN_AGAIN), 3, 1)
  {
    SeenAgainRun(n);
    SeenAgainHistory(n);
    var h := History(map[1 := [0, 2], 2 := [1]], {1, 2}, 3);
    assert h.log[1] == [0, 2] && h.log[2] == [1];
    assert Cold(h, 3, 1) && Cold(h, 3, 2) && Last(h, 2) < Last(h, 1);
    assert AnyCold(h, 3);
  }

  lemma SeenAgainRun(n: nat)
    requires 2 <= n
    ensures Run(3, n, SEEN_AGAIN) == Lru([2, 1], [], map[1 := Entry(2, true), 2 := Entry(1, true)], 2)
  {
    var a, b := SEEN_AGAIN[..1], SEEN_AGAIN[..2];
    RunSnoc(3, n, [], Access(1));
    assert a == [] + [Access(1)];
    assert Run(3, n, a) == Lru([1], [], map[1 := Entry(1, true)], 1);
    RunSnoc(3, n, a, Access(2));
    assert b == a + [Access(2)];
    assert Run(3, n, b) == Lru([2, 1], [], map[1 := Entry(1, true), 2 := Entry(1, true)], 2);
    RunSnoc(3, n, b, Access(1));
    assert SEEN_AGAIN == b + [Access(1)];
  }

  lemma SeenAgainHistory(n: nat)
    requires 2 <= n
    ensures RunHistory(3, n, SEEN_AGAIN) == History(map[1 := [0, 2], 2 := [1]], {1, 2}, 3)
  {
    var a, b := SEEN_AGAIN[..1], SEEN_AGAIN[..2];
    RunSnoc(3, n, [], Access(1));
    assert a == [] + [Access(1)];
    assert RunHistory(3, n, a) == History(map[1 := [0]], {1}, 1);
    RunSnoc(3, n, a, Access(2));
    assert b == a + [Access(2)];
    var h := History(map[1 := [0], 2 := [1]], {1, 2}, 2);
    assert RunHistory(3, n, b) == h;
    RunSnoc(3, n, b, Access(1));
    assert SEEN_AGAIN == b + [Access(1)];
    assert [0] + [2] == [0, 2];
    assert AccessHistory(h, 1) == History(h.log[1 := [0] + [2]], {1, 2}, 3);
  }

  const REVISITED := [Access(1), Access(2), Access(2), Access(1)]

  lemma RunSnoc(k: nat, n: nat, ops: seq<Op>, op: Op)
    ensures Run(k, n, ops + [op]) == Step(Run(k, n, ops), k, n, op).0
    ensures WellFormed(RunHistory(k, n, ops)) ==>
              RunHistory(k, n, ops + [op]) == HistoryStep(RunHistory(k, n, ops), k, n, op)
  {
    var all := ops + [op];
    assert all[..|all| - 1] == ops;
  }

  /** Frame 1 has the older k-th previous access, but frame 2 the older last access, and 2 is evicted. */
  lemma DistanceIsNotTheRule(n: nat)
    requires 2 <= n
    ensures Step(Run(2, n, REVISITED), 2, n, Evict).1 == Evicted(Some(2))
    ensures RunHistory(2, n, REVISITED) == History(map[1 := [0, 3], 2 := [1, 2]], {1, 2}, 4)
    ensures WellFormed(RunHistory(2, n, REVISITED)) && IsDocumentedVictim(RunHistory(2, n, REVISITED), 2, 1)
    ensures !IsDocumentedVictim(RunHistory(2, n, REVISITED), 2, 2)
  {
    RevisitedRun(n);
    RevisitedHistory(n);
    var h := History(map[1 := [0, 3], 2 := [1, 2]], {1, 2}, 4);
    assert h.log[1] == [0, 3] && h.log[2] == [1, 2];
    assert !AnyCold(h, 2);
  }

  lemma RevisitedRun(n: nat)
    requires 2 <= n
    ensures Run(2, n, REVISITED) == Lru([], [1, 2], map[1 := Entry(2, true), 2 := Entry(2, true)], 2)
  {
    var a, b, c := REVISITED[..1], REVISITED[..2], REVISITED[..3];
    RunSnoc(2, n, [], Access(1));
    assert a == [] + [Access(1)];
    assert Run(2, n, a) == Lru([1], [], map[1 := Entry(1, true)], 1);
    RunSnoc(2, n, a, Access(2));
    assert b == a + [Access(2)];
    assert Run(2, n, b) == Lru([2, 1], [], map[1 := Entry(1, true), 2 := Entry(1, true)], 2);
    RunSnoc(2, n, b, Access(2));
    assert c == b + [Access(2)];
    assert Run(2, n, c) == Lru([1], [2], map[1 := Entry(1, true), 2 := Entry(2, true)], 2);
    RunSnoc(2, n, c, Access(1));
    assert REVISITED == c + [Access(1)];
  }

  lemma RevisitedHistory(n: nat)
    requires 2 <= n
    ensures RunHistory(2, n, REVISITED) == History(map[1 := [0, 3], 2 := [1, 2]], {1, 2}, 4)
  {
    var a, b, c := REVISITED[..1], REVISITED[..2], REVISITED[..3];
    RunSnoc(2, n, [], Access(1));
    assert a == [] + [Access(1)];
    assert RunHistory(2, n, a) == History(map[1 := [0]], {1}, 1);
    RunSnoc(2, n, a, Access(2));
    assert b == a + [Access(2)];
    assert RunHistory(2, n, b) == History(map[1 := [0], 2 := [1]], {1, 2}, 2);
    RunSnoc(2, n, b, Access(2));
    assert c == b + [Access(2)];
    assert [1] + [2] == [1, 2] && [0] + [3] == [0, 3];
    var h := History(map[1 := [0], 2 := [1]], {1, 2}, 2);
    assert AccessHistory(h, 2) == History(h.log[2 := [1] + [2]], {1, 2}, 3);
    var h' := History(map[1 := [0], 2 := [1, 2]], {1, 2}, 3);
    assert RunHistory(2, n, c) == h';
    RunSnoc(2, n, c, Access(1));
    assert REVISITED == c + [Access(1)];
    assert AccessHistory(h', 1) == History(h'.log[1 := [0] + [3]], {1, 2}, 4);
  }

  // --------------------------------------------------------------- object

  lemma {:induction false} WithoutAt(l: seq<Frame>, i: nat)
    requires i < |l| && l[i] !in l[..i]
    ensures Without(l, l[i]) == l[..i] + l[i + 1..]
  {
    if i > 0 {
      assert l[0] in l[..i];
      assert l[1..][..i - 1] == l[1..i];
      assert forall x :: x in l[1..i] ==> x in l[..i];
      WithoutAt(l[1..], i - 1);
      assert l[..i] + l[i + 1..] == [l[0]] + (l[1..][..i - 1] + l[1..][i..]);
    }
  }

  class LRUKReplacer {
    const replacerSize: nat
    const k: nat
    var hist: seq<Frame>
    var cache: seq<Frame>
    var entries: map<Frame, Entry>
    var currSize: int

    ghost function View(): Lru
      reads this
    {
      Lru(hist, cache, entries, currSize)
    }

    constructor (numFrames: nat, k: nat)
      ensures View() == EMPTY && replacerSize == numFrames && this.k == k
    {
      replacerSize, this.k := numFrames, k;
      hist, cache, entries, currSize := [], [], map[], 0;
    }

    /** `list.erase(pos)`: the iterator of an entry stands for its only position. */
    static method EraseAtPosition(l: seq<Frame>, f: Frame) returns (l': seq<Frame>)
      ensures l' == Without(l, f)
    {
      var i := 0;
      while i < |l|
        invariant 0 <= i <= |l| && f !in l[..i]
      {
        if l[i] == f {
          WithoutAt(l, i);
          return l[..i] + l[i + 1..];
        }
        i := i + 1;
      }
      assert l[..i] == l;
      WithoutAbsent(l, f);
      return l;
    }

    /** The reverse scan of one list. */
    method ScanFromBack(l: seq<Frame>) returns (v: Option<Frame>)
      ensures v == LastEvictable(View(), l)
    {
      var i := |l|;
      assert l[..i] == l;
      while i > 0
        invariant 0 <= i <= |l| && LastEvictable(View(), l) == LastEvictable(View(), l[..i])
      {
        assert l[..i][..i - 1] == l[..i - 1];
        if l[i - 1] in entries && entries[l[i - 1]].evictable {
          return Some(l[i - 1]);
        }
        i := i - 1;
      }
      return None;
    }

    method Evict() returns (v: Option<Frame>)
      modifies this
      ensures (View(), v) == EvictStep(old(View()))
    {
      v := ScanFromBack(hist);
      if v.Some? {
        hist := EraseAtPosition(hist, v.value);
      } else {
        v := ScanFromBack(cache);
        if v.Some? {
          cache := EraseAtPosition(cache, v.value);
        }
      }
      if v.Some? {
        entries := entries - {v.value};
        currSize := currSize - 1;
      }
    }

    method RecordAccess(f: Frame) returns (reply: Reply)
      requires forall g :: g in entries ==> 1 <= entries[g].hits
      modifies this
      ensures (View(), reply) == Step(old(View()), k, replacerSize, Access(f))
    {
      if f > replacerSize {
        return Invalid;
      }
      var e := if f in entries then entries[f] else Entry(0, true);
      var newCount := e.hits + 1;
      entries := entries[f := e.(hits := newCount)];
      if newCount == 1 {
        currSize := currSize + 1;
        hist := [f] + hist;
      } else if newCount == k {
        hist := EraseAtPosition(hist, f);
        cache := [f] + cache;
      } else if newCount > k {
        cache := EraseAtPosition(cache, f);
        cache := [f] + cache;
      }
      return Done;
    }

    method SetEvictable(f: Frame, b: bool) returns (reply: Reply)
      modifies this
      ensures (View(), reply) == Step(old(View()), k, replacerSize, Op.SetEvictable(f, b))
    {
      if f > replacerSize {
        return Invalid;
      }
      if f !in entries {
        return Done;
      }
      if b && !entries[f].evictable {
        currSize := currSize + 1;
      } else if entries[f].evictable && !b {
        currSize := currSize - 1;
      }
      entries := entries[f := entries[f].(evictable := b)];
      return Done;
    }

    method Remove(f: Frame) returns (reply: Reply)
      modifies this
      ensures (View(), reply) == Step(old(View()), k, replacerSize, Op.Remove(f))
    {
      if f !in entries {
        return Done;
      }
      if !entries[f].evictable {
        return Invalid;
      }
      if entries[f].hits < k {
        hist := EraseAtPosition(hist, f);
      } else {
        cache := EraseAtPosition(cache, f);
      }
      currSize := currSize - 1;
      entries := entries - {f};
      return Done;
    }

    /** The size counter is the number of evictable frames. */
    method Size(ghost h: History) returns (n: nat)
      requires Matches(View(), h, k)
      ensures n == |h.evictable|
    {
      n := currSize;
    }
  }

  lemma {:induction false} WithoutAbsent(l: seq<Frame>, f: Frame)
    requires f !in l
    ensures Without(l, f) == l
  {
    if l != [] { WithoutAbsent(l[1..], f); }
  }
}
