/**
 The extendible hash table (src/container/hash/extendible_hash_table.cpp).

 Directory slots share buckets: a bucket of local depth d is reached from every
 slot that agrees with it on the low d bits. The table is proved against a plain
 map, kept in the ghost field `contents`.
 */
module ExtendibleHash {
  import opened Collections
  import opened Bits

  // ---------------------------------------------------- association lists

  predicate HasKey<K(==), V>(l: seq<(K, V)>, k: K) {
    exists x :: 0 <= x < |l| && l[x].0 == k
  }

  ghost predicate DistinctKeys<K, V>(l: seq<(K, V)>) {
    forall x, y :: 0 <= x < y < |l| ==> l[x].0 != l[y].0
  }

  ghost function KeySet<K, V>(l: seq<(K, V)>): set<K> {
    set x | 0 <= x < |l| :: l[x].0
  }

  lemma {:induction false} KeySetSize<K, V>(l: seq<(K, V)>)
    requires DistinctKeys(l)
    ensures |KeySet(l)| == |l|
  {
    if l != [] {
      var n := |l| - 1;
      var l' := l[..n];
      KeySetSize(l');
      assert KeySet(l) == KeySet(l') + {l[n].0};
      assert l[n].0 !in KeySet(l');
    }
  }

  lemma RemoveAt<K, V>(l: seq<(K, V)>, x: nat)
    requires x < |l| && DistinctKeys(l)
    ensures DistinctKeys(l[..x] + l[x + 1..])
    ensures forall p :: p in l[..x] + l[x + 1..] <==> p in l && p.0 != l[x].0
  {
    var l' := l[..x] + l[x + 1..];
    assert forall y :: 0 <= y < |l'| ==> l'[y] == l[if y < x then y else y + 1];
    forall p | p in l && p.0 != l[x].0 ensures p in l' {
      var y :| 0 <= y < |l| && l[y] == p;
      assert l'[if y < x then y else y - 1] == p;
    }
  }

  class Bucket<K(==, !new), V(!new)> {
    const size: nat
    const depth: nat
    var list: seq<(K, V)>

    constructor (size: nat, depth: nat)
      ensures this.size == size && this.depth == depth && list == []
    {
      this.size, this.depth, list := size, depth, [];
    }

    predicate IsFull()
      reads this
    {
      |list| == size
    }

    method Find(k: K) returns (r: Option<V>)
      requires DistinctKeys(list)
      ensures r.Some? ==> (k, r.value) in list
      ensures r.None? ==> !HasKey(list, k)
    {
      var x := 0;
      while x < |list|
        invariant 0 <= x <= |list|
        invariant forall y :: 0 <= y < x ==> list[y].0 != k
      {
        if list[x].0 == k {
          assert list[x] == (k, list[x].1);
          return Some(list[x].1);
        }
        x := x + 1;
      }
      return None;
    }

    method Remove(k: K) returns (found: bool)
      requires DistinctKeys(list)
      modifies this
      ensures found == old(HasKey(list, k))
      ensures DistinctKeys(list) && |list| <= old(|list|)
      ensures forall p :: p in list <==> p in old(list) && p.0 != k
    {
      var x := 0;
      while x < |list|
        invariant 0 <= x <= |list| && list == old(list)
        invariant forall y :: 0 <= y < x ==> list[y].0 != k
      {
        if list[x].0 == k {
          RemoveAt(list, x);
          list := list[..x] + list[x + 1..];
          return true;
        }
        x := x + 1;
      }
      return false;
    }

    /** A full bucket refuses; otherwise the key is updated in place or appended. */
    method Insert(k: K, v: V) returns (ok: bool)
      requires DistinctKeys(list)
      modifies this
      ensures ok == !old(IsFull())
      ensures !ok ==> list == old(list)
      ensures ok ==> DistinctKeys(list)
      ensures ok ==> forall p :: p in list <==> p == (k, v) || (p in old(list) && p.0 != k)
      ensures ok ==> |list| == old(|list|) + if old(HasKey(list, k)) then 0 else 1
    {
      if IsFull() {
        return false;
      }
      var x := 0;
      while x < |list|
        invariant 0 <= x <= |list| && list == old(list)
        invariant forall y :: 0 <= y < x ==> list[y].0 != k
      {
        if list[x].0 == k {
          list := list[x := (k, v)];
          assert list[x] == (k, v);
          assert forall y :: 0 <= y < |list| && y != x ==> list[y] == old(list)[y];
          return true;
        }
        x := x + 1;
      }
      list := list + [(k, v)];
      assert list[|list| - 1] == (k, v);
      assert forall y :: 0 <= y < |old(list)| ==> list[y] == old(list)[y];
      return true;
    }
  }

  /** The keys of m that agree with k on the low d bits of the hash. */
  ghost function SameBits<K(!new), V>(m: map<K, V>, hash: K -> nat, k: K, d: nat): set<K> {
    set k' | k' in m && Low(hash(k'), d) == Low(hash(k), d)
  }

  /** Fewer than n keys of m agree with k on the low d bits. */
  ghost predicate Sparse<K(!new), V>(m: map<K, V>, hash: K -> nat, n: nat, k: K, d: nat) {
    |SameBits(m, hash, k, d)| < n
  }

  lemma SparseMonotone<K(!new), V>(m: map<K, V>, hash: K -> nat, n: nat, k: K, d: nat, e: nat)
    requires d <= e && Sparse(m, hash, n, k, d)
    ensures Sparse(m, hash, n, k, e)
  {
    forall k' | k' in SameBits(m, hash, k, e) ensures k' in SameBits(m, hash, k, d) {
      LowMonotone(hash(k'), hash(k), d, e);
    }
    SubsetSize(SameBits(m, hash, k, e), SameBits(m, hash, k, d));
  }

  lemma {:induction false} HashesBounded<K(!new)>(keys: set<K>, hash: K -> nat) returns (n: nat)
    ensures forall k :: k in keys ==> hash(k) <= n
  {
    if keys == {} {
      n := 0;
    } else {
      var k := Pick(keys);
      var n' := HashesBounded(keys - {k}, hash);
      n := if n' < hash(k) then hash(k) else n';
    }
  }

  /** A key whose hash differs from every stored one can always be inserted. */
  lemma FreshHashIsSparse<K(!new), V>(m: map<K, V>, hash: K -> nat, n: nat, k: K)
    requires 1 <= n && forall k' :: k' in m ==> hash(k') != hash(k)
    ensures exists d :: Sparse(m, hash, n, k, d)
  {
    var d := HashesBounded(m.Keys + {k}, hash);
    Pow2Exceeds(d);
    LowOfSmall(hash(k), d);
    forall k' | k' in m ensures Low(hash(k'), d) != Low(hash(k), d) {
      LowOfSmall(hash(k'), d);
    }
    assert SameBits(m, hash, k, d) == {};
    assert Sparse(m, hash, n, k, d);
  }

  /** The slot of a full bucket's twin: position x with bit d set to the given value. */
  lemma SlotWithBit(x: nat, d: nat, g: nat, bit: bool) returns (i: nat)
    requires d < g
    ensures i < Pow2(g) && Low(i, d) == Low(x, d) && Bit(i, d) == bit
  {
    var l := Low(x, d);
    i := if bit then l + Pow2(d) else l;
    Pow2Increases(d + 1, g);
    LowLow(x, d, d);
    LowShift(l, d, d);
    DivModUnique(i, Pow2(d), if bit then 1 else 0, l);
  }

  /** The distinct buckets of a directory. */
  ghost function Slots<T>(d: seq<T>): set<T> {
    set i | 0 <= i < |d| :: d[i]
  }

  lemma SlotsOfDoubled<T>(d: seq<T>)
    ensures Slots(d + d) == Slots(d)
  {
    forall x ensures x in Slots(d + d) <==> x in Slots(d) {
      if x in Slots(d) {
        var i :| 0 <= i < |d| && d[i] == x;
        assert (d + d)[i] == x;
      }
    }
  }

  /** Redirecting every slot of b to b0 or b1, each at least once, trades b for the two. */
  lemma SlotsOfSplit<T>(d: seq<T>, d': seq<T>, b: T, b0: T, b1: T, i0: nat, i1: nat)
    requires |d'| == |d| && i0 < |d| && i1 < |d| && b in d
    requires forall i :: 0 <= i < |d| ==> if d[i] == b then d'[i] == b0 || d'[i] == b1 else d'[i] == d[i]
    requires d'[i0] == b0 && d'[i1] == b1
    requires b0 !in d && b1 !in d && b0 != b1
    ensures |Slots(d')| == |Slots(d)| + 1
  {
    forall c | c in Slots(d) && c != b ensures c in Slots(d') {
      var i :| 0 <= i < |d| && d[i] == c;
      assert d'[i] == c;
    }
    assert b0 in Slots(d') && b1 in Slots(d');
    assert Slots(d') == Slots(d) - {b} + {b0, b1};
    var x :| 0 <= x < |d| && d[x] == b;
    assert b in Slots(d);
  }

  class ExtendibleHashTable<K(==, !new), V(!new)> {
    const bucketSize: nat
    const hash: K -> nat
    var globalDepth: nat
    var numBuckets: nat
    var dir: seq<Bucket<K, V>>
    ghost var contents: map<K, V>

    function IndexOf(k: K): nat
      reads this
    {
      Low(hash(k), globalDepth)
    }

    ghost predicate BucketOk(b: Bucket<K, V>, i: nat)
      reads this, b
    {
      && b.size == bucketSize && b.depth <= globalDepth
      && |b.list| <= b.size && DistinctKeys(b.list)
      && forall p :: p in b.list ==> Low(hash(p.0), b.depth) == Low(i, b.depth)
    }

    /** Slots share a bucket exactly when they agree on its local-depth low bits. */
    ghost predicate Sharing()
      reads this, dir
    {
      forall i, j :: 0 <= i < |dir| && 0 <= j < |dir| ==>
        (dir[i] == dir[j] <==> Low(i, dir[i].depth) == Low(j, dir[i].depth))
    }

    /** The map and the buckets hold the same pairs, each key where its hash says. */
    ghost predicate Stores()
      reads this, dir
    {
      && |dir| == Pow2(globalDepth)
      && forall k, v :: (k, v) in dir[IndexOf(k)].list <==> k in contents && contents[k] == v
    }

    ghost predicate Valid()
      reads this, dir
    {
      && |dir| == Pow2(globalDepth)
      && (forall i :: 0 <= i < |dir| ==> BucketOk(dir[i], i))
      && Sharing()
      && Stores()
      && numBuckets == |Slots(dir)|
    }

    constructor (bucketSize: nat, hash: K -> nat)
      ensures Valid() && contents == map[] && fresh(dir)
      ensures this.bucketSize == bucketSize && this.hash == hash
      ensures globalDepth == 0 && numBuckets == 1 && |dir| == 1 && dir[0].depth == 0 && dir[0].list == []
    {
      this.bucketSize, this.hash := bucketSize, hash;
      globalDepth, numBuckets := 0, 1;
      contents := map[];
      var b := new Bucket(bucketSize, 0);
      dir := [b];
      new;
      assert Slots(dir) == {b} by { assert dir[0] in Slots(dir); }
    }

    method Find(k: K) returns (r: Option<V>)
      requires Valid()
      ensures r == if k in contents then Some(contents[k]) else None
    {
      var b := dir[IndexOf(k)];
      HasKeyIffStored(k);
      r := b.Find(k);
    }

    method Remove(k: K) returns (found: bool)
      requires Valid()
      modifies this`contents, dir[IndexOf(k)]
      ensures Valid() && dir == old(dir) && globalDepth == old(globalDepth)
      ensures found == (k in old(contents))
      ensures contents == old(contents) - {k}
    {
      var b := dir[IndexOf(k)];
      HasKeyIffStored(k);
      found := b.Remove(k);
      contents := contents - {k};
      forall k', v ensures (k', v) in dir[IndexOf(k')].list <==> k' in contents && contents[k'] == v {
        if dir[IndexOf(k')] != b {
          assert dir[IndexOf(k')].list == old(dir[IndexOf(k')].list);
        }
      }
    }

    lemma HasKeyIffStored(k: K)
      requires Valid()
      ensures HasKey(dir[IndexOf(k)].list, k) <==> k in contents
    {
      var l := dir[IndexOf(k)].list;
      if HasKey(l, k) {
        var x :| 0 <= x < |l| && l[x].0 == k;
        assert (k, l[x].1) in l;
      }
      if k in contents {
        assert (k, contents[k]) in l;
      }
    }

    // ------------------------------------------------------------- growing

    /** Slot i of the doubled directory is slot i, or i - 2^g, of the old one. */
    lemma DoubledSlot(x: nat)
      ensures Low(x, globalDepth + 1) == Low(x, globalDepth) ||
              Low(x, globalDepth + 1) == Low(x, globalDepth) + Pow2(globalDepth)
    {
      LowSplit(x, globalDepth);
    }

    /** Every slot of the doubled directory has a twin with the same bucket, and they agree on its bits. */
    lemma Twin(i: nat) returns (j: nat)
      requires Valid() && i < 2 * |dir|
      ensures j < |dir| && (i == j || i == j + |dir|) && (dir + dir)[i] == dir[j]
      ensures Low(i, dir[j].depth) == Low(j, dir[j].depth)
      ensures BucketOk(dir[j], j)
    {
      j := if i < |dir| then i else i - |dir|;
      assert BucketOk(dir[j], j);
      if |dir| <= i {
        LowShift(j, globalDepth, dir[j].depth);
      }
    }

    lemma DoubledBuckets(i: nat)
      requires Valid() && i < 2 * |dir|
      ensures BucketOk((dir + dir)[i], i)
    {
      var j := Twin(i);
    }

    lemma DoubledSharing(i: nat, j: nat)
      requires Valid() && i < 2 * |dir| && j < 2 * |dir|
      ensures var d := dir + dir; d[i] == d[j] <==> Low(i, d[i].depth) == Low(j, d[i].depth)
    {
      var x := Twin(i);
      var y := Twin(j);
      assert dir[x] == dir[y] <==> Low(x, dir[x].depth) == Low(y, dir[x].depth);
      TwinsAgree(i, j, x, y);
    }

    /** Two slots agree on the bits of a bucket exactly when their twins do. */
    lemma TwinsAgree(i: nat, j: nat, x: nat, y: nat)
      requires Valid() && x < |dir| && y < |dir| && dir[x].depth <= globalDepth
      requires i == x || i == x + |dir|
      requires j == y || j == y + |dir|
      ensures Low(i, dir[x].depth) == Low(j, dir[x].depth) <==> Low(x, dir[x].depth) == Low(y, dir[x].depth)
    {
      LowShift(x, globalDepth, dir[x].depth);
      LowShift(y, globalDepth, dir[x].depth);
    }

    lemma DoubledIndex(k: K)
      requires Valid()
      ensures Low(hash(k), globalDepth + 1) < 2 * |dir|
      ensures (dir + dir)[Low(hash(k), globalDepth + 1)] == dir[IndexOf(k)]
    {
      DoubledSlot(hash(k));
    }

    method CopySlots() returns (grown: seq<Bucket<K, V>>)
      ensures grown == dir + dir
    {
      var capacity := |dir|;
      grown := dir;
      var i := 0;
      while i < capacity
        invariant 0 <= i <= capacity && grown == dir + dir[..i]
      {
        assert dir[..i + 1] == dir[..i] + [dir[i]];
        grown := grown + [dir[i]];
        i := i + 1;
      }
      assert dir[..i] == dir;
    }

    method DoubleDirectory()
      requires Valid()
      modifies this`dir, this`globalDepth
      ensures Valid() && dir == old(dir) + old(dir) && globalDepth == old(globalDepth) + 1
      ensures forall k :: dir[IndexOf(k)] == old(dir[IndexOf(k)])
    {
      var grown := CopySlots();
      forall i | 0 <= i < |grown| ensures BucketOk(grown[i], i) {
        DoubledBuckets(i);
      }
      forall i, j | 0 <= i < |grown| && 0 <= j < |grown|
        ensures grown[i] == grown[j] <==> Low(i, grown[i].depth) == Low(j, grown[i].depth)
      {
        DoubledSharing(i, j);
      }
      forall k ensures grown[Low(hash(k), globalDepth + 1)] == dir[IndexOf(k)] {
        DoubledIndex(k);
      }
      SlotsOfDoubled(dir);
      dir := grown;
      globalDepth := globalDepth + 1;
    }

    /** Move the items of b by bit d of their hash; no insertion is refused, so no item is lost. */
    method Distribute(b: Bucket<K, V>, b0: Bucket<K, V>, b1: Bucket<K, V>, d: nat)
      requires b != b0 && b != b1 && b0 != b1
      requires b0.list == [] && b1.list == [] && b0.size == b.size && b1.size == b.size
      requires DistinctKeys(b.list) && |b.list| <= b.size
      modifies b0, b1
      ensures |b0.list| + |b1.list| == |b.list|
      ensures DistinctKeys(b0.list) && DistinctKeys(b1.list)
      ensures forall p :: p in b0.list <==> p in b.list && !Bit(hash(p.0), d)
      ensures forall p :: p in b1.list <==> p in b.list && Bit(hash(p.0), d)
    {
      var items := b.list;
      var x := 0;
      while x < |items|
        invariant 0 <= x <= |items| && b.list == items
        invariant |b0.list| + |b1.list| == x
        invariant DistinctKeys(b0.list) && DistinctKeys(b1.list)
        invariant forall p :: p in b0.list <==> p in items[..x] && !Bit(hash(p.0), d)
        invariant forall p :: p in b1.list <==> p in items[..x] && Bit(hash(p.0), d)
      {
        var item := items[x];
        assert items[..x + 1] == items[..x] + [item];
        assert forall p :: p in items[..x] ==> p.0 != item.0;
        assert forall y :: 0 <= y < |b0.list| ==> b0.list[y] in b0.list;
        assert forall y :: 0 <= y < |b1.list| ==> b1.list[y] in b1.list;
        if Bit(hash(item.0), d) {
          var _ := b1.Insert(item.0, item.1);
        } else {
          var _ := b0.Insert(item.0, item.1);
        }
        x := x + 1;
      }
      assert items[..x] == items;
    }

    /** The directory after a split: the slots of b go to b0 or b1 by their bit d. */
    ghost predicate Redirected(dir': seq<Bucket<K, V>>, b: Bucket<K, V>, b0: Bucket<K, V>, b1: Bucket<K, V>)
      reads this
    {
      && |dir'| == |dir|
      && forall i :: 0 <= i < |dir| ==>
           dir'[i] == if dir[i] != b then dir[i] else if Bit(i, b.depth) then b1 else b0
    }

    /** b0 and b1 hold the items of b, parted by bit b.depth of the hash. */
    ghost predicate Parts(b: Bucket<K, V>, b0: Bucket<K, V>, b1: Bucket<K, V>)
      reads this, b, b0, b1
    {
      && b0 != b && b1 != b && b0 != b1
      && b0.size == b.size && b1.size == b.size && b0.depth == b.depth + 1 && b1.depth == b.depth + 1
      && |b0.list| <= b.size && |b1.list| <= b.size
      && DistinctKeys(b0.list) && DistinctKeys(b1.list)
      && (forall p :: p in b0.list <==> p in b.list && !Bit(hash(p.0), b.depth))
      && (forall p :: p in b1.list <==> p in b.list && Bit(hash(p.0), b.depth))
    }

    lemma SplitKeepsBuckets(dir': seq<Bucket<K, V>>, b: Bucket<K, V>, b0: Bucket<K, V>, b1: Bucket<K, V>)
      requires Valid() && Parts(b, b0, b1) && Redirected(dir', b, b0, b1) && b.depth < globalDepth
      ensures forall i :: 0 <= i < |dir'| ==> BucketOk(dir'[i], i)
    {
      forall i | 0 <= i < |dir'| ensures BucketOk(dir'[i], i) {
        assert BucketOk(dir[i], i);
        forall p | p in dir'[i].list ensures Low(hash(p.0), dir'[i].depth) == Low(i, dir'[i].depth) {
          LowStep(hash(p.0), i, b.depth);
        }
      }
    }

    lemma SplitKeepsSharing(dir': seq<Bucket<K, V>>, b: Bucket<K, V>, b0: Bucket<K, V>, b1: Bucket<K, V>)
      requires Valid() && Parts(b, b0, b1) && Redirected(dir', b, b0, b1)
      requires b0 !in dir && b1 !in dir
      ensures forall i, j :: 0 <= i < |dir'| && 0 <= j < |dir'| ==>
                (dir'[i] == dir'[j] <==> Low(i, dir'[i].depth) == Low(j, dir'[i].depth))
    {
      forall i, j | 0 <= i < |dir'| && 0 <= j < |dir'|
        ensures dir'[i] == dir'[j] <==> Low(i, dir'[i].depth) == Low(j, dir'[i].depth)
      {
        LowStep(i, j, b.depth);
        assert dir[i] == dir[j] <==> Low(i, dir[i].depth) == Low(j, dir[i].depth);
        assert dir[i] in dir && dir[j] in dir;
      }
    }

    lemma SplitKeepsStores(dir': seq<Bucket<K, V>>, b: Bucket<K, V>, b0: Bucket<K, V>, b1: Bucket<K, V>)
      requires Valid() && Parts(b, b0, b1) && Redirected(dir', b, b0, b1) && b.depth < globalDepth
      ensures forall k, v :: (k, v) in dir'[IndexOf(k)].list <==> k in contents && contents[k] == v
    {
      forall k, v ensures (k, v) in dir'[IndexOf(k)].list <==> k in contents && contents[k] == v {
        BitLow(hash(k), globalDepth, b.depth);
        assert (k, v) in dir[IndexOf(k)].list <==> k in contents && contents[k] == v;
      }
    }

    lemma SplitCountsBuckets(dir': seq<Bucket<K, V>>, b: Bucket<K, V>, b0: Bucket<K, V>, b1: Bucket<K, V>)
      requires Valid() && b in dir && Parts(b, b0, b1) && Redirected(dir', b, b0, b1) && b.depth < globalDepth
      requires b0 !in dir && b1 !in dir
      ensures |Slots(dir')| == numBuckets + 1
    {
      var x :| 0 <= x < |dir| && dir[x] == b;
      var i0 := SlotWithBit(x, b.depth, globalDepth, false);
      var i1 := SlotWithBit(x, b.depth, globalDepth, true);
      assert dir[x] == dir[i0] && dir[x] == dir[i1];
      SlotsOfSplit(dir, dir', b, b0, b1, i0, i1);
    }

    /** The loop that points the slots of b at its two halves. */
    method Redirect(b: Bucket<K, V>, b0: Bucket<K, V>, b1: Bucket<K, V>) returns (dir': seq<Bucket<K, V>>)
      requires b0 != b && b1 != b
      ensures Redirected(dir', b, b0, b1)
    {
      dir' := dir;
      var i := 0;
      while i < |dir|
        invariant 0 <= i <= |dir| && |dir'| == |dir|
        invariant forall j :: 0 <= j < i ==>
                    dir'[j] == if dir[j] != b then dir[j] else if Bit(j, b.depth) then b1 else b0
        invariant forall j :: i <= j < |dir| ==> dir'[j] == dir[j]
      {
        if dir'[i] == b {
          dir' := dir'[i := if Bit(i, b.depth) then b1 else b0];
        }
        i := i + 1;
      }
    }

    method Split(b: Bucket<K, V>)
      requires Valid() && b in dir && b.depth < globalDepth
      modifies this`dir, this`numBuckets
      ensures Valid() && globalDepth == old(globalDepth)
      ensures forall c :: c in dir ==> c in old(dir) || fresh(c)
      ensures forall k :: old(dir[IndexOf(k)]) == b ==> dir[IndexOf(k)].depth == b.depth + 1
    {
      var b0 := new Bucket(bucketSize, b.depth + 1);
      var b1 := new Bucket(bucketSize, b.depth + 1);
      BucketIsOk(b);
      Distribute(b, b0, b1, b.depth);
      var redirected := Redirect(b, b0, b1);
      InstallSplit(redirected, b, b0, b1);
    }

    lemma BucketIsOk(b: Bucket<K, V>)
      requires Valid() && b in dir
      ensures b.size == bucketSize && DistinctKeys(b.list) && |b.list| <= b.size
    {
      var x :| 0 <= x < |dir| && dir[x] == b;
      assert BucketOk(dir[x], x);
    }

    method InstallSplit(dir': seq<Bucket<K, V>>, b: Bucket<K, V>, b0: Bucket<K, V>, b1: Bucket<K, V>)
      requires Valid() && b in dir && b.depth < globalDepth && b0 !in dir && b1 !in dir
      requires Parts(b, b0, b1) && Redirected(dir', b, b0, b1)
      modifies this`dir, this`numBuckets
      ensures Valid() && dir == dir'
    {
      SplitKeepsBuckets(dir', b, b0, b1);
      SplitKeepsSharing(dir', b, b0, b1);
      SplitKeepsStores(dir', b, b0, b1);
      SplitCountsBuckets(dir', b, b0, b1);
      dir := dir';
      numBuckets := numBuckets + 1;
    }

    // ----------------------------------------------------------- inserting

    /** The bucket of k holds exactly the stored keys that agree with k on its local-depth bits. */
    lemma BucketHoldsSameBits(k: K)
      requires Valid()
      ensures KeySet(dir[IndexOf(k)].list) == SameBits(contents, hash, k, dir[IndexOf(k)].depth)
      ensures dir[IndexOf(k)].IsFull() <==> !Sparse(contents, hash, bucketSize, k, dir[IndexOf(k)].depth)
    {
      var b := dir[IndexOf(k)];
      var d := b.depth;
      assert BucketOk(b, IndexOf(k));
      LowLow(hash(k), globalDepth, d);
      forall k' ensures k' in KeySet(b.list) <==> k' in SameBits(contents, hash, k, d) {
        LowLow(hash(k'), globalDepth, d);
        if k' in KeySet(b.list) {
          var x :| 0 <= x < |b.list| && b.list[x].0 == k';
          assert b.list[x] in b.list;
          assert dir[IndexOf(k')] == b;
          assert (k', b.list[x].1) in dir[IndexOf(k')].list;
        }
        if k' in SameBits(contents, hash, k, d) {
          assert dir[IndexOf(k)] == dir[IndexOf(k')];
          assert (k', contents[k']) in b.list;
          var x :| 0 <= x < |b.list| && b.list[x] == (k', contents[k']);
          assert b.list[x].0 == k';
        }
      }
      KeySetSize(b.list);
    }

    /**
     The split loop ends exactly when some number of low bits tells the new key
     apart from all but fewer than bucketSize stored keys. If there is none, the
     bucket of the key is full in every valid table with these contents, so the
     loop guard never fails.
     */
    lemma OtherwiseAlwaysFull(k: K)
      requires Valid() && !exists d :: Sparse(contents, hash, bucketSize, k, d)
      ensures dir[IndexOf(k)].IsFull()
    {
      BucketHoldsSameBits(k);
    }

    lemma FullIsShallow(k: K, bound: nat)
      requires Valid() && Sparse(contents, hash, bucketSize, k, bound) && dir[IndexOf(k)].IsFull()
      ensures dir[IndexOf(k)].depth < bound
    {
      BucketHoldsSameBits(k);
      if bound <= dir[IndexOf(k)].depth { SparseMonotone(contents, hash, bucketSize, k, bound, dir[IndexOf(k)].depth); }
    }

    /** One round of the split loop. */
    method SplitBucketOf(k: K)
      requires Valid()
      modifies this`dir, this`numBuckets, this`globalDepth
      ensures Valid() && globalDepth >= old(globalDepth)
      ensures dir[IndexOf(k)].depth == old(dir[IndexOf(k)].depth) + 1
      ensures forall c :: c in dir ==> c in old(dir) || fresh(c)
    {
      var target := dir[IndexOf(k)];
      assert BucketOk(target, IndexOf(k));
      if globalDepth == target.depth {
        DoubleDirectory();
      }
      Split(target);
    }

    /** The split loop. */
    method MakeRoom(k: K)
      requires Valid()
      requires exists d :: Sparse(contents, hash, bucketSize, k, d)
      modifies this`dir, this`numBuckets, this`globalDepth
      ensures Valid() && !dir[IndexOf(k)].IsFull() && globalDepth >= old(globalDepth)
      ensures forall c :: c in dir ==> c in old(dir) || fresh(c)
    {
      ghost var bound: nat :| Sparse(contents, hash, bucketSize, k, bound);
      while dir[IndexOf(k)].IsFull()
        invariant Valid() && globalDepth >= old(globalDepth)
        invariant forall c :: c in dir ==> c in old(dir) || fresh(c)
        decreases bound - dir[IndexOf(k)].depth
      {
        FullIsShallow(k, bound);
        SplitBucketOf(k);
      }
    }

    method Insert(k: K, v: V)
      requires Valid()
      requires exists d :: Sparse(contents, hash, bucketSize, k, d)
      modifies this, dir
      ensures Valid() && contents == old(contents)[k := v]
      ensures globalDepth >= old(globalDepth)
      ensures forall c :: c in dir ==> c in old(dir) || fresh(c)
    {
      MakeRoom(k);
      assert dir[IndexOf(k)] in dir;
      InsertIntoBucket(k, v);
    }

    /** The last step of `Insert`, once the bucket of the key has room. */
    method InsertIntoBucket(k: K, v: V)
      requires Valid() && !dir[IndexOf(k)].IsFull()
      modifies this`contents, dir[IndexOf(k)]
      ensures Valid() && contents == old(contents)[k := v]
    {
      var b := dir[IndexOf(k)];
      assert BucketOk(b, IndexOf(k));
      LowLow(hash(k), globalDepth, b.depth);
      var _ := b.Insert(k, v);
      contents := contents[k := v];
      forall i | 0 <= i < |dir| ensures BucketOk(dir[i], i) {
        assert old(BucketOk(dir[i], i));
      }
      forall k', v' ensures (k', v') in dir[IndexOf(k')].list <==> k' in contents && contents[k'] == v' {
        if dir[IndexOf(k')] != b {
          assert dir[IndexOf(k')].list == old(dir[IndexOf(k')].list);
        }
      }
    }
  }
}
