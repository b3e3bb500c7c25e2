/**
 The tables of fs/vfs.c that hold the dentry cache: hash chains of 1024 buckets, the list of
 children that every directory dentry heads, and 512 slots of remembered absences, one name
 each. The hash is any function of the key.
 */
module DcacheTables {
  import opened Machine
  import opened SinglyLinked
  import opened TmpfsTree
  import opened Dcache
  import opened Namespace

  const BUCKETS: nat := 1024
  const SLOTS: nat := 512

  /** The child list of a dentry, which is empty until a child is added. */
  function Kids(subdirs: map<nat, seq<nat>>, p: nat): seq<nat>
  {
    if p in subdirs then subdirs[p] else []
  }

  /** The child list of every dentry holds the hashed dentries below it, each once. */
  ghost predicate Children(subdirs: map<nat, seq<nat>>, c: Cache)
  {
    && (forall d | d in c.hashed :: Keyed(c, d) && d in Kids(subdirs, KeyOf(c, d).dir))
    && (forall p, d | d in Kids(subdirs, p) :: d in c.hashed && Keyed(c, d) && KeyOf(c, d).dir == p)
    && (forall p :: Distinct(Kids(subdirs, p)))
  }

  lemma ChildrenFrame(subdirs: map<nat, seq<nat>>, c: Cache, c': Cache)
    requires Children(subdirs, c) && c'.hashed == c.hashed
    requires forall d | d in c.hashed && Keyed(c, d) :: Keyed(c', d) && KeyOf(c', d) == KeyOf(c, d)
    ensures Children(subdirs, c')
  {
  }

  /** One dentry goes on the list of its parent, or off it. */
  lemma ListChanged(subdirs: map<nat, seq<nat>>, c: Cache, subdirs': map<nat, seq<nat>>, c': Cache, d: nat, p: nat)
    requires Children(subdirs, c) && c' == c.(hashed := c'.hashed) && Keyed(c, d) && KeyOf(c, d).dir == p
    requires forall x :: x in c'.hashed && x != d <==> x in c.hashed && x != d
    requires forall q | q != p :: Kids(subdirs', q) == Kids(subdirs, q)
    requires forall x :: x in Kids(subdirs', p) <==> (x in Kids(subdirs, p) && x != d) || (x == d && d in c'.hashed)
    requires Distinct(Kids(subdirs', p))
    ensures Children(subdirs', c')
  {
    forall x | x in c'.hashed
      ensures Keyed(c', x) && x in Kids(subdirs', KeyOf(c', x).dir)
    {
      assert x != d ==> x in Kids(subdirs, KeyOf(c, x).dir);
    }
    forall q, x | x in Kids(subdirs', q)
      ensures x in c'.hashed && Keyed(c', x) && KeyOf(c', x).dir == q
    {
      assert x != d ==> x in Kids(subdirs, q);
    }
    forall q
      ensures Distinct(Kids(subdirs', q))
    {
      assert q != p ==> Kids(subdirs', q) == Kids(subdirs, q);
    }
  }

  lemma ChildAdded(subdirs: map<nat, seq<nat>>, c: Cache, d: nat, p: nat)
    requires Children(subdirs, c) && d !in c.hashed && Keyed(c, d) && KeyOf(c, d).dir == p
    ensures Children(subdirs[p := [d] + Kids(subdirs, p)], c.(hashed := c.hashed + {d}))
  {
    var subdirs' := subdirs[p := [d] + Kids(subdirs, p)];
    DistinctCons(d, Kids(subdirs, p));
    assert Kids(subdirs', p) == [d] + Kids(subdirs, p);
    ListChanged(subdirs, c, subdirs', c.(hashed := c.hashed + {d}), d, p);
  }

  lemma ChildRemoved(subdirs: map<nat, seq<nat>>, c: Cache, d: nat, p: nat)
    requires Children(subdirs, c) && Keyed(c, d) && KeyOf(c, d).dir == p
    ensures Children(subdirs[p := Without(Kids(subdirs, p), d)], c.(hashed := c.hashed - {d}))
  {
    var subdirs' := subdirs[p := Without(Kids(subdirs, p), d)];
    WithoutOne(Kids(subdirs, p), d);
    assert Kids(subdirs', p) == Without(Kids(subdirs, p), d);
    ListChanged(subdirs, c, subdirs', c.(hashed := c.hashed - {d}), d, p);
  }

  class Tables {
    var dent: map<nat, Dentry>
    var subdirs: map<nat, seq<nat>>
    var next: nat                     // dentry addresses from here on are unused
    const bucket: array<seq<nat>>
    const slot: array<Option<Key>>
    const hash: Key -> nat
    const negHash: Key -> nat
    ghost var cache: Cache

    function BucketOf(k: Key): (b: nat)
      ensures b < BUCKETS
    {
      hash(k) % BUCKETS
    }

    function SlotOf(k: Key): (i: nat)
      ensures i < SLOTS
    {
      negHash(k) % SLOTS
    }

    ghost predicate Chains()
      reads this, bucket
    {
      && bucket.Length == BUCKETS
      && (forall d | d in cache.hashed :: Keyed(cache, d) && d in bucket[BucketOf(KeyOf(cache, d))])
      && (forall b, d | 0 <= b < BUCKETS && d in bucket[b] ::
            d in cache.hashed && Keyed(cache, d) && BucketOf(KeyOf(cache, d)) == b)
      && (forall b | 0 <= b < BUCKETS :: Distinct(bucket[b]))
    }

    ghost predicate Slots()
      reads this, slot
    {
      && slot.Length == SLOTS
      && (forall k | k in cache.neg :: slot[SlotOf(k)] == Some(k))
      && (forall i | 0 <= i < SLOTS && slot[i].Some? :: slot[i].value in cache.neg && SlotOf(slot[i].value) == i)
    }

    ghost predicate Valid()
      reads this, bucket, slot
    {
      && dent == cache.dent && (forall d | d in dent :: d < next)
      && Chains() && Slots() && Children(subdirs, cache)
    }

    /** Empty tables, with the dentry of the mount's root. */
    constructor (hash: Key -> nat, negHash: Key -> nat, inode: nat)
      ensures Valid() && fresh(bucket) && fresh(slot)
      ensures cache == Cache(0, map[0 := Dentry(None, "/", Some(inode))], {}, {})
    {
      this.hash, this.negHash := hash, negHash;
      dent := map[0 := Dentry(None, "/", Some(inode))];
      subdirs := map[];
      next := 1;
      bucket := new seq<nat>[BUCKETS](_ => []);
      slot := new Option<Key>[SLOTS](_ => None);
      cache := Cache(0, map[0 := Dentry(None, "/", Some(inode))], {}, {});
    }

    /** dcache_lookup. */
    method Lookup(k: Key) returns (r: Option<nat>)
      requires Valid()
      ensures r.Some? ==> r.value in cache.hashed && Keyed(cache, r.value) && KeyOf(cache, r.value) == k
      ensures r.None? ==> NoHit(cache, k)
    {
      var b := BucketOf(k);
      var chain := bucket[b];
      var i := 0;
      while i < |chain|
        invariant 0 <= i <= |chain|
        invariant forall j | 0 <= j < i :: Keyed(cache, chain[j]) && KeyOf(cache, chain[j]) != k
      {
        assert chain[i] in bucket[b];
        assert Keyed(cache, chain[i]);
        if dent[chain[i]].parent == Some(k.dir) && dent[chain[i]].name == k.name {
          return Some(chain[i]);
        }
        i := i + 1;
      }
      r := None;
    }

    /** neg_dcache_lookup. */
    method NegLookup(k: Key) returns (hit: bool)
      requires Valid()
      ensures hit <==> k in cache.neg
    {
      hit := slot[SlotOf(k)] == Some(k);
    }

    /** neg_dcache_add: the slot forgets the name it held. */
    method NegAdd(k: Key) returns (ghost lost: set<Key>)
      requires Valid()
      modifies this`cache, slot
      ensures Valid() && cache == Remembered(old(cache), k, lost)
    {
      lost := if slot[SlotOf(k)].Some? then {slot[SlotOf(k)].value} else {};
      slot[SlotOf(k)] := Some(k);
      ChildrenFrame(subdirs, cache, Remembered(cache, k, lost));
      cache := Remembered(cache, k, lost);
    }

    /** neg_dcache_invalidate of one name. */
    method NegInvalidate(k: Key)
      requires Valid()
      modifies this`cache, slot
      ensures Valid() && cache == old(cache).(neg := old(cache).neg - {k})
    {
      if slot[SlotOf(k)] == Some(k) {
        slot[SlotOf(k)] := None;
      }
      ChildrenFrame(subdirs, cache, cache.(neg := cache.neg - {k}));
      cache := cache.(neg := cache.neg - {k});
    }

    /** dcache_add of a dentry that is not in the cache. */
    method Add(d: nat)
      requires Valid() && d !in cache.hashed
      modifies this`cache, this`subdirs, bucket, slot
      ensures Valid() && cache == Added(old(cache), d)
    {
      if d !in dent || dent[d].parent.None? || dent[d].inode.None? {
        return;
      }
      var k := Key(dent[d].parent.value, dent[d].name);
      var b := BucketOf(k);
      NegInvalidate(k);
      ChildAdded(subdirs, cache, d, k.dir);
      subdirs := subdirs[k.dir := [d] + Kids(subdirs, k.dir)];
      assert d !in bucket[b];
      DistinctCons(d, bucket[b]);
      bucket[b] := [d] + bucket[b];
      cache := cache.(hashed := cache.hashed + {d});
    }

    /** dcache_remove. */
    method Remove(d: nat)
      requires Valid()
      modifies this`cache, this`subdirs, bucket, slot
      ensures Valid() && cache == Removed(old(cache), d)
    {
      if d !in dent || dent[d].parent.None? {
        return;
      }
      var k := Key(dent[d].parent.value, dent[d].name);
      var b := BucketOf(k);
      NegInvalidate(k);
      ChildRemoved(subdirs, cache, d, k.dir);
      var kids := Unlinked(Kids(subdirs, k.dir), d);
      subdirs := subdirs[k.dir := kids];
      var chain := Unlinked(bucket[b], d);
      WithoutOne(bucket[b], d);
      bucket[b] := chain;
      cache := cache.(hashed := cache.hashed - {d});
    }

    /** The loop that unlinks a dentry from a chain or a child list, if it is there. */
    static method Unlinked(chain: seq<nat>, d: nat) returns (r: seq<nat>)
      ensures r == Without(chain, d)
    {
      var i := 0;
      while i < |chain|
        invariant 0 <= i <= |chain|
        invariant Without(chain, d) == chain[..i] + Without(chain[i..], d)
      {
        if chain[i] == d {
          assert Without(chain[i..], d) == chain[i + 1..];
          return chain[..i] + chain[i + 1..];
        }
        assert chain[..i] + [chain[i]] == chain[..i + 1];
        i := i + 1;
      }
      assert chain[..i] == chain;
      r := chain;
    }

    /** Change a dentry that no chain holds. */
    method Set(d: nat, x: Dentry)
      requires Valid() && d in dent && d !in cache.hashed
      modifies this`dent, this`cache
      ensures Valid() && cache == old(cache).(dent := old(cache).dent[d := x])
    {
      dent := dent[d := x];
      ChildrenFrame(subdirs, cache, cache.(dent := cache.dent[d := x]));
      cache := cache.(dent := cache.dent[d := x]);
    }

    /** Forget the inode of a dentry, hashed or not. */
    method Kill(d: nat)
      requires Valid() && d in dent
      modifies this`dent, this`cache
      ensures Valid() && cache == old(cache).(dent := old(cache).dent[d := old(cache).dent[d].(inode := None)])
    {
      dent := dent[d := dent[d].(inode := None)];
      ChildrenFrame(subdirs, cache, cache.(dent := cache.dent[d := cache.dent[d].(inode := None)]));
      cache := cache.(dent := cache.dent[d := cache.dent[d].(inode := None)]);
    }

    /** dcache_alloc. */
    method Alloc(x: Dentry) returns (d: nat)
      requires Valid()
      modifies this`dent, this`cache, this`next
      ensures Valid() && d !in old(cache).dent && d !in old(cache).hashed
      ensures cache == old(cache).(dent := old(cache).dent[d := x])
    {
      d := next;
      next := next + 1;
      dent := dent[d := x];
      ChildrenFrame(subdirs, cache, cache.(dent := cache.dent[d := x]));
      cache := cache.(dent := cache.dent[d := x]);
    }

    /** A new dentry under a key, hashed. */
    method Insert(k: Key, inode: nat) returns (d: nat)
      requires Valid()
      modifies this, bucket, slot
      ensures Valid() && d !in old(cache).dent && cache == Cached(old(cache), d, k, inode)
    {
      d := Alloc(Dentry(Some(k.dir), k.name, Some(inode)));
      Add(d);
    }

    /** What unlink does to the dentry of the removed name. */
    method Forget(d: nat)
      requires Valid() && d in dent
      modifies this, bucket, slot
      ensures Valid() && cache == Dropped(old(cache), d)
    {
      Kill(d);
      Remove(d);
    }

    /** What rename does to the dentries of the source and of the replaced destination. */
    method Relocate(d: nat, k: Key, e: Option<nat>)
      requires Valid() && d in dent
      requires e.Some? ==> e.value in dent && e.value != d && Keyed(cache, e.value) && KeyOf(cache, e.value) == k
      requires Keyed(cache, d) && dent[d].inode.Some?
      modifies this, bucket, slot
      ensures Valid() && cache == Moved(if e.Some? then Dropped(old(cache), e.value) else old(cache), d, k)
    {
      ghost var c := cache;
      var inode := dent[d].inode;
      Remove(d);
      if e.Some? {
        Remove(e.value);
      }
      Set(d, Dentry(Some(k.dir), k.name, inode));
      Add(d);
      if e.Some? {
        Kill(e.value);
        KillLast(c, d, k, e.value);
      }
    }

    /** What the exchange does to the two dentries. */
    method Interchange(d: nat, e: nat)
      requires Valid() && d != e && Keyed(cache, d) && Keyed(cache, e)
      modifies this, bucket, slot
      ensures Valid() && cache == Swapped(old(cache), d, e)
    {
      Remove(d);
      Remove(e);
      var x, y := dent[d], dent[e];
      Set(d, Dentry(y.parent, y.name, x.inode));
      Set(e, Dentry(x.parent, x.name, y.inode));
      Add(d);
      Add(e);
    }

    /** vfs_descends_from. */
    method WalkUp(n: nat, a: nat) returns (below: bool)
      requires Valid()
      ensures below <==> DescendsFrom(cache, n, a, WALK_LIMIT)
    {
      var entry, depth := Some(n), 0;
      while entry.Some? && depth < WALK_LIMIT
        invariant depth <= WALK_LIMIT
        invariant DescendsFrom(cache, n, a, WALK_LIMIT)
                  == (entry.Some? && DescendsFrom(cache, entry.value, a, WALK_LIMIT - depth))
      {
        if entry.value == a {
          return true;
        }
        if entry.value !in dent || dent[entry.value].parent == entry {
          break;
        }
        entry := dent[entry.value].parent;
        depth := depth + 1;
      }
      below := false;
    }
  }

  /** Rename forgets the inode of the replaced dentry last; forgetting it first is the same. */
  lemma KillLast(c: Cache, d: nat, k: Key, e: nat)
    requires Keyed(c, d) && Live(c, d) && Keyed(c, e) && KeyOf(c, e) == k && d != e
    ensures var c1 := Removed(Removed(c, d), e);
            var c2 := Added(c1.(dent := c1.dent[d := Dentry(Some(k.dir), k.name, c.dent[d].inode)]), d);
            c2.(dent := c2.dent[e := c2.dent[e].(inode := None)]) == Moved(Dropped(c, e), d, k)
  {
    var x := Dentry(Some(k.dir), k.name, c.dent[d].inode);
    assert c.dent[d := x][e := c.dent[e].(inode := None)] == c.dent[e := c.dent[e].(inode := None)][d := x];
  }
}
