/**
 The dentry cache and the negative cache of fs/vfs.c, and what it means for them to be
 coherent with the names of the filesystem below. `Cache` is the abstract content; the
 hash chains and the lossy slots that hold it are in DcacheTables.
 */
module Dcache {
  import opened Machine
  import opened TmpfsTree

  /** A cached name. `inode` is the primary node of the file, None for a dead dentry. */
  datatype Dentry = Dentry(parent: Option<nat>, name: string, inode: Option<nat>)

  /** `hashed` are the dentries a lookup can find, `neg` the names remembered as absent.
      The directory of a key is here a dentry. */
  datatype Cache = Cache(root: nat, dent: map<nat, Dentry>, hashed: set<nat>, neg: set<Key>)

  predicate Keyed(c: Cache, d: nat)
  {
    d in c.dent && c.dent[d].parent.Some?
  }

  function KeyOf(c: Cache, d: nat): Key
    requires Keyed(c, d)
  {
    Key(c.dent[d].parent.value, c.dent[d].name)
  }

  /** dcache_add. */
  function Added(c: Cache, d: nat): Cache
  {
    if Keyed(c, d) && c.dent[d].inode.Some?
    then c.(hashed := c.hashed + {d}, neg := c.neg - {KeyOf(c, d)}) else c
  }

  /** dcache_remove. */
  function Removed(c: Cache, d: nat): Cache
  {
    if Keyed(c, d) then c.(hashed := c.hashed - {d}, neg := c.neg - {KeyOf(c, d)}) else c
  }

  /** neg_dcache_add into a slot that may push out other names. */
  function Remembered(c: Cache, k: Key, lost: set<Key>): Cache
  {
    c.(neg := c.neg - lost + {k})
  }

  // ---------------------------------------------------------------------- coherence

  /** What tmpfs_lookup answers for every name: the inode under it. */
  type Look = map<Key, nat>

  /** A live directory has one name at most, and the root has none. */
  ghost predicate Tidy(look: Look, dirs: set<nat>, root: nat)
  {
    && root in dirs
    && (forall k | k in look :: k.dir in dirs && look[k] != root)
    && (forall k, j | k in look && j in look && look[k] == look[j] && look[k] in dirs :: k == j)
  }

  ghost predicate Live(c: Cache, d: nat)
  {
    d in c.dent && c.dent[d].inode.Some?
  }

  /** The key below a live dentry in terms of nodes. */
  ghost function Below(c: Cache, k: Key): Key
    requires Live(c, k.dir)
  {
    Key(c.dent[k.dir].inode.value, k.name)
  }

  /** A hashed dentry names what the filesystem has under that name. */
  ghost predicate Backed(look: Look, c: Cache, d: nat)
  {
    && Keyed(c, d) && Live(c, d) && d != c.root && Live(c, KeyOf(c, d).dir)
    && Below(c, KeyOf(c, d)) in look
    && look[Below(c, KeyOf(c, d))] == c.dent[d].inode.value
  }

  ghost predicate Absent(look: Look, c: Cache, k: Key)
  {
    k.dir in c.dent && (Live(c, k.dir) ==> Below(c, k) !in look)
  }

  ghost predicate Hashed(look: Look, c: Cache)
  {
    && (forall d | d in c.dent && c.dent[d].inode.Some? && d != c.root :: d in c.hashed)
    && (forall d | d in c.hashed :: Backed(look, c, d))
    && (forall d, e | d in c.hashed && e in c.hashed && Keyed(c, d) && Keyed(c, e) && KeyOf(c, d) == KeyOf(c, e) :: d == e)
  }

  ghost predicate OneDentry(dirs: set<nat>, c: Cache)
  {
    forall d, e | d in c.dent && e in c.dent && c.dent[d].inode.Some? && c.dent[d].inode == c.dent[e].inode
                  && c.dent[d].inode.value in dirs :: d == e
  }

  ghost predicate Coherent(look: Look, dirs: set<nat>, root: nat, c: Cache)
  {
    && c.root in c.dent && c.dent[c.root] == Dentry(None, c.dent[c.root].name, Some(root))
    && Hashed(look, c)
    && (forall k | k in c.neg :: Absent(look, c, k))
    && OneDentry(dirs, c)
  }

  // ------------------------------------------------------------------------- lookup

  /** The answer of a lookup that stops at the caches: a dentry, a known absence, or
      nothing known. */
  datatype Answer = Positive(d: nat) | Negative | Unknown

  ghost predicate Answers(c: Cache, k: Key, a: Answer)
  {
    match a
    case Positive(d) => d in c.hashed && Keyed(c, d) && KeyOf(c, d) == k
    case Negative => k in c.neg && forall d | d in c.hashed && Keyed(c, d) :: KeyOf(c, d) != k
    case Unknown => k !in c.neg && forall d | d in c.hashed && Keyed(c, d) :: KeyOf(c, d) != k
  }

  /** Whatever the caches know is what the filesystem would answer. */
  lemma CachesAgree(look: Look, dirs: set<nat>, root: nat, c: Cache, k: Key, a: Answer)
    requires Coherent(look, dirs, root, c) && Live(c, k.dir) && Answers(c, k, a)
    ensures a.Positive? ==> Below(c, k) in look && c.dent[a.d].inode == Some(look[Below(c, k)])
    ensures a.Negative? ==> Below(c, k) !in look
  {
    if a.Positive? {
      assert Backed(look, c, a.d);
    } else if a.Negative? {
      assert Absent(look, c, k);
    }
  }

  // ------------------------------------------------- what the cache operations keep

  ghost predicate Free(c: Cache, k: Key)
  {
    forall d | d in c.hashed && Keyed(c, d) :: KeyOf(c, d) != k
  }

  ghost predicate NoDentryFor(c: Cache, i: nat)
  {
    forall d | d in c.dent && c.dent[d].inode.Some? :: c.dent[d].inode.value != i
  }

  /** A new dentry under the key, hashed. */
  function Cached(c: Cache, d: nat, k: Key, i: nat): Cache
  {
    Added(c.(dent := c.dent[d := Dentry(Some(k.dir), k.name, Some(i))]), d)
  }

  lemma StillBacked(look: Look, look': Look, c: Cache, c': Cache, e: nat)
    requires Backed(look, c, e) && e in c'.dent && c'.dent[e] == c.dent[e] && c'.root == c.root
    requires KeyOf(c, e).dir in c'.dent && c'.dent[KeyOf(c, e).dir].inode == c.dent[KeyOf(c, e).dir].inode
    requires Below(c, KeyOf(c, e)) in look' && look'[Below(c, KeyOf(c, e))] == look[Below(c, KeyOf(c, e))]
    ensures Backed(look', c', e)
  {
  }

  lemma CachedHashed(look: Look, c: Cache, d: nat, k: Key, i: nat)
    requires Hashed(look, c) && d !in c.dent && d != c.root && Live(c, k.dir) && Free(c, k)
    requires Below(c, k) in look ==> look[Below(c, k)] == i
    ensures Hashed(look[Below(c, k) := i], Cached(c, d, k, i))
  {
    var c' := Cached(c, d, k, i);
    forall e | e in c'.hashed
      ensures Backed(look[Below(c, k) := i], c', e)
    {
      if e != d {
        StillBacked(look, look[Below(c, k) := i], c, c', e);
      }
    }
    forall e, f | e in c'.hashed && f in c'.hashed && Keyed(c', e) && Keyed(c', f) && KeyOf(c', e) == KeyOf(c', f)
      ensures e == f
    {
      assert e != d ==> e in c.hashed && KeyOf(c, e) == KeyOf(c', e);
      assert f != d ==> f in c.hashed && KeyOf(c, f) == KeyOf(c', f);
    }
  }

  /** In the directory behind a key, a name of the key can only be that key. */
  lemma OneKey(dirs: set<nat>, c: Cache, k: Key, j: Key)
    requires OneDentry(dirs, c) && Live(c, k.dir) && Live(c, j.dir) && Below(c, k).dir in dirs
    ensures Below(c, k) == Below(c, j) <==> k == j
  {
  }

  lemma CachedNeg(look: Look, dirs: set<nat>, c: Cache, d: nat, k: Key, i: nat)
    requires (forall j | j in c.neg :: Absent(look, c, j)) && OneDentry(dirs, c)
    requires d !in c.dent && Live(c, k.dir) && Below(c, k).dir in dirs
    ensures var c' := Cached(c, d, k, i);
            forall j | j in c'.neg :: Absent(look[Below(c, k) := i], c', j)
  {
    var c' := Cached(c, d, k, i);
    forall j | j in c'.neg
      ensures Absent(look[Below(c, k) := i], c', j)
    {
      assert Absent(look, c, j);
      if Live(c, j.dir) {
        OneKey(dirs, c, k, j);
      }
    }
  }

  lemma CacheKeeps(look: Look, dirs: set<nat>, dirs': set<nat>, root: nat, c: Cache, d: nat, k: Key, i: nat)
    requires Coherent(look, dirs, root, c) && d !in c.dent && Live(c, k.dir) && Free(c, k) && Below(c, k).dir in dirs
    requires Below(c, k) in look ==> look[Below(c, k)] == i
    requires dirs' <= dirs + {i} && (i in dirs' ==> NoDentryFor(c, i))
    ensures Coherent(look[Below(c, k) := i], dirs', root, Cached(c, d, k, i))
  {
    CachedHashed(look, c, d, k, i);
    CachedNeg(look, dirs, c, d, k, i);
  }

  /** A directory that no hashed dentry names has no dentry at all. */
  lemma UncachedDirectory(look: Look, dirs: set<nat>, root: nat, c: Cache, k: Key)
    requires Tidy(look, dirs, root) && Coherent(look, dirs, root, c) && Live(c, k.dir) && Free(c, k)
    requires Below(c, k) in look && look[Below(c, k)] in dirs
    ensures NoDentryFor(c, look[Below(c, k)])
  {
    forall e | e in c.dent && c.dent[e].inode.Some?
      ensures c.dent[e].inode.value != look[Below(c, k)]
    {
      if e != c.root {
        assert Backed(look, c, e);
        OneKey(dirs, c, k, KeyOf(c, e));
      }
    }
  }

  /** The cache after a lookup that had to ask the filesystem. */
  lemma LookupKeeps(look: Look, dirs: set<nat>, root: nat, c: Cache, d: nat, k: Key)
    requires Tidy(look, dirs, root) && Coherent(look, dirs, root, c)
    requires d !in c.dent && Live(c, k.dir) && Free(c, k) && Below(c, k) in look
    ensures Coherent(look, dirs, root, Cached(c, d, k, look[Below(c, k)]))
    ensures Answers(Cached(c, d, k, look[Below(c, k)]), k, Positive(d))
  {
    var i := look[Below(c, k)];
    if i in dirs {
      UncachedDirectory(look, dirs, root, c, k);
    }
    CacheKeeps(look, dirs, dirs, root, c, d, k, i);
    assert look[Below(c, k) := i] == look;
  }

  lemma RememberKeeps(look: Look, dirs: set<nat>, root: nat, c: Cache, k: Key, lost: set<Key>)
    requires Coherent(look, dirs, root, c) && Live(c, k.dir) && Below(c, k) !in look
    ensures Coherent(look, dirs, root, Remembered(c, k, lost)) && k in Remembered(c, k, lost).neg
  {
    var c' := Remembered(c, k, lost);
    assert Hashed(look, c') by {
      forall d | d in c'.hashed
        ensures Backed(look, c', d)
      {
        StillBacked(look, look, c, c', d);
      }
    }
    forall j | j in c'.neg
      ensures Absent(look, c', j)
    {
      assert j != k ==> Absent(look, c, j);
    }
  }

  /** A dentry whose name was removed: dead and unhashed. */
  function Dropped(c: Cache, d: nat): Cache
    requires d in c.dent
  {
    Removed(c.(dent := c.dent[d := c.dent[d].(inode := None)]), d)
  }

  /** A dentry hashed under another key. */
  function Moved(c: Cache, d: nat, k: Key): Cache
    requires d in c.dent
  {
    var c1 := Removed(c, d);
    Added(c1.(dent := c1.dent[d := Dentry(Some(k.dir), k.name, c.dent[d].inode)]), d)
  }

  /** Two dentries that changed places. */
  function Swapped(c: Cache, d: nat, e: nat): Cache
    requires Keyed(c, d) && Keyed(c, e)
  {
    var c1 := Removed(Removed(c, d), e);
    var c2 := c1.(dent := c1.dent[d := Dentry(c.dent[e].parent, c.dent[e].name, c.dent[d].inode)]
                                 [e := Dentry(c.dent[d].parent, c.dent[d].name, c.dent[e].inode)]);
    Added(Added(c2, d), e)
  }

  /** Two hashed dentries for the same name of the filesystem are one. */
  lemma OneName(look: Look, dirs: set<nat>, root: nat, c: Cache, d: nat, e: nat)
    requires Tidy(look, dirs, root) && Coherent(look, dirs, root, c) && d in c.hashed && e in c.hashed && d != e
    ensures Backed(look, c, d) && Backed(look, c, e)
    ensures Below(c, KeyOf(c, d)) != Below(c, KeyOf(c, e))
  {
    assert Backed(look, c, d) && Backed(look, c, e);
    OneKey(dirs, c, KeyOf(c, d), KeyOf(c, e));
  }

  lemma DropKeeps(look: Look, dirs: set<nat>, dirs': set<nat>, root: nat, c: Cache, d: nat)
    requires Tidy(look, dirs, root) && Coherent(look, dirs, root, c) && d in c.hashed && dirs' <= dirs
    requires Backed(look, c, d) && forall j | j in look :: j.dir != c.dent[d].inode.value
    ensures Coherent(look - {Below(c, KeyOf(c, d))}, dirs', root, Dropped(c, d))
  {
    var c' := Dropped(c, d);
    var look' := look - {Below(c, KeyOf(c, d))};
    forall e | e in c'.hashed
      ensures Backed(look', c', e)
    {
      OneName(look, dirs, root, c, d, e);
      StillBacked(look, look', c, c', e);
    }
    forall e | e in c.hashed && e != d
      ensures Backed(look, c, e)
    {
    }
    forall j | j in c'.neg
      ensures Absent(look', c', j)
    {
      assert Absent(look, c, j);
    }
  }

  lemma MovedHashed(look: Look, dirs: set<nat>, root: nat, c: Cache, d: nat, k: Key, look': Look)
    requires Tidy(look, dirs, root) && Coherent(look, dirs, root, c) && d in c.hashed && Backed(look, c, d)
    requires Live(c, k.dir) && Below(c, k) !in look && Free(c, k)
    requires look' == (look - {Below(c, KeyOf(c, d))})[Below(c, k) := c.dent[d].inode.value]
    ensures Hashed(look', Moved(c, d, k))
  {
    var c' := Moved(c, d, k);
    forall e | e in c'.hashed
      ensures Backed(look', c', e)
    {
      if e != d {
        OneName(look, dirs, root, c, d, e);
        StillBacked(look, look', c, c', e);
      }
    }
    forall e, f | e in c'.hashed && f in c'.hashed && Keyed(c', e) && Keyed(c', f) && KeyOf(c', e) == KeyOf(c', f)
      ensures e == f
    {
      assert e != d ==> e in c.hashed && KeyOf(c, e) == KeyOf(c', e);
      assert f != d ==> f in c.hashed && KeyOf(c, f) == KeyOf(c', f);
    }
  }

  lemma MoveKeeps(look: Look, dirs: set<nat>, root: nat, c: Cache, d: nat, k: Key)
    requires Tidy(look, dirs, root) && Coherent(look, dirs, root, c) && d in c.hashed && Backed(look, c, d)
    requires Live(c, k.dir) && Below(c, k) !in look && Below(c, k).dir in dirs && Free(c, k)
    ensures Coherent((look - {Below(c, KeyOf(c, d))})[Below(c, k) := c.dent[d].inode.value], dirs, root, Moved(c, d, k))
  {
    var c' := Moved(c, d, k);
    var look' := (look - {Below(c, KeyOf(c, d))})[Below(c, k) := c.dent[d].inode.value];
    MovedHashed(look, dirs, root, c, d, k, look');
    forall j | j in c'.neg
      ensures Absent(look', c', j)
    {
      assert Absent(look, c, j);
      if Live(c, j.dir) {
        OneKey(dirs, c, k, j);
      }
    }
  }

  /** c' is c with the places of d and e exchanged. */
  ghost predicate Interchanged(c: Cache, c': Cache, d: nat, e: nat)
  {
    && Keyed(c, d) && Keyed(c, e) && d != e
    && c'.root == c.root && c'.hashed == c.hashed && c'.neg <= c.neg && c'.dent.Keys == c.dent.Keys
    && c'.dent[d] == Dentry(c.dent[e].parent, c.dent[e].name, c.dent[d].inode)
    && c'.dent[e] == Dentry(c.dent[d].parent, c.dent[d].name, c.dent[e].inode)
    && forall f | f in c.dent && f != d && f != e :: c'.dent[f] == c.dent[f]
  }

  lemma SwappedInterchanges(c: Cache, d: nat, e: nat)
    requires Keyed(c, d) && Keyed(c, e) && d != e && d in c.hashed && e in c.hashed && Live(c, d) && Live(c, e)
    ensures Interchanged(c, Swapped(c, d, e), d, e)
  {
  }

  lemma SwapBacked(look: Look, dirs: set<nat>, root: nat, c: Cache, c': Cache, d: nat, e: nat, look': Look, f: nat)
    requires Tidy(look, dirs, root) && Coherent(look, dirs, root, c) && Interchanged(c, c', d, e)
    requires d in c.hashed && e in c.hashed && f in c.hashed && Backed(look, c, d) && Backed(look, c, e)
    requires look' == look[Below(c, KeyOf(c, d)) := c.dent[e].inode.value][Below(c, KeyOf(c, e)) := c.dent[d].inode.value]
    ensures Backed(look', c', f)
  {
    OneName(look, dirs, root, c, d, e);
    if f != d && f != e {
      OneName(look, dirs, root, c, d, f);
      OneName(look, dirs, root, c, e, f);
      StillBacked(look, look', c, c', f);
    }
  }

  lemma SwapUnique(look: Look, c: Cache, c': Cache, d: nat, e: nat, f: nat, g: nat)
    requires Hashed(look, c) && Interchanged(c, c', d, e) && d in c.hashed && e in c.hashed
    requires f in c.hashed && g in c.hashed && Keyed(c', f) && Keyed(c', g) && KeyOf(c', f) == KeyOf(c', g)
    ensures f == g
  {
    assert KeyOf(c', d) == KeyOf(c, e) && KeyOf(c', e) == KeyOf(c, d);
    assert f != d && f != e ==> KeyOf(c', f) == KeyOf(c, f);
    assert g != d && g != e ==> KeyOf(c', g) == KeyOf(c, g);
  }

  lemma SwapHashed(look: Look, dirs: set<nat>, root: nat, c: Cache, c': Cache, d: nat, e: nat, look': Look)
    requires Tidy(look, dirs, root) && Coherent(look, dirs, root, c) && Interchanged(c, c', d, e)
    requires d in c.hashed && e in c.hashed && Backed(look, c, d) && Backed(look, c, e)
    requires look' == look[Below(c, KeyOf(c, d)) := c.dent[e].inode.value][Below(c, KeyOf(c, e)) := c.dent[d].inode.value]
    ensures Hashed(look', c')
  {
    forall f | f in c.hashed
      ensures Backed(look', c', f)
    {
      SwapBacked(look, dirs, root, c, c', d, e, look', f);
    }
    forall f, g | f in c.hashed && g in c.hashed && Keyed(c', f) && Keyed(c', g) && KeyOf(c', f) == KeyOf(c', g)
      ensures f == g
    {
      SwapUnique(look, c, c', d, e, f, g);
    }
  }

  lemma SwapAbsent(look: Look, c: Cache, c': Cache, d: nat, e: nat, look': Look, j: Key)
    requires Interchanged(c, c', d, e) && Backed(look, c, d) && Backed(look, c, e) && Absent(look, c, j)
    requires look'.Keys == look.Keys
    ensures Absent(look', c', j)
  {
  }

  lemma SwapKeeps(look: Look, dirs: set<nat>, root: nat, c: Cache, d: nat, e: nat)
    requires Tidy(look, dirs, root) && Coherent(look, dirs, root, c)
    requires d in c.hashed && e in c.hashed && d != e && Backed(look, c, d) && Backed(look, c, e)
    ensures Coherent(look[Below(c, KeyOf(c, d)) := c.dent[e].inode.value][Below(c, KeyOf(c, e)) := c.dent[d].inode.value],
                     dirs, root, Swapped(c, d, e))
  {
    var look' := look[Below(c, KeyOf(c, d)) := c.dent[e].inode.value][Below(c, KeyOf(c, e)) := c.dent[d].inode.value];
    SwappedInterchanges(c, d, e);
    InterchangeKeeps(look, dirs, root, c, Swapped(c, d, e), d, e, look');
  }

  lemma InterchangeKeeps(look: Look, dirs: set<nat>, root: nat, c: Cache, c': Cache, d: nat, e: nat, look': Look)
    requires Tidy(look, dirs, root) && Coherent(look, dirs, root, c) && Interchanged(c, c', d, e)
    requires d in c.hashed && e in c.hashed && Backed(look, c, d) && Backed(look, c, e)
    requires look' == look[Below(c, KeyOf(c, d)) := c.dent[e].inode.value][Below(c, KeyOf(c, e)) := c.dent[d].inode.value]
    ensures Coherent(look', dirs, root, c')
  {
    SwapHashed(look, dirs, root, c, c', d, e, look');
    forall j | j in c'.neg
      ensures Absent(look', c', j)
    {
      SwapAbsent(look, c, c', d, e, look', j);
    }
  }
}
