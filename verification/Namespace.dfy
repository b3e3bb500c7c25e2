/**
 The VFS operations on a tmpfs mount, each as one step on the name tree and the caches
 above it, and what every run of them keeps: the tree stays a tree with exact reference
 counts, and every lookup through the caches gives what the filesystem itself would.
 */
module Namespace {
  import opened Machine
  import opened TmpfsTree
  import opened Dcache
  import PathResolve

  datatype Ns = Ns(t: Tree, c: Cache)

  /** What tmpfs_lookup answers: the inode under every name, through hard-link stubs. */
  function LookOf(t: Tree): (look: Look)
  {
    map k | k in t.entry :: Resolve(t, t.entry[k])
  }

  ghost predicate Sound(ns: Ns)
  {
    TreeOk(ns.t) && Coherent(LookOf(ns.t), ns.t.dirs, ns.t.root, ns.c)
  }

  // -------------------------------------------------- the tree as the caches see it

  lemma ResolvedDirectory(t: Tree, n: nat)
    requires StubsOk(t, {})
    ensures n in t.target ==> Resolve(t, n) !in t.dirs
  {
    if n in t.target {
      assert Primary(t, t.target[n]);
    }
  }

  lemma TreeTidy(t: Tree)
    requires Settled(t)
    ensures Tidy(LookOf(t), t.dirs, t.root)
  {
    var look := LookOf(t);
    forall k | k in look
      ensures k.dir in t.dirs && look[k] != t.root
    {
      assert t.at[t.entry[k]] == k;
      ResolvedDirectory(t, t.entry[k]);
    }
    forall k, j | k in look && j in look && look[k] == look[j] && look[k] in t.dirs
      ensures k == j
    {
      ResolvedDirectory(t, t.entry[k]);
      ResolvedDirectory(t, t.entry[j]);
      assert t.at[t.entry[k]] == k && t.at[t.entry[j]] == j;
    }
  }

  lemma LookCreate(t: Tree, k: Key, n: nat, dir: bool)
    requires n !in t.target
    ensures LookOf(Create(t, k, n, dir)) == LookOf(t)[k := n]
  {
  }

  lemma LookLink(t: Tree, k: Key, m: nat, n: nat)
    requires Names(t) && n in t.refs && m !in t.refs
    ensures LookOf(Link(t, k, m, n)) == LookOf(t)[k := n]
  {
    assert forall j | j in t.entry :: t.entry[j] in t.at && t.entry[j] != m;
  }

  lemma LookFreed(t: Tree, t': Tree)
    requires OnlyFreed(t, t') && Names(t')
    ensures LookOf(t') == LookOf(t)
  {
    assert forall k | k in t.entry :: t'.entry[k] in t'.at;
  }

  lemma LookRemove(t: Tree, k: Key)
    requires TreeOk(t) && k in t.entry && Empty(t, t.entry[k])
    ensures LookOf(Remove(t, k)) == LookOf(t) - {k}
    ensures Remove(t, k).dirs <= t.dirs && Remove(t, k).root == t.root
  {
    RemoveOk(t, k);
    LookFreed(DropName(t, k), Remove(t, k));
    LookDrop(t, k);
  }

  lemma LookDrop(t: Tree, k: Key)
    requires k in t.entry
    ensures LookOf(DropName(t, k)) == LookOf(t) - {k}
  {
  }

  lemma LookMove(t: Tree, k: Key, k': Key)
    requires k in t.entry
    ensures LookOf(Move(t, k, k')) == (LookOf(t) - {k})[k' := LookOf(t)[k]]
  {
  }

  lemma LookExchange(t: Tree, k: Key, k': Key)
    requires k in t.entry && k' in t.entry
    ensures LookOf(Exchange(t, k, k')) == LookOf(t)[k := LookOf(t)[k']][k' := LookOf(t)[k]]
  {
  }

  lemma LookRelease(t: Tree, n: nat)
    requires TreeOk(t) && n in t.opens
    ensures LookOf(Release(t, n)) == LookOf(t)
    ensures Release(t, n).dirs <= t.dirs && Release(t, n).root == t.root
  {
    ReleaseOk(t, n);
    LookFreed(t.(opens := t.opens - multiset{n}), Release(t, n));
    LookSame(t, t.(opens := t.opens - multiset{n}));
  }

  lemma LookSame(t: Tree, t': Tree)
    requires t'.entry == t.entry && t'.target == t.target
    ensures LookOf(t') == LookOf(t)
  {
  }

  // ----------------------------------------------------------------- climbing dentries

  /** vfs_descends_from: the walk from n towards the root meets a within the given steps. */
  function DescendsFrom(c: Cache, n: nat, a: nat, steps: nat): bool
    decreases steps
  {
    if steps == 0 then false
    else if n == a then true
    else if n !in c.dent || c.dent[n].parent.None? || c.dent[n].parent == Some(n) then false
    else DescendsFrom(c, c.dent[n].parent.value, a, steps - 1)
  }

  const WALK_LIMIT: nat := 4096

  /** A live directory dentry hangs below the dentry of its node's directory. */
  lemma ParentMirrors(ns: Ns, d: nat)
    requires Sound(ns) && Live(ns.c, d) && ns.c.dent[d].inode.value in ns.t.dirs
    ensures var i := ns.c.dent[d].inode.value;
            if d == ns.c.root then i == ns.t.root && i !in ns.t.at && ns.c.dent[d].parent.None?
            else
              && Keyed(ns.c, d) && i in ns.t.at && Live(ns.c, KeyOf(ns.c, d).dir)
              && ns.t.at[i] == Below(ns.c, KeyOf(ns.c, d)) && ns.t.at[i].dir in ns.t.dirs
  {
    var t, c := ns.t, ns.c;
    if d != c.root {
      assert Backed(LookOf(t), c, d);
      ResolvedDirectory(t, t.entry[Below(c, KeyOf(c, d))]);
    }
  }

  /** n is among the first nodes of p. */
  ghost predicate Within(p: seq<nat>, n: nat, steps: nat)
    decreases steps
  {
    steps > 0 && p != [] && (p[0] == n || Within(p[1..], n, steps - 1))
  }

  lemma {:induction false} WithinAll(p: seq<nat>, n: nat, steps: nat)
    requires |p| <= steps
    ensures Within(p, n, steps) <==> n in p
    decreases steps
  {
    if p != [] {
      WithinAll(p[1..], n, steps - 1);
      assert p == [p[0]] + p[1..];
    }
  }

  /** Climbing dentries meets a directory exactly if climbing nodes does, as far as the
      walk goes. */
  lemma {:induction false} ClimbsMirror(ns: Ns, d: nat, a: nat, p: seq<nat>, steps: nat)
    requires Sound(ns) && Live(ns.c, d) && Live(ns.c, a)
    requires ns.c.dent[d].inode.value in ns.t.dirs && ns.c.dent[a].inode.value in ns.t.dirs
    requires Climb(ns.t.at, ns.c.dent[d].inode.value, p)
    ensures DescendsFrom(ns.c, d, a, steps) <==> Within(p, ns.c.dent[a].inode.value, steps)
    decreases steps
  {
    if steps > 0 && d != a {
      OneStepUp(ns, d, a, steps);
      if d != ns.c.root {
        ClimbsMirror(ns, KeyOf(ns.c, d).dir, a, p[1..], steps - 1);
      }
    }
  }

  lemma OneStepUp(ns: Ns, d: nat, a: nat, steps: nat)
    requires Sound(ns) && Live(ns.c, d) && Live(ns.c, a) && d != a && steps > 0
    requires ns.c.dent[d].inode.value in ns.t.dirs
    ensures ns.c.dent[d].inode.value != ns.c.dent[a].inode.value
    ensures if d == ns.c.root then !DescendsFrom(ns.c, d, a, steps) && ns.c.dent[d].inode.value !in ns.t.at
            else
              && Keyed(ns.c, d) && Live(ns.c, KeyOf(ns.c, d).dir) && ns.c.dent[d].inode.value in ns.t.at
              && ns.t.at[ns.c.dent[d].inode.value].dir in ns.t.dirs
              && ns.c.dent[KeyOf(ns.c, d).dir].inode == Some(ns.t.at[ns.c.dent[d].inode.value].dir)
              && DescendsFrom(ns.c, d, a, steps) == DescendsFrom(ns.c, KeyOf(ns.c, d).dir, a, steps - 1)
  {
    ParentMirrors(ns, d);
    SameDirectory(ns, d, a);
    NotItsOwnParent(ns, d);
  }

  lemma SameDirectory(ns: Ns, d: nat, a: nat)
    requires Sound(ns) && Live(ns.c, d) && Live(ns.c, a) && ns.c.dent[d].inode.value in ns.t.dirs
    ensures ns.c.dent[d].inode == ns.c.dent[a].inode <==> d == a
  {
  }

  lemma NotItsOwnParent(ns: Ns, d: nat)
    requires Sound(ns) && Live(ns.c, d) && ns.c.dent[d].inode.value in ns.t.dirs
    ensures ns.c.dent[d].parent != Some(d)
  {
    ParentMirrors(ns, d);
    var i := ns.c.dent[d].inode.value;
    if i in ns.t.at {
      assert Grounded(ns.t.at, ns.t.at[i].dir);
      var p :| Climb(ns.t.at, ns.t.at[i].dir, p);
      NotAboveItself(ns.t.at, i, p);
    }
  }

  // -------------------------------------------------------------------------- the steps

  /** The VFS operations after path resolution. Keys are of dentries. `d` in Lookup, Make
      and LinkTo is a dentry address not in use, `n` a node address not in use, `lost` the
      names that share the slot of the negative cache. `e` in Rename is the dentry of the
      destination, if it exists. */
  datatype Op =
    | Lookup(k: Key, d: nat, lost: set<Key>)
    | Make(k: Key, dir: bool, n: nat, d: nat)
    | LinkTo(src: nat, k: Key, n: nat, d: nat)
    | Delete(x: nat, dir: bool)
    | Rename(x: nat, k: Key, e: Option<nat>, noReplace: bool)
    | Swap(x: nat, y: nat)
    | OpenFile(x: nat)
    | CloseFile(i: nat)

  function Inode(c: Cache, d: nat): Option<nat>
  {
    if d in c.dent then c.dent[d].inode else None
  }

  predicate IsDir(ns: Ns, d: nat)
  {
    Inode(ns.c, d).Some? && Inode(ns.c, d).value in ns.t.dirs
  }

  /** The dentry can be found by a lookup. */
  predicate Found(ns: Ns, d: nat)
  {
    d in ns.c.hashed && Keyed(ns.c, d) && Inode(ns.c, d).Some? && Inode(ns.c, KeyOf(ns.c, d).dir).Some?
  }

  /** The dentry has an inode, and the inode is not freed. */
  predicate Allocated(ns: Ns, d: nat)
  {
    Inode(ns.c, d).Some? && Inode(ns.c, d).value in ns.t.refs
  }

  function NodeKey(ns: Ns, k: Key): Key
    requires Inode(ns.c, k.dir).Some?
  {
    Key(Inode(ns.c, k.dir).value, k.name)
  }

  predicate NoHit(c: Cache, k: Key)
  {
    forall d | d in c.hashed && Keyed(c, d) :: KeyOf(c, d) != k
  }

  /** What a step needs: addresses that are not in use, and dentries that lookups gave. */
  predicate Enabled(ns: Ns, op: Op)
  {
    match op
    case Lookup(k, d, lost) => IsDir(ns, k.dir) && d !in ns.c.dent
    case Make(k, dir, n, d) => IsDir(ns, k.dir) && d !in ns.c.dent && n !in ns.t.refs && NoHit(ns.c, k)
    case LinkTo(src, k, n, d) =>
      IsDir(ns, k.dir) && d !in ns.c.dent && n !in ns.t.refs && NoHit(ns.c, k) && Allocated(ns, src)
    case Delete(x, dir) => Found(ns, x)
    case Rename(x, k, e, noReplace) =>
      && Found(ns, x) && IsDir(ns, k.dir)
      && if e.Some? then Found(ns, e.value) && KeyOf(ns.c, e.value) == k
         else NoHit(ns.c, k) && NodeKey(ns, k) !in ns.t.entry
    case Swap(x, y) => Found(ns, x) && Found(ns, y)
    case OpenFile(x) => Allocated(ns, x)
    case CloseFile(i) => i in ns.t.opens
  }

  /** The part of a lookup behind the caches. */
  function Looked(ns: Ns, k: Key, d: nat, lost: set<Key>): Ns
    requires IsDir(ns, k.dir)
  {
    if !NoHit(ns.c, k) || k in ns.c.neg then ns
    else if NodeKey(ns, k) in ns.t.entry
    then ns.(c := Cached(ns.c, d, k, LookOf(ns.t)[NodeKey(ns, k)]))
    else ns.(c := Remembered(ns.c, k, lost))
  }

  /** vfs_rename_flags_locked without the exchange: the checks in their order, then the
      filesystem, then the caches. */
  function RenameStep(ns: Ns, x: nat, k: Key, e: Option<nat>, noReplace: bool): Ns
    requires Enabled(ns, Op.Rename(x, k, e, noReplace))
  {
    var from, to := NodeKey(ns, KeyOf(ns.c, x)), NodeKey(ns, k);
    if e.Some? && Inode(ns.c, e.value) == Inode(ns.c, x) then ns
    else if IsDir(ns, x) && DescendsFrom(ns.c, k.dir, x, WALK_LIMIT) then ns
    else if noReplace && e.Some? then ns
    else if RenameOutcome(ns.t, from, to) != Done then ns
    else Ns(Renamed(ns.t, from, to), Moved(if e.Some? then Dropped(ns.c, e.value) else ns.c, x, k))
  }

  /** The exchange branch of vfs_rename_flags_locked. */
  function SwapStep(ns: Ns, x: nat, y: nat): Ns
    requires Found(ns, x) && Found(ns, y)
  {
    var from, to := NodeKey(ns, KeyOf(ns.c, x)), NodeKey(ns, KeyOf(ns.c, y));
    if Inode(ns.c, x) == Inode(ns.c, y) then ns
    else if IsDir(ns, x) && DescendsFrom(ns.c, KeyOf(ns.c, y).dir, x, WALK_LIMIT) then ns
    else if IsDir(ns, y) && DescendsFrom(ns.c, KeyOf(ns.c, x).dir, y, WALK_LIMIT) then ns
    else if from !in ns.t.entry || to !in ns.t.entry then ns
    else Ns(Exchange(ns.t, from, to), Swapped(ns.c, x, y))
  }

  function Apply(ns: Ns, op: Op): Ns
    requires Enabled(ns, op)
  {
    match op
    case Lookup(k, d, lost) => Looked(ns, k, d, lost)
    case Make(k, dir, n, d) =>
      if NodeKey(ns, k) in ns.t.entry then ns
      else Ns(Create(ns.t, NodeKey(ns, k), n, dir), Cached(ns.c, d, k, n))
    case LinkTo(src, k, n, d) =>
      var i := Inode(ns.c, src).value;
      if IsDir(ns, src) || NodeKey(ns, k) in ns.t.entry then ns
      else Ns(Link(ns.t, NodeKey(ns, k), n, i), Cached(ns.c, d, k, i))
    case Delete(x, dir) =>
      var k := NodeKey(ns, KeyOf(ns.c, x));
      if RemoveOutcome(ns.t, k, dir) != Done then ns
      else Ns(Remove(ns.t, k), Dropped(ns.c, x))
    case Rename(x, k, e, noReplace) => RenameStep(ns, x, k, e, noReplace)
    case Swap(x, y) => SwapStep(ns, x, y)
    case OpenFile(x) => ns.(t := Open(ns.t, Inode(ns.c, x).value))
    case CloseFile(i) => ns.(t := Release(ns.t, i))
  }

  // -------------------------------------------------------------- what each step keeps

  lemma DirectoryAttached(ns: Ns, d: nat)
    requires Sound(ns) && IsDir(ns, d)
    ensures Attached(ns.t, Inode(ns.c, d).value)
  {
    ParentMirrors(ns, d);
  }

  lemma LookupSound(ns: Ns, k: Key, d: nat, lost: set<Key>)
    requires Sound(ns) && Enabled(ns, Lookup(k, d, lost))
    ensures Sound(Looked(ns, k, d, lost))
  {
    TreeTidy(ns.t);
    var look := LookOf(ns.t);
    if NoHit(ns.c, k) && k !in ns.c.neg {
      if NodeKey(ns, k) in ns.t.entry {
        LookupKeeps(look, ns.t.dirs, ns.t.root, ns.c, d, k);
      } else {
        RememberKeeps(look, ns.t.dirs, ns.t.root, ns.c, k, lost);
      }
    }
  }

  /** A node that does not exist yet is in no dentry. */
  lemma FreshInode(ns: Ns, n: nat)
    requires Sound(ns) && n !in ns.t.refs
    ensures NoDentryFor(ns.c, n)
  {
    forall d | d in ns.c.dent && ns.c.dent[d].inode.Some?
      ensures ns.c.dent[d].inode.value != n
    {
      InodesAllocated(ns, d);
    }
  }

  /** No dentry in the cache refers to a freed inode. */
  lemma InodesAllocated(ns: Ns, d: nat)
    requires Sound(ns) && Inode(ns.c, d).Some?
    ensures Allocated(ns, d)
    ensures Inode(ns.c, d).value !in ns.t.target
  {
    if d != ns.c.root {
      assert Backed(LookOf(ns.t), ns.c, d);
      var n := ns.t.entry[Below(ns.c, KeyOf(ns.c, d))];
      if n in ns.t.target {
        assert Primary(ns.t, ns.t.target[n]);
      }
    }
  }

  lemma MakeSound(ns: Ns, k: Key, dir: bool, n: nat, d: nat)
    requires Sound(ns) && Enabled(ns, Make(k, dir, n, d))
    ensures Sound(Apply(ns, Make(k, dir, n, d)))
  {
    var j := NodeKey(ns, k);
    if j !in ns.t.entry {
      DirectoryAttached(ns, k.dir);
      FreshInode(ns, n);
      CreateOk(ns.t, j, n, dir);
      LookCreate(ns.t, j, n, dir);
      CacheKeeps(LookOf(ns.t), ns.t.dirs, Create(ns.t, j, n, dir).dirs, ns.t.root, ns.c, d, k, n);
    }
  }

  lemma LinkSound(ns: Ns, src: nat, k: Key, n: nat, d: nat)
    requires Sound(ns) && Enabled(ns, LinkTo(src, k, n, d))
    ensures Sound(Apply(ns, LinkTo(src, k, n, d)))
  {
    var j := NodeKey(ns, k);
    var i := Inode(ns.c, src).value;
    if !IsDir(ns, src) && j !in ns.t.entry {
      DirectoryAttached(ns, k.dir);
      InodesAllocated(ns, src);
      LinkOk(ns.t, j, n, i);
      LookLink(ns.t, j, n, i);
      CacheKeeps(LookOf(ns.t), ns.t.dirs, ns.t.dirs, ns.t.root, ns.c, d, k, i);
    }
  }

  lemma DeleteSound(ns: Ns, x: nat, dir: bool)
    requires Sound(ns) && Enabled(ns, Delete(x, dir))
    ensures Sound(Apply(ns, Delete(x, dir)))
  {
    var k := NodeKey(ns, KeyOf(ns.c, x));
    if RemoveOutcome(ns.t, k, dir) == Done {
      TreeTidy(ns.t);
      NothingBelow(ns, x, dir);
      RemoveOk(ns.t, k);
      LookRemove(ns.t, k);
      DropKeeps(LookOf(ns.t), ns.t.dirs, Remove(ns.t, k).dirs, ns.t.root, ns.c, x);
    }
  }

  lemma NothingBelow(ns: Ns, x: nat, dir: bool)
    requires Sound(ns) && Found(ns, x) && RemoveOutcome(ns.t, NodeKey(ns, KeyOf(ns.c, x)), dir) == Done
    ensures Backed(LookOf(ns.t), ns.c, x)
    ensures Empty(ns.t, ns.t.entry[NodeKey(ns, KeyOf(ns.c, x))])
    ensures forall j | j in LookOf(ns.t) :: j.dir != Inode(ns.c, x).value
  {
    assert Backed(LookOf(ns.t), ns.c, x);
    var n := ns.t.entry[NodeKey(ns, KeyOf(ns.c, x))];
    ResolvedDirectory(ns.t, n);
    if n !in ns.t.dirs {
      LeafEmpty(ns.t, n);
      assert Inode(ns.c, x).value !in ns.t.dirs by {
        assert n in ns.t.target ==> Resolve(ns.t, n) !in ns.t.dirs;
      }
      LeafEmpty(ns.t, Inode(ns.c, x).value);
    }
  }

  // ---------------------------------------------------------------------------- rename

  /** The buffers that rename's paths go through, and every path that a symbolic link
      rewrites, have this many bytes. */
  const PATH_BUFFER: nat := 512

  /** ds are the dentries that a lookup of the path visits before the last name, and the key
      is that name in the last of them. */
  ghost predicate Visits(c: Cache, ds: seq<nat>, names: seq<string>, k: Key)
  {
    && names != [] && |ds| == |names|
    && ds[0] == c.root && ds[|ds| - 1] == k.dir && names[|names| - 1] == k.name
    && forall i | 0 < i < |ds| :: ds[i] in c.hashed && Keyed(c, ds[i]) && KeyOf(c, ds[i]) == Key(ds[i - 1], names[i - 1])
  }

  /** The key is where a lookup ends that fits the buffers. */
  ghost predicate ByPath(c: Cache, k: Key)
  {
    exists ds, path :: |path| < PATH_BUFFER && Visits(c, ds, PathResolve.Split(path), k)
  }

  /** The directory is not deeper than vfs_descends_from walks. */
  ghost predicate Shallow(ns: Ns, d: nat)
    requires Inode(ns.c, d).Some?
  {
    forall p | Climb(ns.t.at, Inode(ns.c, d).value, p) :: |p| <= WALK_LIMIT
  }

  lemma VisitedKey(c: Cache, ds: seq<nat>, names: seq<string>, k: Key, j: nat)
    requires Visits(c, ds, names, k) && 0 < j < |ds|
    ensures Keyed(c, ds[j]) && KeyOf(c, ds[j]).dir == ds[j - 1]
  {
  }

  /** The node of a directory on the way has the node before it as its directory. */
  lemma VisitedParent(ns: Ns, d: nat, up: nat)
    requires Sound(ns) && IsDir(ns, d) && Keyed(ns.c, d) && KeyOf(ns.c, d).dir == up
    ensures Inode(ns.c, d).value in ns.t.at && IsDir(ns, up)
    ensures ns.t.at[Inode(ns.c, d).value].dir == Inode(ns.c, up).value
  {
    ParentMirrors(ns, d);
  }

  lemma RootIsTop(ns: Ns)
    requires Sound(ns)
    ensures Inode(ns.c, ns.c.root) == Some(ns.t.root) && ns.t.root !in ns.t.at
  {
  }

  /** A lookup goes down one level for each name at most. */
  lemma {:induction false} VisitsClimb(ns: Ns, ds: seq<nat>, names: seq<string>, k: Key, j: nat, p: seq<nat>)
    requires Sound(ns) && Visits(ns.c, ds, names, k) && j < |ds| && IsDir(ns, ds[j])
    requires Climb(ns.t.at, Inode(ns.c, ds[j]).value, p)
    ensures |p| <= j + 1
    decreases j
  {
    if j == 0 {
      RootIsTop(ns);
    } else {
      VisitedKey(ns.c, ds, names, k, j);
      VisitedParent(ns, ds[j], ds[j - 1]);
      VisitsClimb(ns, ds, names, k, j - 1, p[1..]);
    }
  }

  /** What is found by a path that fits the buffers is within the reach of the ancestor walk. */
  lemma ByPathShallow(ns: Ns, k: Key)
    requires Sound(ns) && IsDir(ns, k.dir) && ByPath(ns.c, k)
    ensures Shallow(ns, k.dir)
  {
    var ds, path :| |path| < PATH_BUFFER && Visits(ns.c, ds, PathResolve.Split(path), k);
    PathResolve.ComponentsFit(path);
    forall p | Climb(ns.t.at, Inode(ns.c, k.dir).value, p)
      ensures |p| <= WALK_LIMIT
    {
      VisitsClimb(ns, ds, PathResolve.Split(path), k, |ds| - 1, p);
    }
  }

  lemma {:induction false} ClimbDirectories(t: Tree, d: nat, p: seq<nat>)
    requires Names(t) && d in t.dirs && Climb(t.at, d, p)
    ensures forall m | m in p :: m in t.dirs
    decreases |p|
  {
    if d in t.at {
      ClimbDirectories(t, t.at[d].dir, p[1..]);
      assert p == [d] + p[1..];
    }
  }

  /** A dentry found by lookup stands for the node under its name. */
  lemma FoundNode(ns: Ns, x: nat)
    requires Sound(ns) && Found(ns, x)
    ensures Backed(LookOf(ns.t), ns.c, x)
    ensures var k := NodeKey(ns, KeyOf(ns.c, x));
            && k in ns.t.entry && Inode(ns.c, x).value == Resolve(ns.t, ns.t.entry[k])
            && (ns.t.entry[k] in ns.t.dirs <==> IsDir(ns, x))
            && (IsDir(ns, x) ==> ns.t.entry[k] == Inode(ns.c, x).value)
  {
    assert Backed(LookOf(ns.t), ns.c, x);
    ResolvedDirectory(ns.t, ns.t.entry[NodeKey(ns, KeyOf(ns.c, x))]);
  }

  /** The check of vfs_rename_flags_locked on dentries keeps the nodes a tree. */
  lemma RenameCheckSuffices(ns: Ns, x: nat, d: nat)
    requires Sound(ns) && Found(ns, x) && IsDir(ns, d) && Shallow(ns, d)
    requires !(IsDir(ns, x) && DescendsFrom(ns.c, d, x, WALK_LIMIT))
    ensures NodeKey(ns, KeyOf(ns.c, x)) in ns.t.entry
    ensures CanHang(ns.t, ns.t.entry[NodeKey(ns, KeyOf(ns.c, x))], Inode(ns.c, d).value)
  {
    var i := Inode(ns.c, d).value;
    FoundNode(ns, x);
    assert Grounded(ns.t.at, i);
    var p :| Climb(ns.t.at, i, p);
    if IsDir(ns, x) {
      ClimbsMirror(ns, d, x, p, WALK_LIMIT);
      WithinAll(p, Inode(ns.c, x).value, WALK_LIMIT);
    } else {
      ClimbDirectories(ns.t, i, p);
    }
  }

  lemma MoveSound(ns: Ns, x: nat, k: Key)
    requires Sound(ns) && Found(ns, x) && IsDir(ns, k.dir) && NoHit(ns.c, k)
    requires NodeKey(ns, KeyOf(ns.c, x)) in ns.t.entry && NodeKey(ns, k) !in ns.t.entry
    requires CanHang(ns.t, ns.t.entry[NodeKey(ns, KeyOf(ns.c, x))], NodeKey(ns, k).dir)
    ensures Sound(Ns(Move(ns.t, NodeKey(ns, KeyOf(ns.c, x)), NodeKey(ns, k)), Moved(ns.c, x, k)))
  {
    var from, to := NodeKey(ns, KeyOf(ns.c, x)), NodeKey(ns, k);
    TreeTidy(ns.t);
    FoundNode(ns, x);
    DirectoryAttached(ns, k.dir);
    MoveOk(ns.t, from, to);
    LookMove(ns.t, from, to);
    MoveKeeps(LookOf(ns.t), ns.t.dirs, ns.t.root, ns.c, x, k);
  }

  lemma DeletedStill(ns: Ns, x: nat, k: Key, e: nat, dir: bool)
    requires Sound(ns) && Found(ns, x) && Found(ns, e) && x != e && KeyOf(ns.c, e) == k && IsDir(ns, k.dir)
    requires RemoveOutcome(ns.t, NodeKey(ns, k), dir) == Done
    ensures k.dir != e && NodeKey(ns, KeyOf(ns.c, x)) != NodeKey(ns, k)
    ensures KeyOf(ns.c, x).dir != e
  {
    NothingBelow(ns, e, dir);
    FoundNode(ns, x);
    TreeTidy(ns.t);
    OneName(LookOf(ns.t), ns.t.dirs, ns.t.root, ns.c, x, e);
  }

  /** The state after the destination of a rename has been removed. */
  lemma Vacated(ns: Ns, x: nat, k: Key, e: nat, dir: bool)
    requires Sound(ns) && Found(ns, x) && Found(ns, e) && x != e && KeyOf(ns.c, e) == k && IsDir(ns, k.dir)
    requires RemoveOutcome(ns.t, NodeKey(ns, k), dir) == Done
    requires NodeKey(ns, KeyOf(ns.c, x)) in ns.t.entry
    requires CanHang(ns.t, ns.t.entry[NodeKey(ns, KeyOf(ns.c, x))], NodeKey(ns, k).dir)
    ensures var from, to := NodeKey(ns, KeyOf(ns.c, x)), NodeKey(ns, k);
            var ns1 := Ns(Remove(ns.t, to), Dropped(ns.c, e));
            && Found(ns1, x) && IsDir(ns1, k.dir) && NoHit(ns1.c, k)
            && NodeKey(ns1, KeyOf(ns1.c, x)) == from && NodeKey(ns1, k) == to
            && from in ns1.t.entry && to !in ns1.t.entry && CanHang(ns1.t, ns1.t.entry[from], to.dir)
  {
    var from, to := NodeKey(ns, KeyOf(ns.c, x)), NodeKey(ns, k);
    var ns1 := Ns(Remove(ns.t, to), Dropped(ns.c, e));
    DeletedStill(ns, x, k, e, dir);
    NothingBelow(ns, e, dir);
    VacatedTree(ns.t, from, to);
    VacatedCache(LookOf(ns.t), ns.c, x, e, k, KeyOf(ns.c, x).dir);
  }

  lemma VacatedTree(t: Tree, from: Key, to: Key)
    requires TreeOk(t) && from in t.entry && to in t.entry && from != to && Empty(t, t.entry[to])
    requires CanHang(t, t.entry[from], to.dir)
    ensures var t' := Remove(t, to);
            && from in t'.entry && to !in t'.entry && t'.entry[from] == t.entry[from] && to.dir in t'.dirs
            && CanHang(t', t.entry[from], to.dir)
  {
    RemoveOk(t, to);
    VacatedName(t, to);
    StillHangs(t, from, to, Remove(t, to));
  }

  lemma VacatedCache(look: Look, c: Cache, x: nat, e: nat, k: Key, p: nat)
    requires Hashed(look, c) && x in c.hashed && e in c.hashed && x != e && Keyed(c, e) && KeyOf(c, e) == k
    requires k.dir != e && p != e && p in c.dent && k.dir in c.dent && x in c.dent
    ensures var c' := Dropped(c, e);
            && x in c'.hashed && c'.dent[x] == c.dent[x] && c'.dent[k.dir] == c.dent[k.dir] && c'.dent[p] == c.dent[p]
            && NoHit(c', k)
  {
    var c' := Dropped(c, e);
    forall d | d in c'.hashed && Keyed(c', d)
      ensures KeyOf(c', d) != k
    {
      assert d in c.hashed && KeyOf(c, d) == KeyOf(c', d);
    }
  }

  /** rename(2) keeps the tree, the counts and the caches sound. */
  lemma RenameSound(ns: Ns, x: nat, k: Key, e: Option<nat>, noReplace: bool)
    requires Sound(ns) && Enabled(ns, Op.Rename(x, k, e, noReplace)) && ByPath(ns.c, k)
    ensures Sound(RenameStep(ns, x, k, e, noReplace))
  {
    var from, to := NodeKey(ns, KeyOf(ns.c, x)), NodeKey(ns, k);
    ByPathShallow(ns, k);
    if RenameStep(ns, x, k, e, noReplace) != ns {
      RenameCheckSuffices(ns, x, k.dir);
      if e.Some? {
        FoundNode(ns, e.value);
        var dir := ns.t.entry[from] in ns.t.dirs;
        Vacated(ns, x, k, e.value, dir);
        DeleteSound(ns, e.value, dir);
        MoveSound(Ns(Remove(ns.t, to), Dropped(ns.c, e.value)), x, k);
      } else {
        MoveSound(ns, x, k);
      }
    }
  }

  lemma SwapSound(ns: Ns, x: nat, y: nat)
    requires Sound(ns) && Found(ns, x) && Found(ns, y)
    requires ByPath(ns.c, KeyOf(ns.c, x)) && ByPath(ns.c, KeyOf(ns.c, y))
    ensures Sound(SwapStep(ns, x, y))
  {
    var from, to := NodeKey(ns, KeyOf(ns.c, x)), NodeKey(ns, KeyOf(ns.c, y));
    if SwapStep(ns, x, y) != ns {
      TreeTidy(ns.t);
      FoundNode(ns, x);
      FoundNode(ns, y);
      OneName(LookOf(ns.t), ns.t.dirs, ns.t.root, ns.c, x, y);
      ParentIsDir(ns, x);
      ParentIsDir(ns, y);
      ByPathShallow(ns, KeyOf(ns.c, x));
      ByPathShallow(ns, KeyOf(ns.c, y));
      RenameCheckSuffices(ns, x, KeyOf(ns.c, y).dir);
      RenameCheckSuffices(ns, y, KeyOf(ns.c, x).dir);
      ExchangeOk(ns.t, from, to);
      LookExchange(ns.t, from, to);
      SwapKeeps(LookOf(ns.t), ns.t.dirs, ns.t.root, ns.c, x, y);
    }
  }

  lemma ParentIsDir(ns: Ns, x: nat)
    requires Sound(ns) && Found(ns, x)
    ensures IsDir(ns, KeyOf(ns.c, x).dir)
  {
    FoundNode(ns, x);
    TreeTidy(ns.t);
  }

  /** The ancestor check of rename and of the exchange is exact: it refuses to hang a directory
      under a key exactly if the nodes would not be a tree afterwards. */
  lemma RenameCheckExact(ns: Ns, x: nat, k: Key)
    requires Sound(ns) && Found(ns, x) && IsDir(ns, x) && IsDir(ns, k.dir) && ByPath(ns.c, k)
    ensures DescendsFrom(ns.c, k.dir, x, WALK_LIMIT)
            <==> !Acyclic(ns.t.at[Inode(ns.c, x).value := NodeKey(ns, k)])
  {
    var i, to := Inode(ns.c, x).value, NodeKey(ns, k);
    assert Grounded(ns.t.at, to.dir);
    var p :| Climb(ns.t.at, to.dir, p);
    ByPathShallow(ns, k);
    ClimbsMirror(ns, k.dir, x, p, WALK_LIMIT);
    WithinAll(p, i, WALK_LIMIT);
    if i in p {
      HangBelowItselfLoops(ns.t.at, i, to, p);
    } else {
      HangKeepsAcyclic(ns.t.at, i, to, p);
    }
  }

  // -------------------------------------------------------------------------- every run

  lemma OpenSound(ns: Ns, x: nat)
    requires Sound(ns) && Allocated(ns, x)
    ensures Sound(ns.(t := Open(ns.t, Inode(ns.c, x).value)))
  {
    var t' := Open(ns.t, Inode(ns.c, x).value);
    InodesAllocated(ns, x);
    OpenOk(ns.t, Inode(ns.c, x).value);
    LookSame(ns.t, t');
  }

  lemma CloseSound(ns: Ns, i: nat)
    requires Sound(ns) && i in ns.t.opens
    ensures Sound(ns.(t := Release(ns.t, i)))
  {
    ReleaseOk(ns.t, i);
    LookRelease(ns.t, i);
    FewerDirectories(LookOf(ns.t), ns.t.dirs, Release(ns.t, i).dirs, ns.t.root, ns.c);
  }

  lemma FewerDirectories(look: Look, dirs: set<nat>, dirs': set<nat>, root: nat, c: Cache)
    requires Coherent(look, dirs, root, c) && dirs' <= dirs
    ensures Coherent(look, dirs', root, c)
  {
  }

  /** A rename is of names that paths lead to. */
  ghost predicate Named(ns: Ns, op: Op)
    requires Enabled(ns, op)
  {
    match op
    case Rename(x, k, e, noReplace) => ByPath(ns.c, k)
    case Swap(x, y) => ByPath(ns.c, KeyOf(ns.c, x)) && ByPath(ns.c, KeyOf(ns.c, y))
    case _ => true
  }

  lemma StepSound(ns: Ns, op: Op)
    requires Sound(ns) && Enabled(ns, op) && Named(ns, op)
    ensures Sound(Apply(ns, op))
  {
    match op
    case Lookup(k, d, lost) => LookupSound(ns, k, d, lost);
    case Make(k, dir, n, d) => MakeSound(ns, k, dir, n, d);
    case LinkTo(src, k, n, d) => LinkSound(ns, src, k, n, d);
    case Delete(x, dir) => DeleteSound(ns, x, dir);
    case Rename(x, k, e, noReplace) => RenameSound(ns, x, k, e, noReplace);
    case Swap(x, y) => SwapSound(ns, x, y);
    case OpenFile(x) => OpenSound(ns, x);
    case CloseFile(i) => CloseSound(ns, i);
  }

  ghost predicate Runnable(ns: Ns, ops: seq<Op>)
    decreases |ops|
  {
    ops == [] || (Enabled(ns, ops[0]) && Named(ns, ops[0]) && Runnable(Apply(ns, ops[0]), ops[1..]))
  }

  function Run(ns: Ns, ops: seq<Op>): Ns
    requires Runnable(ns, ops)
    decreases |ops|
  {
    if ops == [] then ns else Run(Apply(ns, ops[0]), ops[1..])
  }

  lemma {:induction false} RunSound(ns: Ns, ops: seq<Op>)
    requires Sound(ns) && Runnable(ns, ops)
    ensures Sound(Run(ns, ops))
    decreases |ops|
  {
    if ops != [] {
      StepSound(ns, ops[0]);
      RunSound(Apply(ns, ops[0]), ops[1..]);
    }
  }

  /** After every run, whatever the hash and the negative cache say about a name in a
      directory is what tmpfs itself would say. */
  lemma EveryRunAgrees(ns: Ns, ops: seq<Op>, k: Key, a: Answer)
    requires Sound(ns) && Runnable(ns, ops)
    requires IsDir(Run(ns, ops), k.dir) && Answers(Run(ns, ops).c, k, a)
    ensures var s := Run(ns, ops);
            var j := NodeKey(s, k);
            && (a.Positive? ==> j in s.t.entry && Inode(s.c, a.d) == Some(Resolve(s.t, s.t.entry[j])))
            && (a.Negative? ==> j !in s.t.entry)
  {
    var s := Run(ns, ops);
    RunSound(ns, ops);
    CachesAgree(LookOf(s.t), s.t.dirs, s.t.root, s.c, k, a);
  }

  /** After every run, the count of every node is the references that exist, and a stub
      stands for a node that is not freed. */
  lemma EveryRunCounts(ns: Ns, ops: seq<Op>)
    requires Sound(ns) && Runnable(ns, ops)
    ensures var t := Run(ns, ops).t;
            && (forall n | n in t.refs :: t.refs[n] == Owed(t, n) && t.refs[n] > 0)
            && (forall m | m in t.target :: Primary(t, t.target[m]))
            && (forall d | d in Run(ns, ops).c.hashed :: Allocated(Run(ns, ops), d))
  {
    RunSound(ns, ops);
    var s := Run(ns, ops);
    forall d | d in s.c.hashed
      ensures Allocated(s, d)
    {
      assert Backed(LookOf(s.t), s.c, d);
      InodesAllocated(s, d);
    }
  }

  /** After every run, every node with a name hangs by a way of distinct directories from
      the root. */
  lemma EveryRunTree(ns: Ns, ops: seq<Op>, n: nat) returns (p: seq<nat>)
    requires Sound(ns) && Runnable(ns, ops) && n in Run(ns, ops).t.at
    ensures var t := Run(ns, ops).t;
            Climb(t.at, n, p) && p[|p| - 1] == t.root && forall m | m in p[1..] :: m in t.dirs && m != n
  {
    RunSound(ns, ops);
    var t := Run(ns, ops).t;
    assert Grounded(t.at, n);
    p :| Climb(t.at, n, p);
    ClimbDirectories(t, t.at[n].dir, p[1..]);
    NotAboveItself(t.at, n, p[1..]);
    EndsAtRoot(t, n, p);
  }

  lemma {:induction false} EndsAtRoot(t: Tree, n: nat, p: seq<nat>)
    requires Names(t) && Attached(t, n) && Climb(t.at, n, p)
    ensures p[|p| - 1] == t.root
    decreases |p|
  {
    if n in t.at {
      assert Attached(t, t.at[n].dir);
      EndsAtRoot(t, t.at[n].dir, p[1..]);
    }
  }

  /** After every run the cached dentries form a tree that mirrors the nodes: each hangs below
      the root dentry, no directory dentry has two of a name, and the dentry of a directory
      hangs below the dentry of the node's own directory. */
  lemma EveryRunMirrors(ns: Ns, ops: seq<Op>, d: nat) returns (steps: nat)
    requires Sound(ns) && Runnable(ns, ops) && d in Run(ns, ops).c.hashed
    ensures var s := Run(ns, ops);
            && Keyed(s.c, d) && DescendsFrom(s.c, d, s.c.root, steps)
            && (forall e | e in s.c.hashed && Keyed(s.c, e) && KeyOf(s.c, e) == KeyOf(s.c, d) :: e == d)
            && (IsDir(s, d) ==>
                  && Inode(s.c, d).value in s.t.at
                  && Inode(s.c, KeyOf(s.c, d).dir) == Some(s.t.at[Inode(s.c, d).value].dir))
  {
    RunSound(ns, ops);
    MirrorsHere(Run(ns, ops), d);
    steps := HangsFromRoot(Run(ns, ops), d);
  }

  lemma MirrorsHere(s: Ns, d: nat)
    requires Sound(s) && d in s.c.hashed
    ensures Keyed(s.c, d) && forall e | e in s.c.hashed && Keyed(s.c, e) && KeyOf(s.c, e) == KeyOf(s.c, d) :: e == d
    ensures IsDir(s, d) ==>
              && Inode(s.c, d).value in s.t.at
              && Inode(s.c, KeyOf(s.c, d).dir) == Some(s.t.at[Inode(s.c, d).value].dir)
  {
    assert Backed(LookOf(s.t), s.c, d);
    if IsDir(s, d) {
      ParentMirrors(s, d);
    }
  }

  lemma HangsFromRoot(s: Ns, d: nat) returns (steps: nat)
    requires Sound(s) && d in s.c.hashed
    ensures DescendsFrom(s.c, d, s.c.root, steps)
  {
    assert Backed(LookOf(s.t), s.c, d);
    TreeTidy(s.t);
    steps := ReachesRoot(s, KeyOf(s.c, d).dir);
    if s.c.dent[d].parent != Some(d) {
      steps := steps + 1;
    }
  }

  lemma ReachesRoot(ns: Ns, d: nat) returns (steps: nat)
    requires Sound(ns) && IsDir(ns, d)
    ensures DescendsFrom(ns.c, d, ns.c.root, steps)
  {
    var i := Inode(ns.c, d).value;
    DirectoryAttached(ns, d);
    assert Grounded(ns.t.at, i);
    var p :| Climb(ns.t.at, i, p);
    EndsAtRoot(ns.t, i, p);
    steps := |p|;
    ClimbsMirror(ns, d, ns.c.root, p, steps);
    WithinAll(p, ns.t.root, steps);
  }
}
