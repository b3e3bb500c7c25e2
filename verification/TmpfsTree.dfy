/**
 A tmpfs mount as a tree of names: which node every (directory, name) holds, where every
 node hangs, which nodes are hard-link stubs, and the reference count of every node. The
 operations are those of fs/tmpfs.c; the lemmas say that each keeps the names a rooted
 tree and every count equal to the references that exist.
 */
module TmpfsTree {
  datatype Key = Key(dir: nat, name: string)

  /** `entry` and `at` are inverse to each other. `target` maps a stub to its primary
      node, `refs` is the stored count of every node that is not freed, and `opens` holds
      a node once for each open handle on it. */
  datatype Tree = Tree(root: nat, dirs: set<nat>, entry: map<Key, nat>, at: map<nat, Key>,
                       target: map<nat, nat>, refs: map<nat, nat>, opens: multiset<nat>)

  // ---------------------------------------------------------------- the way up a tree

  /** p is the way from n up to a node that hangs nowhere. */
  ghost predicate Climb(at: map<nat, Key>, n: nat, p: seq<nat>)
    decreases |p|
  {
    && p != [] && p[0] == n
    && if n in at then Climb(at, at[n].dir, p[1..]) else |p| == 1
  }

  ghost predicate Grounded(at: map<nat, Key>, n: nat)
  {
    exists p :: Climb(at, n, p)
  }

  ghost predicate Acyclic(at: map<nat, Key>)
  {
    forall n :: Grounded(at, n)
  }

  lemma {:induction false} ClimbUnique(at: map<nat, Key>, n: nat, p: seq<nat>, q: seq<nat>)
    requires Climb(at, n, p) && Climb(at, n, q)
    ensures p == q
    decreases |p|
  {
    if n in at {
      ClimbUnique(at, at[n].dir, p[1..], q[1..]);
      assert p == [n] + p[1..] && q == [n] + q[1..];
    }
  }

  lemma {:induction false} ClimbSuffix(at: map<nat, Key>, n: nat, p: seq<nat>, i: nat)
    requires Climb(at, n, p) && i < |p|
    ensures Climb(at, p[i], p[i..])
    decreases i
  {
    if i > 0 {
      ClimbSuffix(at, at[n].dir, p[1..], i - 1);
      assert p[1..][i - 1..] == p[i..];
    }
  }

  /** Nothing lies above itself. */
  lemma NotAboveItself(at: map<nat, Key>, n: nat, p: seq<nat>)
    requires n in at && Climb(at, at[n].dir, p)
    ensures n !in p
  {
    if n in p {
      var i :| 0 <= i < |p| && p[i] == n;
      ClimbSuffix(at, at[n].dir, p, i);
      var q := [n] + p;
      assert q[1..] == p;
      ClimbUnique(at, n, q, p[i..]);
    }
  }

  lemma {:induction false} ClimbFrame(at: map<nat, Key>, at': map<nat, Key>, n: nat, p: seq<nat>)
    requires Climb(at, n, p)
    requires forall m | m in p :: (m in at <==> m in at') && (m in at ==> at[m].dir == at'[m].dir)
    ensures Climb(at', n, p)
    decreases |p|
  {
    assert n in p;
    if n in at {
      ClimbFrame(at, at', at[n].dir, p[1..]);
    }
  }

  /** If only x hangs elsewhere and x is grounded there, all is grounded. */
  lemma {:induction false} Reroute(at: map<nat, Key>, at': map<nat, Key>, x: nat, n: nat, p: seq<nat>)
    requires Climb(at, n, p) && Grounded(at', x)
    requires forall m | m != x :: (m in at <==> m in at') && (m in at ==> at[m].dir == at'[m].dir)
    ensures Grounded(at', n)
    decreases |p|
  {
    if n != x {
      if n in at {
        Reroute(at, at', x, at[n].dir, p[1..]);
        var q :| Climb(at', at[n].dir, q);
        assert ([n] + q)[1..] == q;
        assert Climb(at', n, [n] + q);
      } else {
        assert Climb(at', n, [n]);
      }
    }
  }

  lemma AllRerouted(at: map<nat, Key>, at': map<nat, Key>, x: nat)
    requires Acyclic(at) && Grounded(at', x)
    requires forall m | m != x :: (m in at <==> m in at') && (m in at ==> at[m].dir == at'[m].dir)
    ensures Acyclic(at')
  {
    forall n
      ensures Grounded(at', n)
    {
      assert Grounded(at, n);
      var p :| Climb(at, n, p);
      Reroute(at, at', x, n, p);
    }
  }

  /** Hanging x, wherever it was, below a directory that x is not above. */
  lemma HangKeepsAcyclic(at: map<nat, Key>, x: nat, k: Key, p: seq<nat>)
    requires Acyclic(at) && Climb(at, k.dir, p) && x !in p
    ensures Acyclic(at[x := k]) && Climb(at[x := k], k.dir, p)
  {
    var at' := at[x := k];
    ClimbFrame(at, at', k.dir, p);
    assert ([x] + p)[1..] == p;
    assert Climb(at', x, [x] + p);
    AllRerouted(at, at', x);
  }

  lemma {:induction false} ClimbMeets(at: map<nat, Key>, x: nat, k: Key, n: nat, p: seq<nat>, q: seq<nat>)
    requires Climb(at, n, p) && x in p && Climb(at[x := k], n, q)
    ensures x in q
    decreases |p|
  {
    if n != x {
      assert p == [p[0]] + p[1..];
      ClimbMeets(at, x, k, at[n].dir, p[1..], q[1..]);
    }
  }

  /** Hanging x below itself makes a loop. */
  lemma HangBelowItselfLoops(at: map<nat, Key>, x: nat, k: Key, p: seq<nat>)
    requires Climb(at, k.dir, p) && x in p
    ensures !Grounded(at[x := k], x)
  {
    if Grounded(at[x := k], x) {
      var q :| Climb(at[x := k], x, q);
      ClimbMeets(at, x, k, k.dir, p, q[1..]);
      NotAboveItself(at[x := k], x, q[1..]);
    }
  }

  lemma DropKeepsAcyclic(at: map<nat, Key>, x: nat)
    requires Acyclic(at)
    ensures Acyclic(at - {x})
  {
    assert Climb(at - {x}, x, [x]);
    AllRerouted(at, at - {x}, x);
  }

  // -------------------------------------------------------------------- the invariant

  ghost function Stubs(t: Tree, n: nat): set<nat>
  {
    set m | m in t.target && t.target[m] == n
  }

  /** The references to a node that exist: its name (the root has one from the mount),
      the stubs that stand for it, and its open handles. */
  ghost function Owed(t: Tree, n: nat): nat
  {
    (if n in t.at || n == t.root then 1 else 0) + |Stubs(t, n)| + t.opens[n]
  }

  /** `x` is a node that has just lost a reference still counted, if any. */
  ghost predicate Counted(t: Tree, x: set<nat>)
  {
    forall n | n in t.refs :: t.refs[n] == Owed(t, n) + (if n in x then 1 else 0) && t.refs[n] > 0
  }

  ghost predicate CountedBut(t: Tree, but: nat, x: set<nat>)
  {
    forall n | n in t.refs && n != but :: t.refs[n] == Owed(t, n) + (if n in x then 1 else 0) && t.refs[n] > 0
  }

  ghost predicate Names(t: Tree)
  {
    && t.root in t.dirs && t.root !in t.at && t.dirs <= t.refs.Keys
    && Inverse(t)
    && (forall n | n in t.at :: n in t.refs && t.at[n].dir in t.dirs)
    && (forall k {:trigger Attached(t, k.dir)} | k in t.entry :: Attached(t, k.dir))
  }

  /** Every name holds one node, and every node has at most one name. */
  ghost predicate Inverse(t: Tree)
  {
    && (forall k | k in t.entry :: t.entry[k] in t.at && t.at[t.entry[k]] == k)
    && (forall n | n in t.at :: t.at[n] in t.entry && t.entry[t.at[n]] == n)
  }

  ghost predicate Attached(t: Tree, n: nat)
  {
    n == t.root || n in t.at
  }

  /** Stubs have a name and stand for a live node that is neither a stub nor a directory. */
  ghost predicate StubsOk(t: Tree, x: set<nat>)
  {
    && t.root !in t.target
    && (forall m | m in t.target :: m in t.refs && m !in t.dirs && m !in t.opens && (m in t.at || m in x))
    && (forall m {:trigger Primary(t, t.target[m])} | m in t.target :: Primary(t, t.target[m]))
    && (forall n | n in t.opens :: n in t.refs)
  }

  ghost predicate Primary(t: Tree, n: nat)
  {
    n in t.refs && n !in t.dirs && n !in t.target
  }

  ghost predicate Settled(t: Tree)
  {
    Names(t) && StubsOk(t, {}) && Counted(t, {})
  }

  ghost predicate TreeOk(t: Tree)
  {
    Settled(t) && Acyclic(t.at)
  }

  // ------------------------------------------------------------------------ operations

  /** The node that carries the inode of a node: the primary one. */
  function Resolve(t: Tree, n: nat): nat
  {
    if n in t.target then t.target[n] else n
  }

  function AddName(t: Tree, k: Key, n: nat): Tree
  {
    t.(entry := t.entry[k := n], at := t.at[n := k])
  }

  function DropName(t: Tree, k: Key): Tree
    requires k in t.entry
  {
    t.(entry := t.entry - {k}, at := t.at - {t.entry[k]})
  }

  function Free(t: Tree, n: nat): Tree
  {
    t.(refs := t.refs - {n}, dirs := t.dirs - {n})
  }

  /** tmpfs_node_put: give up one reference, and free the node with the last one. A stub
      that goes gives up its reference to the primary node. */
  function Put(t: Tree, n: nat): Tree
    decreases t.target.Keys
  {
    if n !in t.refs then t
    else if t.refs[n] > 1 then t.(refs := t.refs[n := t.refs[n] - 1])
    else if n in t.target then Put(Free(t.(target := t.target - {n}), n), t.target[n])
    else Free(t, n)
  }

  /** tmpfs_create, tmpfs_mknod, tmpfs_mkdir and tmpfs_symlink on an absent name. */
  function Create(t: Tree, k: Key, n: nat, dir: bool): Tree
  {
    AddName(t.(refs := t.refs[n := 1], dirs := if dir then t.dirs + {n} else t.dirs), k, n)
  }

  /** tmpfs_link on an absent name: m is the stub. */
  function Link(t: Tree, k: Key, m: nat, n: nat): Tree
    requires n in t.refs
  {
    AddName(t.(refs := t.refs[n := t.refs[n] + 1][m := 1], target := t.target[m := n]), k, m)
  }

  /** tmpfs_unlink and tmpfs_rmdir of a removable name. */
  function Remove(t: Tree, k: Key): Tree
    requires k in t.entry
  {
    Put(DropName(t, k), t.entry[k])
  }

  /** tmpfs_rename to an absent name. */
  function Move(t: Tree, k: Key, k': Key): Tree
    requires k in t.entry
  {
    AddName(DropName(t, k), k', t.entry[k])
  }

  /** The exchange of tmpfs_rename2. */
  function Exchange(t: Tree, k: Key, k': Key): Tree
    requires k in t.entry && k' in t.entry
  {
    t.(entry := t.entry[k := t.entry[k']][k' := t.entry[k]],
       at := t.at[t.entry[k] := k'][t.entry[k'] := k])
  }

  /** tmpfs_file_open. */
  function Open(t: Tree, n: nat): Tree
    requires n in t.refs
  {
    t.(refs := t.refs[n := t.refs[n] + 1], opens := t.opens + multiset{n})
  }

  /** tmpfs_file_release. */
  function Release(t: Tree, n: nat): Tree
  {
    Put(t.(opens := t.opens - multiset{n}), n)
  }

  datatype Outcome = Done | EINVAL | ENOENT | EEXIST | EISDIR | ENOTDIR | ENOTEMPTY

  /** What tmpfs_unlink (not for a directory) and tmpfs_rmdir (for one) answer. */
  function RemoveOutcome(t: Tree, k: Key, dir: bool): Outcome
  {
    if k !in t.entry then ENOENT
    else if !dir && t.entry[k] in t.dirs then EISDIR
    else if dir && t.entry[k] !in t.dirs then ENOTDIR
    else if dir && !Empty(t, t.entry[k]) then ENOTEMPTY
    else Done
  }

  /** What tmpfs_rename answers. */
  function RenameOutcome(t: Tree, k: Key, k': Key): Outcome
  {
    if k !in t.entry then ENOENT
    else if k' !in t.entry then Done
    else if t.entry[k] in t.dirs then
      if t.entry[k'] !in t.dirs then ENOTDIR
      else if !Empty(t, t.entry[k']) then ENOTEMPTY
      else Done
    else if t.entry[k'] in t.dirs then EISDIR
    else Done
  }

  /** tmpfs_rename: a destination that exists is removed first. */
  function Renamed(t: Tree, k: Key, k': Key): Tree
  {
    var t1 := if k' in t.entry then Remove(t, k') else t;
    if k in t1.entry then Move(t1, k, k') else t1
  }

  predicate Empty(t: Tree, n: nat)
  {
    forall k | k in t.entry :: k.dir != n
  }

  // ------------------------------------------------------------- giving up references

  lemma SameNames(t: Tree, t': Tree)
    requires Names(t) && t'.root == t.root && t'.entry == t.entry && t'.at == t.at
    requires t'.dirs == t.dirs && t.refs.Keys <= t'.refs.Keys
    ensures Names(t')
  {
    forall k | k in t.entry
      ensures Attached(t', k.dir)
    {
      assert Attached(t, k.dir);
    }
  }

  lemma SameOwed(t: Tree, t': Tree, n: nat)
    requires t'.target == t.target && t'.opens[n] == t.opens[n] && t'.root == t.root
    requires n in t.at <==> n in t'.at
    ensures Owed(t', n) == Owed(t, n)
  {
    assert Stubs(t', n) == Stubs(t, n);
  }

  /** A node without references is not mentioned anywhere. */
  lemma NothingOwed(t: Tree, n: nat)
    requires Names(t) && Owed(t, n) == 0
    ensures n !in t.at && n != t.root && n !in t.opens && Empty(t, n)
    ensures forall m | m in t.target :: t.target[m] != n
  {
    assert forall m | m in t.target && t.target[m] == n :: m in Stubs(t, n);
    forall k | k in t.entry
      ensures k.dir != n
    {
      assert Attached(t, k.dir);
    }
  }

  lemma NoStubOfStub(t: Tree, x: set<nat>, n: nat)
    requires StubsOk(t, x) && n in t.target
    ensures Stubs(t, n) == {} && t.opens[n] == 0
  {
    forall m
      ensures m !in Stubs(t, n)
    {
      if m in t.target {
        assert Primary(t, t.target[m]);
      }
    }
  }

  lemma StubOwesNothing(t: Tree, x: set<nat>, n: nat)
    requires Names(t) && StubsOk(t, x) && n in t.target
    ensures Owed(t, n) == if n in t.at then 1 else 0
  {
    NoStubOfStub(t, x, n);
  }

  /** The state in which tmpfs_node_put is called: n is owed one reference too many. */
  ghost predicate Putting(t: Tree, n: nat)
  {
    && n in t.refs
    && Names(t) && StubsOk(t, {n}) && Counted(t, {n})
  }

  lemma FreeKeepsNames(t: Tree, n: nat)
    requires Names(t) && Owed(t, n) == 0
    ensures Names(Free(t, n))
  {
    NothingOwed(t, n);
    assert forall m | m in t.at :: t.at[m] in t.entry && t.at[m].dir != n;
    forall k | k in t.entry
      ensures Attached(Free(t, n), k.dir)
    {
      assert Attached(t, k.dir);
    }
  }

  lemma FreeKeepsCounts(t: Tree, n: nat, x: set<nat>)
    requires CountedBut(t, n, x)
    ensures Counted(Free(t, n), x - {n})
  {
    forall m | m in t.refs && m != n
      ensures Owed(Free(t, n), m) == Owed(t, m)
    {
      SameOwed(t, Free(t, n), m);
    }
  }

  /** Stubs after a node that no stub stands for was freed. */
  lemma FreeKeepsStubs(t: Tree, n: nat, x: set<nat>)
    requires StubsOk(t, x) && n !in t.target && n !in t.opens
    requires forall m | m in t.target :: t.target[m] != n
    ensures StubsOk(Free(t, n), x - {n})
  {
    var t' := Free(t, n);
    forall m | m in t'.target
      ensures Primary(t', t'.target[m])
    {
      assert Primary(t, t.target[m]);
    }
  }

  lemma SameStubs(t: Tree, t': Tree, x: set<nat>, x': set<nat>)
    requires StubsOk(t, x) && t'.root == t.root && t'.target == t.target && t'.refs.Keys == t.refs.Keys
    requires t'.dirs == t.dirs && t'.opens <= t.opens
    requires forall m | m in t.target && (m in t.at || m in x) :: m in t'.at || m in x'
    ensures StubsOk(t', x')
  {
    forall m | m in t'.target
      ensures Primary(t', t'.target[m])
    {
      assert Primary(t, t.target[m]);
    }
  }

  lemma PutLast(t: Tree, n: nat)
    requires Putting(t, n) && t.refs[n] == 1 && n !in t.target
    ensures Settled(Free(t, n))
  {
    NothingOwed(t, n);
    FreeKeepsNames(t, n);
    FreeKeepsCounts(t, n, {n});
    FreeKeepsStubs(t, n, {n});
    assert {n} - {n} == {};
  }

  lemma PutOne(t: Tree, n: nat)
    requires Putting(t, n) && t.refs[n] > 1
    ensures Settled(Put(t, n))
  {
    var t' := Put(t, n);
    SameNames(t, t');
    forall m | m in t.refs
      ensures Owed(t', m) == Owed(t, m)
    {
      SameOwed(t, t', m);
    }
    if n in t.target {
      StubOwesNothing(t, {n}, n);
    }
    SameStubs(t, t', {n}, {});
  }

  /** The last reference of a stub: the reference passes on to its primary node. */
  lemma PutStub(t: Tree, n: nat)
    requires Putting(t, n) && t.refs[n] == 1 && n in t.target
    ensures Putting(Free(t.(target := t.target - {n}), n), t.target[n])
  {
    var t1 := t.(target := t.target - {n});
    NothingOwed(t, n);
    FreeKeepsNames(t, n);
    SameNames(Free(t, n), Free(t1, n));
    StubFreed(t, n);
    StubGone(t, n);
    FreeKeepsCounts(t1, n, {t.target[n]});
    assert Primary(t, t.target[n]);
  }

  /** The stub no longer counts for its primary node. */
  lemma StubGone(t: Tree, n: nat)
    requires n in t.target && Counted(t, {n})
    ensures CountedBut(t.(target := t.target - {n}), n, {t.target[n]})
  {
    var g := t.target[n];
    var t1 := t.(target := t.target - {n});
    forall m | m in t.refs && m != n
      ensures t.refs[m] == Owed(t1, m) + if m == g then 1 else 0
    {
      assert Stubs(t1, m) == if m == g then Stubs(t, m) - {n} else Stubs(t, m);
      assert m == g ==> n in Stubs(t, m);
      assert t.refs[m] == Owed(t, m);
    }
  }

  lemma StubFreed(t: Tree, n: nat)
    requires n in t.target && StubsOk(t, {n}) && n !in t.opens
    requires forall m | m in t.target :: t.target[m] != n
    ensures StubsOk(Free(t.(target := t.target - {n}), n), {t.target[n]})
  {
    var t' := Free(t.(target := t.target - {n}), n);
    forall m | m in t'.target
      ensures Primary(t', t'.target[m])
    {
      assert Primary(t, t.target[m]);
    }
  }

  /** Nothing changed but that nodes without references were freed. */
  ghost predicate OnlyFreed(t: Tree, t': Tree)
  {
    && t'.root == t.root && t'.entry == t.entry && t'.at == t.at && t'.opens == t.opens
    && t'.refs.Keys <= t.refs.Keys && t'.dirs <= t.dirs && t'.target.Keys <= t.target.Keys
    && (forall m | m in t'.target :: t'.target[m] == t.target[m])
    && (forall m | m in t.refs && m !in t'.refs :: Owed(t', m) == 0)
    && (forall m | m in t.dirs && m in t'.refs :: m in t'.dirs)
    && (forall m | m in t.target && m in t'.refs :: m in t'.target)
  }

  lemma {:induction false} PutFreesUnowed(t: Tree, n: nat)
    requires Putting(t, n)
    ensures OnlyFreed(t, Put(t, n))
    decreases t.target.Keys
  {
    if t.refs[n] > 1 {
    } else if n in t.target {
      PutStub(t, n);
      var t1 := Free(t.(target := t.target - {n}), n);
      PutFreesUnowed(t1, t.target[n]);
      FreedBefore(t, n, Put(t1, t.target[n]));
    } else {
      SameOwed(t, Free(t, n), n);
    }
  }

  lemma FreedBefore(t: Tree, n: nat, t': Tree)
    requires Putting(t, n) && t.refs[n] == 1 && n in t.target
    requires OnlyFreed(Free(t.(target := t.target - {n}), n), t')
    ensures OnlyFreed(t, t')
  {
    NothingOwed(t, n);
    assert Stubs(t', n) <= Stubs(t, n);
    assert Stubs(t, n) == {};
  }

  /** tmpfs_node_put settles the counts, and frees exactly what no reference is left to. */
  lemma {:induction false} PutSettles(t: Tree, n: nat)
    requires Putting(t, n)
    ensures Settled(Put(t, n))
    ensures forall m | m in t.refs :: m in Put(t, n).refs <==> Owed(Put(t, n), m) > 0
    decreases t.target.Keys
  {
    PutFreesUnowed(t, n);
    if t.refs[n] > 1 {
      PutOne(t, n);
    } else if n in t.target {
      PutStub(t, n);
      PutSettles(Free(t.(target := t.target - {n}), n), t.target[n]);
    } else {
      PutLast(t, n);
    }
  }

  // -------------------------------------------------------------- creating and linking

  lemma AddNameOk(t: Tree, k: Key, n: nat)
    requires Names(t) && k !in t.entry && n !in t.at && n in t.refs && n != t.root
    requires k.dir in t.dirs && Attached(t, k.dir)
    ensures Names(AddName(t, k, n))
  {
    var t' := AddName(t, k, n);
    forall k' | k' in t'.entry
      ensures Attached(t', k'.dir)
    {
      if k' != k {
        assert Attached(t, k'.dir);
      }
    }
  }

  lemma MoreNodes(t: Tree, t': Tree)
    requires Names(t) && t'.root == t.root && t'.entry == t.entry && t'.at == t.at
    requires t.dirs <= t'.dirs <= t'.refs.Keys && t.refs.Keys <= t'.refs.Keys
    ensures Names(t')
  {
    forall k | k in t.entry
      ensures Attached(t', k.dir)
    {
      assert Attached(t, k.dir);
    }
  }

  lemma UnknownOwesNothing(t: Tree, n: nat)
    requires Names(t) && StubsOk(t, {}) && n !in t.refs
    ensures n !in t.at && Stubs(t, n) == {} && t.opens[n] == 0 && n != t.root
  {
    forall m
      ensures m !in Stubs(t, n)
    {
      if m in t.target {
        assert Primary(t, t.target[m]);
      }
    }
  }

  /** A node that does not exist lies on no way up from an existing one. */
  lemma {:induction false} ClimbLive(t: Tree, d: nat, p: seq<nat>)
    requires Names(t) && d in t.refs && Climb(t.at, d, p)
    ensures forall m | m in p :: m in t.refs
    decreases |p|
  {
    if d in t.at {
      ClimbLive(t, t.at[d].dir, p[1..]);
      assert p == [d] + p[1..];
    }
  }

  lemma NewNameAcyclic(t: Tree, k: Key, n: nat)
    requires Names(t) && Acyclic(t.at) && k.dir in t.dirs && n !in t.refs
    ensures Acyclic(t.at[n := k])
  {
    assert Grounded(t.at, k.dir);
    var p :| Climb(t.at, k.dir, p);
    ClimbLive(t, k.dir, p);
    HangKeepsAcyclic(t.at, n, k, p);
  }

  ghost predicate CanName(t: Tree, k: Key)
  {
    k !in t.entry && k.dir in t.dirs && Attached(t, k.dir)
  }

  lemma CreateStubs(t: Tree, k: Key, n: nat, dir: bool)
    requires StubsOk(t, {}) && n !in t.refs && n !in t.target
    ensures StubsOk(Create(t, k, n, dir), {})
  {
    var t' := Create(t, k, n, dir);
    forall m | m in t'.target
      ensures Primary(t', t'.target[m])
    {
      assert Primary(t, t.target[m]);
    }
  }

  lemma CreateCounts(t: Tree, k: Key, n: nat, dir: bool)
    requires Counted(t, {}) && n !in t.refs && Stubs(t, n) == {} && t.opens[n] == 0
    ensures Counted(Create(t, k, n, dir), {})
  {
    var t' := Create(t, k, n, dir);
    assert Stubs(t', n) == Stubs(t, n);
    forall m | m in t.refs
      ensures Owed(t', m) == Owed(t, m)
    {
      SameOwed(t, t', m);
    }
  }

  lemma CreateNames(t: Tree, k: Key, n: nat, dir: bool)
    requires Names(t) && CanName(t, k) && n !in t.refs
    ensures Names(Create(t, k, n, dir))
  {
    var t1 := t.(refs := t.refs[n := 1], dirs := if dir then t.dirs + {n} else t.dirs);
    MoreNodes(t, t1);
    AddNameOk(t1, k, n);
  }

  lemma CreateOk(t: Tree, k: Key, n: nat, dir: bool)
    requires TreeOk(t) && CanName(t, k) && n !in t.refs
    ensures TreeOk(Create(t, k, n, dir))
  {
    UnknownOwesNothing(t, n);
    CreateNames(t, k, n, dir);
    CreateStubs(t, k, n, dir);
    CreateCounts(t, k, n, dir);
    NewNameAcyclic(t, k, n);
  }

  lemma LinkStubs(t: Tree, k: Key, m: nat, n: nat)
    requires StubsOk(t, {}) && Primary(t, n) && m !in t.refs && m !in t.opens && m !in t.dirs && m != t.root
    ensures StubsOk(Link(t, k, m, n), {})
  {
    var t' := Link(t, k, m, n);
    forall i | i in t'.target
      ensures Primary(t', t'.target[i])
    {
      if i != m {
        assert Primary(t, t.target[i]);
      }
    }
  }

  lemma LinkOwed(t: Tree, k: Key, m: nat, n: nat, i: nat)
    requires n in t.refs && m !in t.target && i != m
    ensures Owed(Link(t, k, m, n), i) == Owed(t, i) + if i == n then 1 else 0
  {
    StubAdded(t, Link(t, k, m, n), m, n, i);
  }

  lemma StubAdded(t: Tree, t': Tree, m: nat, n: nat, i: nat)
    requires m !in t.target && t'.target == t.target[m := n]
    ensures |Stubs(t', i)| == |Stubs(t, i)| + if i == n then 1 else 0
  {
    var before, after := Stubs(t, i), Stubs(t', i);
    forall j
      ensures j in after <==> j in before || (j == m && i == n)
    {
    }
    assert m !in before;
    assert after == before + if i == n then {m} else {};
  }

  lemma LinkCounts(t: Tree, k: Key, m: nat, n: nat)
    requires Counted(t, {}) && n in t.refs && m !in t.refs && m !in t.at && m !in t.target && m != n && m != t.root
    requires Stubs(t, m) == {} && t.opens[m] == 0
    ensures Counted(Link(t, k, m, n), {})
  {
    var t' := Link(t, k, m, n);
    assert Stubs(t', m) == {};
    forall i | i in t.refs
      ensures Owed(t', i) == Owed(t, i) + if i == n then 1 else 0
    {
      LinkOwed(t, k, m, n, i);
    }
  }

  lemma LinkNames(t: Tree, k: Key, m: nat, n: nat)
    requires Names(t) && CanName(t, k) && m !in t.refs && n in t.refs
    ensures Names(Link(t, k, m, n))
  {
    var t1 := t.(refs := t.refs[n := t.refs[n] + 1][m := 1], target := t.target[m := n]);
    KeysGrow(t.refs, n, m);
    MoreNodes(t, t1);
    assert Attached(t1, k.dir) && m != t.root;
    AddNameOk(t1, k, m);
  }

  lemma KeysGrow(refs: map<nat, nat>, n: nat, m: nat)
    requires n in refs
    ensures refs[n := refs[n] + 1][m := 1].Keys == refs.Keys + {m}
  {
  }

  lemma LinkOk(t: Tree, k: Key, m: nat, n: nat)
    requires TreeOk(t) && CanName(t, k) && m !in t.refs && Primary(t, n)
    ensures TreeOk(Link(t, k, m, n))
  {
    UnknownOwesNothing(t, m);
    LinkNames(t, k, m, n);
    LinkStubs(t, k, m, n);
    LinkCounts(t, k, m, n);
    NewNameAcyclic(t, k, m);
  }

  // ---------------------------------------------------------------------- removing

  lemma DropNameOk(t: Tree, k: Key)
    requires Names(t) && k in t.entry && Empty(t, t.entry[k])
    ensures Names(DropName(t, k))
  {
    var t' := DropName(t, k);
    forall k' | k' in t'.entry
      ensures Attached(t', k'.dir)
    {
      assert Attached(t, k'.dir);
    }
  }

  lemma DropNameOwes(t: Tree, k: Key)
    requires Names(t) && k in t.entry && Counted(t, {})
    ensures Counted(DropName(t, k), {t.entry[k]})
  {
    var t' := DropName(t, k);
    forall m | m in t.refs
      ensures Owed(t, m) == Owed(t', m) + if m == t.entry[k] then 1 else 0
    {
      assert Stubs(t', m) == Stubs(t, m);
    }
  }

  lemma RemovePutting(t: Tree, k: Key)
    requires Settled(t) && k in t.entry && Empty(t, t.entry[k])
    ensures Putting(DropName(t, k), t.entry[k])
  {
    DropNameOk(t, k);
    DropNameOwes(t, k);
    SameStubs(t, DropName(t, k), {}, {t.entry[k]});
  }

  /** unlink and rmdir. */
  lemma RemoveOk(t: Tree, k: Key)
    requires TreeOk(t) && k in t.entry && Empty(t, t.entry[k])
    ensures TreeOk(Remove(t, k)) && OnlyFreed(DropName(t, k), Remove(t, k))
  {
    RemovePutting(t, k);
    PutSettles(DropName(t, k), t.entry[k]);
    PutFreesUnowed(DropName(t, k), t.entry[k]);
    DropKeepsAcyclic(t.at, t.entry[k]);
  }

  // ---------------------------------------------------------------------- renaming

  /** The node with name k can hang in directory d: d does not lie below it. */
  ghost predicate CanHang(t: Tree, n: nat, d: nat)
  {
    exists p :: Climb(t.at, d, p) && n !in p
  }

  lemma SameCounts(t: Tree, t': Tree)
    requires Counted(t, {}) && t'.root == t.root && t'.target == t.target && t'.refs == t.refs && t'.opens == t.opens
    requires t'.at.Keys == t.at.Keys
    ensures Counted(t', {})
  {
    forall m | m in t.refs
      ensures Owed(t', m) == Owed(t, m)
    {
      SameOwed(t, t', m);
    }
  }

  lemma MoveNames(t: Tree, k: Key, k': Key)
    requires Names(t) && k in t.entry && CanName(t, k')
    ensures Names(Move(t, k, k')) && Move(t, k, k').at == t.at[t.entry[k] := k']
  {
    var t' := Move(t, k, k');
    forall j | j in t'.entry
      ensures Attached(t', j.dir)
    {
      assert Attached(t, j.dir) || j == k';
    }
  }

  lemma MoveSettled(t: Tree, k: Key, k': Key)
    requires Settled(t) && k in t.entry && CanName(t, k')
    ensures Settled(Move(t, k, k')) && Move(t, k, k').at == t.at[t.entry[k] := k']
  {
    var t' := Move(t, k, k');
    MoveNames(t, k, k');
    SameKeysSettled(t, t');
  }

  lemma MoveOk(t: Tree, k: Key, k': Key)
    requires TreeOk(t) && k in t.entry && CanName(t, k') && CanHang(t, t.entry[k], k'.dir)
    ensures TreeOk(Move(t, k, k'))
  {
    MoveSettled(t, k, k');
    var p :| Climb(t.at, k'.dir, p) && t.entry[k] !in p;
    HangKeepsAcyclic(t.at, t.entry[k], k', p);
  }

  /** After the destination of a rename is removed, its name is free to be taken. */
  lemma VacatedName(t: Tree, k': Key)
    requires TreeOk(t) && k' in t.entry && Empty(t, t.entry[k'])
    ensures CanName(Remove(t, k'), k')
  {
    var t' := Remove(t, k');
    RemoveOk(t, k');
    assert Attached(t, k'.dir);
    assert Attached(t', k'.dir);
    assert k'.dir in t'.refs by {
      assert Owed(t', k'.dir) > 0;
    }
  }

  lemma HangsWithout(at: map<nat, Key>, e: nat, n: nat) returns (p: seq<nat>)
    requires e in at && exists p :: Climb(at, at[e].dir, p) && n !in p
    ensures Climb(at - {e}, at[e].dir, p) && n !in p
  {
    p :| Climb(at, at[e].dir, p) && n !in p;
    NotAboveItself(at, e, p);
    ClimbFrame(at, at - {e}, at[e].dir, p);
  }

  /** tmpfs_rename over an existing name. */
  lemma ReplaceOk(t: Tree, k: Key, k': Key)
    requires TreeOk(t) && k in t.entry && k' in t.entry && k != k' && Empty(t, t.entry[k'])
    requires CanHang(t, t.entry[k], k'.dir)
    ensures k in Remove(t, k').entry && TreeOk(Move(Remove(t, k'), k, k'))
  {
    RemoveOk(t, k');
    VacatedName(t, k');
    StillHangs(t, k, k', Remove(t, k'));
    MoveOk(Remove(t, k'), k, k');
  }

  lemma StillHangs(t: Tree, k: Key, k': Key, t': Tree)
    requires Names(t) && k in t.entry && k' in t.entry && k != k' && CanHang(t, t.entry[k], k'.dir)
    requires t'.entry == t.entry - {k'} && t'.at == t.at - {t.entry[k']}
    ensures k in t'.entry && t'.entry[k] == t.entry[k] && CanHang(t', t.entry[k], k'.dir)
  {
    var p := HangsWithout(t.at, t.entry[k'], t.entry[k]);
  }

  /** tmpfs_rename keeps the tree if the destination directory is not below the node. */
  lemma RenameOk(t: Tree, k: Key, k': Key)
    requires TreeOk(t) && RenameOutcome(t, k, k') == Done && k != k'
    requires k'.dir in t.dirs && Attached(t, k'.dir) && CanHang(t, t.entry[k], k'.dir)
    ensures TreeOk(Renamed(t, k, k'))
  {
    if k' in t.entry {
      if t.entry[k'] !in t.dirs {
        LeafEmpty(t, t.entry[k']);
      }
      ReplaceOk(t, k, k');
    } else {
      MoveOk(t, k, k');
    }
  }

  lemma LeafEmpty(t: Tree, n: nat)
    requires Names(t) && n !in t.dirs
    ensures Empty(t, n)
  {
    assert forall k | k in t.entry :: t.at[t.entry[k]] == k;
  }

  lemma ExchangeNames(t: Tree, k: Key, k': Key)
    requires Names(t) && k in t.entry && k' in t.entry && k != k'
    ensures Names(Exchange(t, k, k')) && Exchange(t, k, k').at.Keys == t.at.Keys
  {
    var t' := Exchange(t, k, k');
    forall j | j in t'.entry
      ensures Attached(t', j.dir)
    {
      assert Attached(t, j.dir);
    }
  }

  lemma ExchangeAcyclic(at: map<nat, Key>, n: nat, n': nat)
    requires Acyclic(at) && n in at && n' in at && n != n'
    requires exists p :: Climb(at, at[n].dir, p) && n' !in p
    requires exists p :: Climb(at, at[n'].dir, p) && n !in p
    ensures Acyclic(at[n := at[n']][n' := at[n]])
  {
    var p :| Climb(at, at[n].dir, p) && n' !in p;
    var p' :| Climb(at, at[n'].dir, p') && n !in p';
    var at1 := at[n := at[n']];
    HangKeepsAcyclic(at, n, at[n'], p');
    NotAboveItself(at, n, p);
    ClimbFrame(at, at1, at[n].dir, p);
    HangKeepsAcyclic(at1, n', at[n], p);
  }

  lemma ExchangeSettled(t: Tree, k: Key, k': Key)
    requires Settled(t) && k in t.entry && k' in t.entry && k != k'
    ensures Settled(Exchange(t, k, k'))
  {
    ExchangeNames(t, k, k');
    SameKeysSettled(t, Exchange(t, k, k'));
  }

  lemma SameKeysSettled(t: Tree, t': Tree)
    requires StubsOk(t, {}) && Counted(t, {})
    requires t'.root == t.root && t'.target == t.target && t'.refs == t.refs && t'.opens == t.opens
    requires t'.dirs == t.dirs && t'.at.Keys == t.at.Keys
    ensures StubsOk(t', {}) && Counted(t', {})
  {
    assert forall m | m in t.at :: m in t'.at;
    SameStubs(t, t', {}, {});
    SameCounts(t, t');
  }

  /** The exchange keeps the tree if neither node lies above the other's directory. */
  lemma ExchangeOk(t: Tree, k: Key, k': Key)
    requires TreeOk(t) && k in t.entry && k' in t.entry && k != k'
    requires CanHang(t, t.entry[k], k'.dir) && CanHang(t, t.entry[k'], k.dir)
    ensures TreeOk(Exchange(t, k, k'))
  {
    ExchangeSettled(t, k, k');
    ExchangeAcyclic(t.at, t.entry[k], t.entry[k']);
  }

  // ---------------------------------------------------------------------- open handles

  lemma OpenOk(t: Tree, n: nat)
    requires TreeOk(t) && n in t.refs && n !in t.target
    ensures TreeOk(Open(t, n))
  {
    var t' := Open(t, n);
    SameNames(t, t');
    OpenStubs(t, n);
    OpenCounts(t, n);
  }

  lemma OpenCounts(t: Tree, n: nat)
    requires Counted(t, {}) && n in t.refs
    ensures Counted(Open(t, n), {})
  {
    var t' := Open(t, n);
    forall m | m in t.refs
      ensures Owed(t', m) == Owed(t, m) + if m == n then 1 else 0
    {
      assert Stubs(t', m) == Stubs(t, m);
    }
  }

  lemma OpenStubs(t: Tree, n: nat)
    requires StubsOk(t, {}) && n in t.refs && n !in t.target
    ensures StubsOk(Open(t, n), {})
  {
    var t' := Open(t, n);
    forall m | m in t'.target
      ensures Primary(t', t'.target[m])
    {
      assert Primary(t, t.target[m]);
    }
  }

  lemma ReleasePutting(t: Tree, n: nat)
    requires Settled(t) && n in t.opens
    ensures Putting(t.(opens := t.opens - multiset{n}), n)
  {
    var t1 := t.(opens := t.opens - multiset{n});
    SameNames(t, t1);
    SameStubs(t, t1, {}, {n});
    forall m | m in t.refs
      ensures Owed(t, m) == Owed(t1, m) + if m == n then 1 else 0
    {
      assert Stubs(t1, m) == Stubs(t, m);
    }
  }

  lemma ReleaseOk(t: Tree, n: nat)
    requires TreeOk(t) && n in t.opens
    ensures TreeOk(Release(t, n)) && OnlyFreed(t.(opens := t.opens - multiset{n}), Release(t, n))
  {
    var t1 := t.(opens := t.opens - multiset{n});
    ReleasePutting(t, n);
    PutSettles(t1, n);
    PutFreesUnowed(t1, n);
  }
}
