/**
 The name operations of fs/vfs.c over the tables of the dentry cache and the nodes of a
 tmpfs mount. Each is proved to be the step of Namespace that bears its name, so the
 theorems about every run hold of these operations.
 */
module VfsOps {
  import opened Machine
  import opened TmpfsTree
  import opened Dcache
  import opened Namespace
  import opened NamespaceAnswers
  import TmpfsNodes
  import DcacheTables

  class Vfs {
    const fs: TmpfsNodes.Tmpfs
    const dc: DcacheTables.Tables

    ghost function View(): Ns
      reads fs, dc
    {
      Ns(fs.tree, dc.cache)
    }

    ghost predicate Valid()
      reads fs, dc, dc.bucket, dc.slot
    {
      fs.Sound() && dc.Valid() && Namespace.Sound(View())
    }

    /** A fresh tmpfs mount with nothing cached. */
    constructor (hash: Key -> nat, negHash: Key -> nat)
      ensures Valid() && fresh(fs) && fresh(dc) && fresh(dc.bucket) && fresh(dc.slot)
    {
      var mount := new TmpfsNodes.Tmpfs();
      fs := mount;
      dc := new DcacheTables.Tables(hash, negHash, mount.root);
      new;
      FreshMountSound(View());
    }

    /** The tables and the nodes are in order; Valid adds that they agree. */
    ghost predicate Intact()
      reads fs, dc, dc.bucket, dc.slot
    {
      fs.Sound() && dc.Valid()
    }

    /** One component of a path lookup. */
    method LookupChild(k: Key) returns (r: Option<nat>, ghost op: Op)
      requires Valid() && IsDir(View(), k.dir)
      modifies dc, dc.bucket, dc.slot
      ensures Valid() && op.Lookup? && op.k == k && Enabled(old(View()), op) && View() == Apply(old(View()), op)
      ensures r.Some? ==> Found(View(), r.value) && KeyOf(View().c, r.value) == k
      ensures r.None? ==> IsDir(View(), k.dir) && NoHit(View().c, k) && NodeKey(View(), k) !in View().t.entry
      ensures View().t == old(View()).t && Tells(old(View()), View(), k, r)
    {
      ghost var ns := View();
      r, op := Search(k);
      Looks(ns, op, View(), r);
    }

    /** The hash, then the negative cache, then tmpfs_lookup. */
    method Search(k: Key) returns (r: Option<nat>, ghost op: Op)
      requires Intact() && IsDir(View(), k.dir)
      modifies dc, dc.bucket, dc.slot
      ensures Intact() && op.Lookup? && op.k == k && Enabled(old(View()), op) && View() == Apply(old(View()), op)
      ensures IsDir(View(), k.dir) && Finds(View(), k, r)
    {
      op := Lookup(k, dc.next, {});
      r := dc.Lookup(k);
      if r.None? {
        var neg := dc.NegLookup(k);
        if !neg {
          r, op := Ask(k);
        }
      }
    }

    method Ask(k: Key) returns (r: Option<nat>, ghost op: Op)
      requires Intact() && IsDir(View(), k.dir) && NoHit(View().c, k) && k !in View().c.neg
      modifies dc, dc.bucket, dc.slot
      ensures Intact() && op.Lookup? && op.k == k && Enabled(old(View()), op) && View() == Apply(old(View()), op)
      ensures IsDir(View(), k.dir) && Finds(View(), k, r)
    {
      ghost var ns := View();
      var n := fs.Find(dc.dent[k.dir].inode.value, k.name);
      if n.None? {
        ghost var lost := dc.NegAdd(k);
        op := Lookup(k, dc.next, lost);
        r := None;
      } else {
        var inode := if fs.node[n.value].target.Some? then fs.node[n.value].target.value else n.value;
        r, op := Enter(k, inode);
      }
    }

    /** A new dentry for what the filesystem found. */
    method Enter(k: Key, inode: nat) returns (r: Option<nat>, ghost op: Op)
      requires Intact() && IsDir(View(), k.dir) && NoHit(View().c, k) && k !in View().c.neg
      requires NodeKey(View(), k) in View().t.entry && inode == LookOf(View().t)[NodeKey(View(), k)]
      modifies dc, dc.bucket, dc.slot
      ensures Intact() && op.Lookup? && op.k == k && Enabled(old(View()), op) && View() == Apply(old(View()), op)
      ensures IsDir(View(), k.dir) && Finds(View(), k, r)
    {
      var d := dc.Insert(k, inode);
      op := Lookup(k, d, {});
      r := Some(d);
    }

    /** The create, mkdir, mknod and symlink operations on an absent name. */
    method MakeAt(k: Key, dir: bool) returns (ghost op: Op)
      requires Valid() && IsDir(View(), k.dir) && NoHit(View().c, k) && NodeKey(View(), k) !in View().t.entry
      modifies fs, dc, dc.bucket, dc.slot
      ensures Valid() && op.Make? && op.k == k && op.dir == dir && Enabled(old(View()), op)
      ensures View() == Apply(old(View()), op)
      ensures MakeEffect(old(View()), View(), NodeKey(old(View()), k), dir, op.n)
    {
      ghost var ns := View();
      InodesAllocated(ns, k.dir);
      ghost var n, d;
      n, d := MakeRaw(k, dir);
      op := Make(k, dir, n, d);
      StepSound(ns, op);
      MakeLeaves(ns, k, dir, n, d);
    }

    method MakeRaw(k: Key, dir: bool) returns (ghost n: nat, ghost d: nat)
      requires Intact() && Allocated(View(), k.dir) && NodeKey(View(), k) !in View().t.entry
      modifies fs, dc, dc.bucket, dc.slot
      ensures Intact() && n !in old(View()).t.refs && d !in old(View()).c.dent
      ensures View() == Ns(Create(old(View()).t, NodeKey(old(View()), k), n, dir), Cached(old(View()).c, d, k, n))
    {
      var i := MakeNode(k, dir);
      var e := dc.Insert(k, i);
      n, d := i, e;
    }

    method MakeNode(k: Key, dir: bool) returns (n: nat)
      requires Intact() && Allocated(View(), k.dir) && NodeKey(View(), k) !in View().t.entry
      modifies fs
      ensures Intact() && n !in old(View()).t.refs
      ensures View() == old(View()).(t := Create(old(View()).t, NodeKey(old(View()), k), n, dir))
    {
      var r;
      r, n := fs.Make(dc.dent[k.dir].inode.value, k.name, dir);
      assert unchanged(dc) && unchanged(dc.bucket) && unchanged(dc.slot);
    }

    /** vfs_mkdir and its kin: they fail with EEXIST exactly if tmpfs has the name. */
    method MakeChild(k: Key, dir: bool) returns (r: Outcome, ghost ops: seq<Op>)
      requires Valid() && IsDir(View(), k.dir)
      modifies fs, dc, dc.bucket, dc.slot
      ensures Valid() && Runnable(old(View()), ops) && View() == Run(old(View()), ops)
      ensures r == if NodeKey(old(View()), k) in old(View()).t.entry then EEXIST else Done
      ensures r == EEXIST ==> View().t == old(View()).t
      ensures r == Done ==> exists n :: MakeEffect(old(View()), View(), NodeKey(old(View()), k), dir, n)
    {
      ghost var ns := View();
      var found;
      ghost var op, op';
      found, op := LookupChild(k);
      LookupStep(ns, op);
      if found.Some? {
        FoundNode(View(), found.value);
        return EEXIST, [op];
      }
      op' := MakeAt(k, dir);
      TwoSteps(ns, op, op');
      return Done, [op, op'];
    }

    /** unlink and rmdir of a dentry that was found. */
    method DeleteAt(x: nat, dir: bool) returns (r: Outcome)
      requires Valid() && Found(View(), x)
      modifies fs, dc, dc.bucket, dc.slot
      ensures Valid() && View() == Apply(old(View()), Delete(x, dir))
      ensures RemoveReply(old(View()).t, Inode(old(View()).c, x).value, dir, r)
      ensures RemoveEffect(old(View()), View(), NodeKey(old(View()), KeyOf(old(View()).c, x)), r)
    {
      ghost var ns := View();
      StepSound(ns, Delete(x, dir));
      RemoveAnswers(ns, x, dir);
      InodesAllocated(ns, KeyOf(ns.c, x).dir);
      DeleteSplits(ns, x, dir);
      r := DeleteRaw(x, dir);
    }

    method DeleteRaw(x: nat, dir: bool) returns (r: Outcome)
      requires Intact() && Settled(fs.tree) && Found(View(), x) && Allocated(View(), KeyOf(View().c, x).dir)
      modifies fs, dc, dc.bucket, dc.slot
      ensures Intact()
      ensures r == RemoveOutcome(old(View()).t, NodeKey(old(View()), KeyOf(old(View()).c, x)), dir)
      ensures View() == if r == Done
                        then Ns(Remove(old(View()).t, NodeKey(old(View()), KeyOf(old(View()).c, x))), Dropped(old(View()).c, x))
                        else old(View())
    {
      r := fs.Delete(dc.dent[dc.dent[x].parent.value].inode.value, dc.dent[x].name, dir);
      assert unchanged(dc) && unchanged(dc.bucket) && unchanged(dc.slot);
      if r == Done {
        dc.Forget(x);
      }
    }

    /** vfs_rename_flags_locked without RENAME_EXCHANGE, once both paths are looked up. */
    method RenameAt(x: nat, k: Key, e: Option<nat>, noReplace: bool) returns (r: Outcome)
      requires Valid() && Enabled(View(), Op.Rename(x, k, e, noReplace)) && ByPath(View().c, k)
      modifies fs, dc, dc.bucket, dc.slot
      ensures Valid() && View() == Apply(old(View()), Op.Rename(x, k, e, noReplace))
      ensures RenameReply(old(View()).t, Inode(old(View()).c, x).value, NodeKey(old(View()), k), noReplace, r)
      ensures RenameEffect(old(View()), View(), NodeKey(old(View()), KeyOf(old(View()).c, x)), NodeKey(old(View()), k),
                           Inode(old(View()).c, x).value, r)
    {
      ghost var ns := View();
      StepSound(ns, Op.Rename(x, k, e, noReplace));
      RenameAnswers(ns, x, k, e, noReplace);
      RenameLeaves(ns, x, k, e, noReplace);
      RenameReady(ns, x, k, e, noReplace);
      r := CheckedRename(x, k, e, noReplace);
    }

    method CheckedRename(x: nat, k: Key, e: Option<nat>, noReplace: bool) returns (r: Outcome)
      requires Intact() && Settled(fs.tree) && Enabled(View(), Op.Rename(x, k, e, noReplace))
      requires RenameAllowed(View(), x, k, e, noReplace)
      modifies fs, dc, dc.bucket, dc.slot
      ensures Intact() && View() == Apply(old(View()), Op.Rename(x, k, e, noReplace))
      ensures r == RenameAnswer(old(View()), x, k, e, noReplace)
    {
      ghost var ns := View();
      RenameSplits(ns, x, k, e, noReplace);
      var early := RenameChecks(x, k, e, noReplace);
      if early.Some? {
        return early.value;
      }
      r := RenameRaw(x, k, e);
    }

    /** The checks of rename before the filesystem is asked. */
    method RenameChecks(x: nat, k: Key, e: Option<nat>, noReplace: bool) returns (early: Option<Outcome>)
      requires Intact() && Allocated(View(), x) && (e.Some? ==> e.value in View().c.dent)
      ensures early == EarlyAnswer(View(), x, k, e, noReplace)
    {
      if e.Some? && dc.dent[e.value].inode == dc.dent[x].inode {
        return Some(if noReplace then EEXIST else Done);
      }
      var dir := fs.node[dc.dent[x].inode.value].dir;
      if dir {
        var below := dc.WalkUp(k.dir, x);
        if below {
          return Some(EINVAL);
        }
      }
      return if noReplace && e.Some? then Some(EEXIST) else None;
    }

    /** The filesystem's rename, and the dentries after it. */
    method RenameRaw(x: nat, k: Key, e: Option<nat>) returns (r: Outcome)
      requires Intact() && Settled(fs.tree) && Found(View(), x) && IsDir(View(), k.dir)
      requires e.Some? ==> Found(View(), e.value) && e.value != x && KeyOf(View().c, e.value) == k
      requires CanRename(View().t, NodeKey(View(), KeyOf(View().c, x)), NodeKey(View(), k))
      modifies fs, dc, dc.bucket, dc.slot
      ensures Intact()
      ensures r == RenameOutcome(old(View()).t, NodeKey(old(View()), KeyOf(old(View()).c, x)), NodeKey(old(View()), k))
      ensures View() == if r == Done then Relocated(old(View()), x, k, e) else old(View())
    {
      var p := dc.dent[x].parent.value;
      r := fs.Rename(dc.dent[p].inode.value, dc.dent[x].name, dc.dent[k.dir].inode.value, k.name);
      assert unchanged(dc) && unchanged(dc.bucket) && unchanged(dc.slot);
      if r == Done {
        dc.Relocate(x, k, e);
      }
    }

    /** vfs_rename_flags_locked with RENAME_EXCHANGE, once both paths are looked up. */
    method SwapAt(x: nat, y: nat) returns (r: Outcome)
      requires Valid() && Found(View(), x) && Found(View(), y)
      requires ByPath(View().c, KeyOf(View().c, x)) && ByPath(View().c, KeyOf(View().c, y))
      modifies fs, dc, dc.bucket, dc.slot
      ensures Valid() && View() == Apply(old(View()), Op.Swap(x, y))
      ensures var s := old(View());
              var from, to := NodeKey(s, KeyOf(s.c, x)), NodeKey(s, KeyOf(s.c, y));
              from in LookOf(s.t) && to in LookOf(s.t) && SwapReply(s.t, from, to, r) && SwapEffect(s, View(), from, to, r)
    {
      ghost var ns := View();
      StepSound(ns, Op.Swap(x, y));
      SwapAnswers(ns, x, y);
      SwapReady(ns, x, y);
      r := CheckedSwap(x, y);
    }

    method CheckedSwap(x: nat, y: nat) returns (r: Outcome)
      requires Intact() && Names(fs.tree) && Found(View(), x) && Found(View(), y) && SwapAllowed(View(), x, y)
      modifies fs, dc, dc.bucket, dc.slot
      ensures Intact() && View() == Apply(old(View()), Op.Swap(x, y)) && r == SwapAnswer(old(View()), x, y)
    {
      SwapSplits(View(), x, y);
      var early := SwapChecks(x, y);
      if early.Some? {
        return early.value;
      }
      r := SwapRaw(x, y);
    }

    method SwapChecks(x: nat, y: nat) returns (early: Option<Outcome>)
      requires Intact() && Allocated(View(), x) && Allocated(View(), y) && Keyed(View().c, x) && Keyed(View().c, y)
      ensures early == EarlySwap(View(), x, y)
    {
      if dc.dent[x].inode == dc.dent[y].inode {
        return Some(Done);
      }
      var loops := Encloses(x, dc.dent[y].parent.value);
      if !loops {
        loops := Encloses(y, dc.dent[x].parent.value);
      }
      return if loops then Some(EINVAL) else None;
    }

    /** x is a directory that d descends from. */
    method Encloses(x: nat, d: nat) returns (r: bool)
      requires Intact() && Allocated(View(), x)
      ensures r <==> IsDir(View(), x) && DescendsFrom(View().c, d, x, WALK_LIMIT)
    {
      r := fs.node[dc.dent[x].inode.value].dir;
      if r {
        r := dc.WalkUp(d, x);
      }
    }

    method SwapRaw(x: nat, y: nat) returns (r: Outcome)
      requires Intact() && Names(fs.tree) && Found(View(), x) && Found(View(), y) && x != y
      requires CanSwap(View().t, NodeKey(View(), KeyOf(View().c, x)), NodeKey(View(), KeyOf(View().c, y)))
      modifies fs, dc, dc.bucket, dc.slot
      ensures Intact() && r == Done
      ensures var s := old(View());
              View() == Ns(Exchange(s.t, NodeKey(s, KeyOf(s.c, x)), NodeKey(s, KeyOf(s.c, y))), Swapped(s.c, x, y))
    {
      r := SwapNodes(x, y);
      dc.Interchange(x, y);
    }

    method SwapNodes(x: nat, y: nat) returns (r: Outcome)
      requires Intact() && Names(fs.tree) && Found(View(), x) && Found(View(), y)
      requires CanSwap(View().t, NodeKey(View(), KeyOf(View().c, x)), NodeKey(View(), KeyOf(View().c, y)))
      modifies fs
      ensures Intact() && r == Done
      ensures var s := old(View());
              View() == s.(t := Exchange(s.t, NodeKey(s, KeyOf(s.c, x)), NodeKey(s, KeyOf(s.c, y))))
    {
      var p, q := dc.dent[x].parent.value, dc.dent[y].parent.value;
      r := fs.Swap(dc.dent[p].inode.value, dc.dent[x].name, dc.dent[q].inode.value, dc.dent[y].name);
      assert unchanged(dc) && unchanged(dc.bucket) && unchanged(dc.slot);
    }

    /** vfs_link_locked once the new name is known to be absent. */
    method LinkAt(src: nat, k: Key) returns (r: bool, ghost op: Op)
      requires Valid() && IsDir(View(), k.dir) && NoHit(View().c, k) && NodeKey(View(), k) !in View().t.entry
      requires Inode(View().c, src).Some?
      modifies fs, dc, dc.bucket, dc.slot
      ensures Valid() && op.LinkTo? && op.src == src && op.k == k && Enabled(old(View()), op)
      ensures View() == Apply(old(View()), op)
      ensures r <==> !IsDir(old(View()), src)
      ensures if r then LookOf(View().t) == LookOf(old(View()).t)[NodeKey(old(View()), k) := Inode(old(View()).c, src).value]
              else View() == old(View())
    {
      ghost var ns := View();
      InodesAllocated(ns, k.dir);
      InodesAllocated(ns, src);
      ghost var n, d := fs.next, dc.next;
      r := !fs.node[dc.dent[src].inode.value].dir;
      if r {
        n, d := LinkRaw(src, k);
      }
      op := LinkTo(src, k, n, d);
      StepSound(ns, op);
      LinkLeaves(ns, src, k, n, d);
    }

    method LinkRaw(src: nat, k: Key) returns (ghost n: nat, ghost d: nat)
      requires Intact() && StubsOk(fs.tree, {}) && Allocated(View(), k.dir) && Allocated(View(), src)
      requires NodeKey(View(), k) !in View().t.entry && !IsDir(View(), src) && Inode(View().c, src).value !in fs.tree.target
      modifies fs, dc, dc.bucket, dc.slot
      ensures Intact() && n !in old(View()).t.refs && d !in old(View()).c.dent
      ensures View() == Ns(Link(old(View()).t, NodeKey(old(View()), k), n, Inode(old(View()).c, src).value),
                           Cached(old(View()).c, d, k, Inode(old(View()).c, src).value))
    {
      var i := dc.dent[src].inode.value;
      var m := LinkNode(k, i);
      var e := dc.Insert(k, i);
      n, d := m, e;
    }

    method LinkNode(k: Key, i: nat) returns (m: nat)
      requires Intact() && StubsOk(fs.tree, {}) && Allocated(View(), k.dir) && NodeKey(View(), k) !in View().t.entry
      requires i in fs.tree.refs && i !in fs.tree.dirs && i !in fs.tree.target
      modifies fs
      ensures Intact() && m !in old(View()).t.refs
      ensures View() == old(View()).(t := Link(old(View()).t, NodeKey(old(View()), k), m, i))
    {
      assert Resolve(fs.tree, i) == i;
      var r;
      r, m := fs.MakeLink(dc.dent[k.dir].inode.value, k.name, i);
      assert unchanged(dc) && unchanged(dc.bucket) && unchanged(dc.slot);
    }

    /** The tmpfs part of opening a dentry. */
    method OpenAt(x: nat)
      requires Valid() && Inode(View().c, x).Some?
      modifies fs
      ensures Valid() && Enabled(old(View()), Op.OpenFile(x)) && View() == Apply(old(View()), Op.OpenFile(x))
    {
      InodesAllocated(View(), x);
      StepSound(View(), Op.OpenFile(x));
      OpenRaw(x);
    }

    method OpenRaw(x: nat)
      requires Intact() && Allocated(View(), x)
      modifies fs
      ensures Intact() && View() == old(View()).(t := Open(old(View()).t, Inode(old(View()).c, x).value))
    {
      fs.OpenFile(dc.dent[x].inode.value);
      assert unchanged(dc) && unchanged(dc.bucket) && unchanged(dc.slot);
    }

    /** The tmpfs part of the last close of an open file. */
    method CloseAt(i: nat)
      requires Valid() && i in View().t.opens
      modifies fs
      ensures Valid() && View() == Apply(old(View()), Op.CloseFile(i))
    {
      StepSound(View(), Op.CloseFile(i));
      CloseRaw(i);
    }

    method CloseRaw(i: nat)
      requires Intact() && Settled(fs.tree) && i in fs.tree.opens
      modifies fs
      ensures Intact() && View() == old(View()).(t := Release(old(View()).t, i))
    {
      fs.ReleaseFile(i);
      assert unchanged(dc) && unchanged(dc.bucket) && unchanged(dc.slot);
    }
  }

  /** A dentry under the key, or an absence that a cache or the filesystem vouches for. */
  ghost predicate Finds(ns: Ns, k: Key, r: Option<nat>)
    requires IsDir(ns, k.dir)
  {
    if r.Some? then r.value in ns.c.hashed && Keyed(ns.c, r.value) && KeyOf(ns.c, r.value) == k
    else NoHit(ns.c, k) && (k in ns.c.neg || NodeKey(ns, k) !in ns.t.entry)
  }

  /** The answer of a lookup is what stands under the name. */
  ghost predicate Tells(ns: Ns, ns': Ns, k: Key, r: Option<nat>)
    requires IsDir(ns, k.dir)
  {
    var j, look := NodeKey(ns, k), LookOf(ns.t);
    if r.Some? then j in look && Inode(ns'.c, r.value) == Some(look[j]) else j !in look
  }

  lemma Looks(ns: Ns, op: Op, ns': Ns, r: Option<nat>)
    requires Namespace.Sound(ns) && op.Lookup? && Enabled(ns, op) && ns' == Apply(ns, op)
    requires IsDir(ns', op.k.dir) && Finds(ns', op.k, r)
    ensures Namespace.Sound(ns') && ns'.t == ns.t && Tells(ns, ns', op.k, r)
    ensures r.Some? ==> Found(ns', r.value) && KeyOf(ns'.c, r.value) == op.k
    ensures r.None? ==> NoHit(ns'.c, op.k) && NodeKey(ns', op.k) !in ns'.t.entry
  {
    StepSound(ns, op);
    LookupStep(ns, op);
    LookupFinds(ns', op.k, r);
    FindsTells(ns, ns', op.k, r);
  }

  lemma FindsTells(ns: Ns, ns': Ns, k: Key, r: Option<nat>)
    requires Namespace.Sound(ns') && ns'.t == ns.t && IsDir(ns, k.dir) && IsDir(ns', k.dir) && NodeKey(ns', k) == NodeKey(ns, k)
    requires if r.Some? then Found(ns', r.value) && KeyOf(ns'.c, r.value) == k else NodeKey(ns', k) !in ns'.t.entry
    ensures Tells(ns, ns', k, r)
  {
    if r.Some? {
      FoundNode(ns', r.value);
    }
  }

  lemma LookupFinds(ns: Ns, k: Key, r: Option<nat>)
    requires Namespace.Sound(ns) && IsDir(ns, k.dir) && Finds(ns, k, r)
    ensures r.Some? ==> Found(ns, r.value) && KeyOf(ns.c, r.value) == k
    ensures r.None? ==> NoHit(ns.c, k) && NodeKey(ns, k) !in ns.t.entry
  {
    if r.Some? {
      FoundByHash(ns, r.value);
    } else if k in ns.c.neg {
      RememberedAbsent(ns, k);
    }
  }

  lemma RememberedAbsent(ns: Ns, k: Key)
    requires Namespace.Sound(ns) && IsDir(ns, k.dir) && NoHit(ns.c, k) && k in ns.c.neg
    ensures NodeKey(ns, k) !in ns.t.entry
  {
    CachesAgree(LookOf(ns.t), ns.t.dirs, ns.t.root, ns.c, k, Negative);
  }

  lemma FoundByHash(ns: Ns, d: nat)
    requires Namespace.Sound(ns) && d in ns.c.hashed
    ensures Found(ns, d)
  {
    assert Backed(LookOf(ns.t), ns.c, d);
  }

  lemma FreshMountSound(ns: Ns)
    requires TreeOk(ns.t) && ns.t.entry == map[]
    requires ns.c == Cache(0, map[0 := Dentry(None, "/", Some(ns.t.root))], {}, {})
    ensures Namespace.Sound(ns)
  {
  }

  lemma OneStep(ns: Ns, op: Op)
    requires Enabled(ns, op) && Named(ns, op)
    ensures Runnable(ns, [op]) && Run(ns, [op]) == Apply(ns, op)
  {
    assert [op][1..] == [];
  }

  lemma LookupStep(ns: Ns, op: Op)
    requires op.Lookup? && Enabled(ns, op)
    ensures Runnable(ns, [op]) && Run(ns, [op]) == Apply(ns, op)
    ensures Apply(ns, op).t == ns.t && IsDir(Apply(ns, op), op.k.dir)
    ensures NodeKey(Apply(ns, op), op.k) == NodeKey(ns, op.k)
  {
    OneStep(ns, op);
  }

  lemma TwoSteps(ns: Ns, op: Op, op': Op)
    requires Enabled(ns, op) && op.Lookup? && Enabled(Apply(ns, op), op') && Named(Apply(ns, op), op')
    ensures Runnable(ns, [op, op']) && Run(ns, [op, op']) == Apply(Apply(ns, op), op')
  {
    OneStep(Apply(ns, op), op');
    assert [op, op'][1..] == [op'];
  }

  lemma DeleteSplits(ns: Ns, x: nat, dir: bool)
    requires Found(ns, x)
    ensures var k := NodeKey(ns, KeyOf(ns.c, x));
            Apply(ns, Delete(x, dir))
            == if RemoveOutcome(ns.t, k, dir) == Done then Ns(Remove(ns.t, k), Dropped(ns.c, x)) else ns
  {
  }

  // ---------------------------------------------------------------------------- rename

  lemma RenameSplits(ns: Ns, x: nat, k: Key, e: Option<nat>, noReplace: bool)
    requires Enabled(ns, Op.Rename(x, k, e, noReplace))
    ensures Apply(ns, Op.Rename(x, k, e, noReplace))
            == if EarlyAnswer(ns, x, k, e, noReplace).None? && RenameAnswer(ns, x, k, e, noReplace) == Done
               then Relocated(ns, x, k, e) else ns
  {
  }

  lemma SwapSplits(ns: Ns, x: nat, y: nat)
    requires Found(ns, x) && Found(ns, y)
    ensures EarlySwap(ns, x, y).Some? ==> Apply(ns, Op.Swap(x, y)) == ns
    ensures var from, to := NodeKey(ns, KeyOf(ns.c, x)), NodeKey(ns, KeyOf(ns.c, y));
            EarlySwap(ns, x, y).None? && from in ns.t.entry && to in ns.t.entry ==>
              Apply(ns, Op.Swap(x, y)) == Ns(Exchange(ns.t, from, to), Swapped(ns.c, x, y))
  {
  }

  function Relocated(ns: Ns, x: nat, k: Key, e: Option<nat>): Ns
    requires Found(ns, x) && IsDir(ns, k.dir) && (e.Some? ==> e.value in ns.c.dent)
  {
    Ns(Renamed(ns.t, NodeKey(ns, KeyOf(ns.c, x)), NodeKey(ns, k)),
       Moved(if e.Some? then Dropped(ns.c, e.value) else ns.c, x, k))
  }

  /** What tmpfs_rename needs of its caller. */
  ghost predicate CanRename(t: Tree, from: Key, to: Key)
  {
    && from != to && from.dir in t.refs && to.dir in t.dirs && Attached(t, to.dir)
    && (from in t.entry ==> t.entry[from] != from.dir && t.entry[from] != to.dir)
  }

  ghost predicate CanSwap(t: Tree, from: Key, to: Key)
  {
    && from in t.entry && to in t.entry && from != to && from.dir in t.refs && to.dir in t.refs
    && t.entry[from] != from.dir && t.entry[from] != to.dir && t.entry[to] != from.dir && t.entry[to] != to.dir
  }

  /** The inode is there to be inspected, and a rename that passes the checks is one that
      tmpfs can carry out. */
  ghost predicate RenameAllowed(ns: Ns, x: nat, k: Key, e: Option<nat>, noReplace: bool)
    requires Enabled(ns, Op.Rename(x, k, e, noReplace))
  {
    && Allocated(ns, x)
    && (EarlyAnswer(ns, x, k, e, noReplace).None? ==> CanRename(ns.t, NodeKey(ns, KeyOf(ns.c, x)), NodeKey(ns, k)))
  }

  ghost predicate SwapAllowed(ns: Ns, x: nat, y: nat)
    requires Found(ns, x) && Found(ns, y)
  {
    && Allocated(ns, x) && Allocated(ns, y)
    && (EarlySwap(ns, x, y).None? ==> CanSwap(ns.t, NodeKey(ns, KeyOf(ns.c, x)), NodeKey(ns, KeyOf(ns.c, y))))
  }

  lemma NotInItself(ns: Ns, x: nat)
    requires Namespace.Sound(ns) && Found(ns, x)
    ensures var from := NodeKey(ns, KeyOf(ns.c, x));
            from in ns.t.entry && ns.t.entry[from] != from.dir && from.dir in ns.t.dirs && from.dir in ns.t.refs
  {
    FoundNode(ns, x);
    var from := NodeKey(ns, KeyOf(ns.c, x));
    var n := ns.t.entry[from];
    assert Grounded(ns.t.at, from.dir);
    var p :| Climb(ns.t.at, from.dir, p);
    NotAboveItself(ns.t.at, n, p);
  }

  lemma HangsElsewhere(t: Tree, n: nat, d: nat)
    requires CanHang(t, n, d)
    ensures n != d
  {
    var p :| Climb(t.at, d, p) && n !in p;
  }

  lemma RenameReady(ns: Ns, x: nat, k: Key, e: Option<nat>, noReplace: bool)
    requires Namespace.Sound(ns) && Enabled(ns, Op.Rename(x, k, e, noReplace)) && ByPath(ns.c, k)
    ensures RenameAllowed(ns, x, k, e, noReplace)
  {
    InodesAllocated(ns, x);
    ByPathShallow(ns, k);
    if EarlyAnswer(ns, x, k, e, noReplace).None? {
      RenamePossible(ns, x, k, e, noReplace);
    }
  }

  lemma RenamePossible(ns: Ns, x: nat, k: Key, e: Option<nat>, noReplace: bool)
    requires Namespace.Sound(ns) && Enabled(ns, Op.Rename(x, k, e, noReplace)) && Shallow(ns, k.dir)
    requires EarlyAnswer(ns, x, k, e, noReplace).None?
    ensures CanRename(ns.t, NodeKey(ns, KeyOf(ns.c, x)), NodeKey(ns, k))
  {
    NotInItself(ns, x);
    RenameCheckSuffices(ns, x, k.dir);
    HangsElsewhere(ns.t, ns.t.entry[NodeKey(ns, KeyOf(ns.c, x))], NodeKey(ns, k).dir);
    DirectoryAttached(ns, k.dir);
    if e.Some? {
      TreeTidy(ns.t);
      OneName(LookOf(ns.t), ns.t.dirs, ns.t.root, ns.c, x, e.value);
    }
  }

  lemma SwapReady(ns: Ns, x: nat, y: nat)
    requires Namespace.Sound(ns) && Found(ns, x) && Found(ns, y)
    requires ByPath(ns.c, KeyOf(ns.c, x)) && ByPath(ns.c, KeyOf(ns.c, y))
    ensures SwapAllowed(ns, x, y)
  {
    ParentIsDir(ns, x);
    ParentIsDir(ns, y);
    ByPathShallow(ns, KeyOf(ns.c, x));
    ByPathShallow(ns, KeyOf(ns.c, y));
    InodesAllocated(ns, x);
    InodesAllocated(ns, y);
    if EarlySwap(ns, x, y).None? {
      SwapPossible(ns, x, y);
    }
  }

  lemma SwapPossible(ns: Ns, x: nat, y: nat)
    requires Namespace.Sound(ns) && Found(ns, x) && Found(ns, y) && EarlySwap(ns, x, y).None?
    requires Shallow(ns, KeyOf(ns.c, x).dir) && Shallow(ns, KeyOf(ns.c, y).dir)
    ensures CanSwap(ns.t, NodeKey(ns, KeyOf(ns.c, x)), NodeKey(ns, KeyOf(ns.c, y)))
  {
    var from, to := NodeKey(ns, KeyOf(ns.c, x)), NodeKey(ns, KeyOf(ns.c, y));
    NotInItself(ns, x);
    NotInItself(ns, y);
    TreeTidy(ns.t);
    OneName(LookOf(ns.t), ns.t.dirs, ns.t.root, ns.c, x, y);
    RenameCheckSuffices(ns, x, KeyOf(ns.c, y).dir);
    RenameCheckSuffices(ns, y, KeyOf(ns.c, x).dir);
    HangsElsewhere(ns.t, ns.t.entry[from], to.dir);
    HangsElsewhere(ns.t, ns.t.entry[to], from.dir);
  }
}
