/**
 The mount table as fs/namespace.c changes it: dentries overwritten in place, the cached
 tree below them taken out of the hash and put back by a bounded recursive walk, and
 records pushed on and taken off a list.
 */
module MountOps {
  import opened Machine
  import opened TmpfsTree
  import opened MountStack
  import PathResolve

  // ------------------------------------------------------------- the walk, top down

  lemma {:induction false} BelowChild(s: Mounts, x: nat, c: nat, d: nat, k: nat)
    requires Listed(s, c) && s.at[c].dir == d && Below(s, x, c, k)
    ensures Below(s, x, d, k + 1)
    decreases k
  {
    if s.at[x].dir != c {
      BelowChild(s, s.at[x].dir, c, d, k - 1);
    }
  }

  lemma {:induction false} BelowOneChild(s: Mounts, x: nat, d: nat, k: nat) returns (c: nat)
    requires Below(s, x, d, k)
    ensures Listed(s, c) && s.at[c].dir == d && (x == c || Below(s, x, c, k - 1))
    decreases k
  {
    if s.at[x].dir == d {
      c := x;
    } else {
      c := BelowOneChild(s, s.at[x].dir, d, k - 1);
    }
  }

  /** Some child among these is x or has x below it. */
  ghost predicate Through(s: Mounts, x: nat, cs: seq<nat>, k: nat)
  {
    exists c | c in cs :: x == c || Below(s, x, c, k)
  }

  lemma BelowIsThrough(s: Mounts, x: nat, d: nat, k: nat)
    requires ListsOk(s) && d in s.body && k > 0
    ensures Below(s, x, d, k) <==> Through(s, x, s.body[d].subdirs, k - 1)
  {
    if Below(s, x, d, k) {
      var c := BelowOneChild(s, x, d, k);
      assert c in s.body[d].subdirs;
    }
    if Through(s, x, s.body[d].subdirs, k - 1) {
      var c :| c in s.body[d].subdirs && (x == c || Below(s, x, c, k - 1));
      if x != c {
        BelowChild(s, x, c, d, k - 1);
      }
    }
  }

  lemma ThroughNext(s: Mounts, x: nat, cs: seq<nat>, i: nat, k: nat)
    requires i < |cs|
    ensures Through(s, x, cs[..i + 1], k) <==> Through(s, x, cs[..i], k) || x == cs[i] || Below(s, x, cs[i], k)
  {
    var more := cs[..i + 1];
    assert more == cs[..i] + [cs[i]];
    if Through(s, x, more, k) {
      var c :| c in more && (x == c || Below(s, x, c, k));
      assert c in cs[..i] || c == cs[i];
    }
    assert cs[i] in more;
    assert forall c | c in cs[..i] :: c in more;
  }

  // ----------------------------------------------------------------------- the table

  datatype Reply = Unmounted | EINVAL | EBUSY

  class Table {
    const root: nat
    var at: map<nat, Key>
    var body: map<nat, Body>
    var hashed: set<nat>
    var recs: seq<Record>

    constructor (root: nat, b: Body)
      requires b.subdirs == []
      ensures Inv(View()) && View() == Mounts(root, map[], map[root := b], {}, [])
    {
      this.root := root;
      at, body, hashed, recs := map[], map[root := b], {}, [];
    }

    function View(): Mounts
      reads this
    {
      Mounts(root, at, body, hashed, recs)
    }

    /** dcache_subtree_walk without hashing: everything below d leaves the hash. */
    method UnhashWalk(d: nat, depth: nat)
      requires ListsOk(View()) && d in body && depth <= WALK_DEPTH
      modifies this`hashed
      ensures forall x :: x in hashed <==> x in old(hashed) && !Below(old(View()), x, d, WALK_DEPTH - depth)
      decreases WALK_DEPTH - depth
    {
      if depth >= WALK_DEPTH {
        return;
      }
      ghost var s, k := View(), WALK_DEPTH - depth;
      var cs := body[d].subdirs;
      var i := 0;
      while i < |cs|
        invariant 0 <= i <= |cs|
        invariant forall x :: x in hashed <==> x in old(hashed) && !Through(s, x, cs[..i], k - 1)
      {
        hashed := hashed - {cs[i]};
        ghost var mid := View();
        SameLists(s, mid);
        UnhashWalk(cs[i], depth + 1);
        forall x
          ensures x in hashed <==> x in old(hashed) && !Through(s, x, cs[..i + 1], k - 1)
        {
          ThroughNext(s, x, cs, i, k - 1);
          SameBelow(s, mid, x, cs[i], k - 1);
        }
        i := i + 1;
      }
      assert cs[..i] == cs;
      forall x
        ensures Below(s, x, d, k) <==> Through(s, x, cs, k - 1)
      {
        BelowIsThrough(s, x, d, k);
      }
    }

    /** dcache_subtree_walk with hashing: everything below d is hashed, once. */
    method RehashWalk(d: nat, depth: nat)
      requires ListsOk(View()) && d in body && depth <= WALK_DEPTH
      modifies this`hashed
      ensures forall x :: x in hashed <==> x in old(hashed) || Below(old(View()), x, d, WALK_DEPTH - depth)
      decreases WALK_DEPTH - depth
    {
      if depth >= WALK_DEPTH {
        return;
      }
      ghost var s, k := View(), WALK_DEPTH - depth;
      var cs := body[d].subdirs;
      var i := 0;
      while i < |cs|
        invariant 0 <= i <= |cs|
        invariant forall x :: x in hashed <==> x in old(hashed) || Through(s, x, cs[..i], k - 1)
      {
        if cs[i] !in hashed {
          hashed := hashed + {cs[i]};
        }
        ghost var mid := View();
        SameLists(s, mid);
        RehashWalk(cs[i], depth + 1);
        forall x
          ensures x in hashed <==> x in old(hashed) || Through(s, x, cs[..i + 1], k - 1)
        {
          ThroughNext(s, x, cs, i, k - 1);
          SameBelow(s, mid, x, cs[i], k - 1);
        }
        i := i + 1;
      }
      assert cs[..i] == cs;
      forall x
        ensures Below(s, x, d, k) <==> Through(s, x, cs, k - 1)
      {
        BelowIsThrough(s, x, d, k);
      }
    }

    method UnhashSubtree(d: nat)
      requires ListsOk(View()) && d in body
      modifies this`hashed
      ensures View() == Unhashed(old(View()), d)
    {
      UnhashWalk(d, 0);
      assert hashed == Unhashed(old(View()), d).hashed;
    }

    method RehashSubtree(d: nat)
      requires ListsOk(View()) && d in body
      modifies this`hashed
      ensures View() == Rehashed(old(View()), d)
    {
      RehashWalk(d, 0);
      assert hashed == Rehashed(old(View()), d).hashed;
    }

    /** vfs_mount_flags_locked and do_bind on a dentry that exists: `graft` is the inode
        and superblock the filesystem puts there, None where it refuses. */
    method MountOn(path: string, d: nat, graft: Option<Body>) returns (ok: bool)
      requires Inv(View()) && d in body && Shown(View(), d)
      requires graft.Some? ==> graft.value.subdirs == []
      modifies this
      ensures ok == graft.Some? && Inv(View())
      ensures View() == if ok then Cover(old(View()), path, d, graft.value.inode, graft.value.sb) else old(View())
    {
      ghost var s := View();
      var saved := body[d];
      UnhashSubtree(d);
      body := body[d := saved.(subdirs := [])];
      if graft.None? {
        body := body[d := saved];
        assert body == s.body;
        SameLists(s, View());
        RehashSubtree(d);
        RehashInverts(s, d);
        return false;
      }
      body := body[d := graft.value];
      assert body == s.body[d := graft.value];
      recs := [Record(path, d, saved)] + recs;
      CoverKeeps(s, path, d, graft.value.inode, graft.value.sb);
      ok := true;
    }

    /** The search of the table by path. */
    method Find(path: string) returns (r: Option<nat>)
      ensures r == FirstWith(recs, path)
    {
      var i := 0;
      while i < |recs|
        invariant 0 <= i <= |recs| && forall j | 0 <= j < i :: recs[j].path != path
      {
        if recs[i].path == path {
          return Some(i);
        }
        i := i + 1;
      }
      r := None;
    }

    method IsBusy(path: string) returns (busy: bool)
      ensures busy <==> Busy(recs, path)
    {
      var i := 0;
      while i < |recs|
        invariant 0 <= i <= |recs|
        invariant forall j | 0 <= j < i :: !(recs[j].path != path && PathResolve.PathUnder(path, recs[j].path))
      {
        if recs[i].path != path && PathResolve.PathUnder(path, recs[i].path) {
          return true;
        }
        i := i + 1;
      }
      busy := false;
    }

    /** vfs_umount_locked of a filesystem that is not in use. */
    method UmountPath(path: string) returns (reply: Reply)
      requires Inv(View()) && Enabled(View(), Umount(path))
      modifies this
      ensures Inv(View()) && View() == Apply(old(View()), Umount(path))
      ensures reply == Unmounted <==> Unmounts(old(View()), path)
      ensures reply == Reply.EINVAL <==> forall i | 0 <= i < |old(recs)| :: old(recs)[i].path != path
    {
      ghost var s := View();
      StepKeeps(s, Umount(path));
      var found := Find(path);
      var busy := IsBusy(path);
      if found.None? {
        return Reply.EINVAL;
      }
      if busy {
        return EBUSY;
      }
      var r := recs[found.value];
      assert CoveredOk(s, r);
      UnhashSubtree(r.mp);
      body := body[r.mp := r.covered];
      recs := recs[..found.value] + recs[found.value + 1..];
      UncoverLists(s, found.value);
      SameLists(Uncover(s, found.value), View());
      RehashSubtree(r.mp);
      reply := Unmounted;
    }
  }

  lemma SameLists(s: Mounts, s': Mounts)
    requires ListsOk(s) && s'.root == s.root && s'.at == s.at && s'.body == s.body && s'.recs == s.recs
    ensures ListsOk(s')
  {
    forall i | 0 <= i < |s.recs|
      ensures CoveredOk(s', s.recs[i])
    {
      assert CoveredOk(s, s.recs[i]);
    }
  }
}
