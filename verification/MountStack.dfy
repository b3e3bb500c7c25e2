/**
 Mounting and unmounting in fs/namespace.c. A mount overwrites the mountpoint dentry in
 place and hides the names cached below it; the record of the mount keeps what umount has
 to put back. Every mountpoint is shown to be a stack, and the names that resolve below a
 dentry that can be reached to be exactly its current children.
 */
module MountStack {
  import opened Machine
  import opened TmpfsTree
  import PathResolve

  const WALK_DEPTH: nat := 64

  /** What a mount changes in a dentry: the inode, the superblock and the child list. */
  datatype Body = Body(inode: nat, sb: nat, subdirs: seq<nat>)

  datatype Record = Record(path: string, mp: nat, covered: Body)

  /** `at` gives the parent and the name of every dentry but the root; `hashed` are the
      dentries a lookup can find; `recs` is the mount table, newest first. */
  datatype Mounts = Mounts(root: nat, at: map<nat, Key>, body: map<nat, Body>, hashed: set<nat>, recs: seq<Record>)

  // -------------------------------------------------------------------- the cached tree

  /** x is a current child of its parent. */
  predicate Listed(s: Mounts, x: nat)
  {
    x in s.at && s.at[x].dir in s.body && x in s.body[s.at[x].dir].subdirs
  }

  /** x is reached from d within k levels of current children. */
  predicate Below(s: Mounts, x: nat, d: nat, k: nat)
    decreases k
  {
    k > 0 && Listed(s, x) && (s.at[x].dir == d || Below(s, s.at[x].dir, d, k - 1))
  }

  /** p leads from a dentry up to the root through current children. */
  ghost predicate Shows(s: Mounts, p: seq<nat>)
    decreases |p|
  {
    p != [] && if |p| == 1 then p[0] == s.root else Listed(s, p[0]) && s.at[p[0]].dir == p[1] && Shows(s, p[1..])
  }

  /** The dentry can be reached by names. */
  ghost predicate Shown(s: Mounts, x: nat)
  {
    exists p :: Shows(s, p) && p[0] == x
  }

  // ------------------------------------------------------------------------- invariant

  /** Child lists, current and covered, hold dentries of that parent, each in one list. */
  ghost predicate ListsOk(s: Mounts)
  {
    && s.root !in s.at && s.root in s.body
    && (forall d, x | d in s.body && x in s.body[d].subdirs :: x in s.at && s.at[x].dir == d && x in s.body)
    && (forall i | 0 <= i < |s.recs| :: CoveredOk(s, s.recs[i]))
    && (forall i, j | 0 <= i < j < |s.recs| && s.recs[i].mp == s.recs[j].mp ::
          Apart(s.recs[i].covered.subdirs, s.recs[j].covered.subdirs))
  }

  ghost predicate CoveredOk(s: Mounts, r: Record)
  {
    && r.mp in s.body
    && (forall x | x in r.covered.subdirs :: x in s.at && s.at[x].dir == r.mp && x in s.body)
    && Apart(r.covered.subdirs, s.body[r.mp].subdirs)
  }

  ghost predicate Apart(a: seq<nat>, b: seq<nat>)
  {
    forall x | x in a :: x !in b
  }

  /** What a lookup finds is a current child, and all children of a reachable dentry are
      found. */
  ghost predicate NamesOk(s: Mounts)
  {
    && (forall x | x in s.hashed :: Listed(s, x))
    && (forall d, x | Shown(s, d) && d in s.body && x in s.body[d].subdirs :: x in s.hashed)
  }

  ghost predicate Inv(s: Mounts)
  {
    ListsOk(s) && NamesOk(s)
  }

  /** The names that resolve below a reachable dentry are exactly its current children. */
  lemma NamesAreChildren(s: Mounts, d: nat)
    requires Inv(s) && Shown(s, d) && d in s.body
    ensures forall x :: x in s.body[d].subdirs <==> x in s.hashed && x in s.at && s.at[x].dir == d
  {
  }

  // ------------------------------------------------------------------------ operations

  function Unhashed(s: Mounts, d: nat): Mounts
  {
    s.(hashed := set x | x in s.hashed && !Below(s, x, d, WALK_DEPTH))
  }

  function Rehashed(s: Mounts, d: nat): Mounts
  {
    s.(hashed := s.hashed + set x | x in s.at && Below(s, x, d, WALK_DEPTH))
  }

  /** A mount or bind on dentry d: its cached tree is unhashed, the dentry gets the new
      inode and superblock and no children, and the record keeps the old ones. */
  function Cover(s: Mounts, path: string, d: nat, inode: nat, sb: nat): Mounts
    requires d in s.body
  {
    var s1 := Unhashed(s, d);
    s1.(body := s.body[d := Body(inode, sb, [])], recs := [Record(path, d, s.body[d])] + s.recs)
  }

  /** A mount that the filesystem refuses, after the dentry was prepared for it. */
  function Refused(s: Mounts, d: nat, inode: nat, sb: nat): Mounts
    requires d in s.body
  {
    var s1 := Unhashed(s, d).(body := s.body[d := Body(inode, sb, [])]);
    Rehashed(s1.(body := s1.body[d := s.body[d]]), d)
  }

  /** Remove record i and put back what it covered. */
  function Uncover(s: Mounts, i: nat): Mounts
    requires i < |s.recs|
  {
    var r := s.recs[i];
    var s1 := Unhashed(s, r.mp);
    Rehashed(s1.(body := s.body[r.mp := r.covered], recs := s.recs[..i] + s.recs[i + 1..]), r.mp)
  }

  /** A lookup below the mount caches a new child. */
  function Grow(s: Mounts, d: nat, name: string, x: nat, b: Body): Mounts
    requires d in s.body
  {
    s.(at := s.at[x := Key(d, name)],
       body := s.body[x := b][d := s.body[d].(subdirs := [x] + s.body[d].subdirs)],
       hashed := s.hashed + {x})
  }

  /** The record umount(path) takes: the newest with that path. */
  function FirstWith(recs: seq<Record>, path: string): (i: Option<nat>)
    ensures i.Some? ==> i.value < |recs| && recs[i.value].path == path && forall j | 0 <= j < i.value :: recs[j].path != path
    ensures i.None? ==> forall j | 0 <= j < |recs| :: recs[j].path != path
  {
    if recs == [] then None
    else if recs[0].path == path then Some(0)
    else
      var i := FirstWith(recs[1..], path);
      if i.None? then None else Some(i.value + 1)
  }

  // --------------------------------------------------------------------- the stack

  /** The mounts on a dentry, newest first. */
  function Stack(recs: seq<Record>, d: nat): (st: seq<Record>)
    ensures forall r | r in st :: r.mp == d
  {
    if recs == [] then []
    else (if recs[0].mp == d then [recs[0]] else []) + Stack(recs[1..], d)
  }

  /** A mount puts the filesystem's inode and superblock into its dentry, pushes on the stack
      of the dentry what it covers there, and touches no other dentry. */
  lemma CoverPushes(s: Mounts, path: string, d: nat, inode: nat, sb: nat, e: nat)
    requires d in s.body
    ensures var s' := Cover(s, path, d, inode, sb);
            && Stack(s'.recs, e) == (if e == d then [Record(path, d, s.body[d])] else []) + Stack(s.recs, e)
            && s'.body.Keys == s.body.Keys && s'.body[d] == Body(inode, sb, [])
            && (e in s.body && e != d ==> s'.body[e] == s.body[e])
  {
    var s' := Cover(s, path, d, inode, sb);
    assert s'.recs[1..] == s.recs;
  }

  lemma {:induction false} StackConcat(a: seq<Record>, b: seq<Record>, d: nat)
    ensures Stack(a + b, d) == Stack(a, d) + Stack(b, d)
  {
    if a == [] {
      assert a + b == b;
    } else {
      assert (a + b)[1..] == a[1..] + b;
      StackConcat(a[1..], b, d);
    }
  }

  lemma {:induction false} StackFrom(recs: seq<Record>, d: nat)
    ensures forall r | r in Stack(recs, d) :: r in recs
  {
    if recs != [] {
      StackFrom(recs[1..], d);
    }
  }

  /** The stack around one record of the table. */
  lemma StackAround(recs: seq<Record>, i: nat, d: nat)
    requires i < |recs|
    ensures Stack(recs, d) == Stack(recs[..i], d) + (if recs[i].mp == d then [recs[i]] else []) + Stack(recs[i + 1..], d)
    ensures Stack(recs[..i] + recs[i + 1..], d) == Stack(recs[..i], d) + Stack(recs[i + 1..], d)
  {
    assert recs == recs[..i] + recs[i..] && recs[i..][1..] == recs[i + 1..];
    StackConcat(recs[..i], recs[i..], d);
    StackConcat(recs[..i], recs[i + 1..], d);
  }

  /** Taking a record out of the table takes it out of the stack of its dentry. */
  lemma StackDrop(recs: seq<Record>, i: nat) returns (k: nat)
    requires i < |recs|
    ensures var st := Stack(recs, recs[i].mp);
            && k < |st| && st[k] == recs[i]
            && Stack(recs[..i] + recs[i + 1..], recs[i].mp) == st[..k] + st[k + 1..]
            && forall j | 0 <= j < k :: st[j] in recs[..i]
  {
    var m := recs[i].mp;
    StackAround(recs, i, m);
    StackFrom(recs[..i], m);
    k := |Stack(recs[..i], m)|;
    SplitAround(Stack(recs[..i], m), recs[i], Stack(recs[i + 1..], m));
  }

  lemma SplitAround(a: seq<Record>, r: Record, b: seq<Record>)
    ensures var st := a + [r] + b;
            |a| < |st| && st[|a|] == r && st[..|a|] + st[|a| + 1..] == a + b && forall j | 0 <= j < |a| :: st[j] == a[j]
  {
  }

  lemma StackDropElsewhere(recs: seq<Record>, i: nat, d: nat)
    requires i < |recs| && recs[i].mp != d
    ensures Stack(recs[..i] + recs[i + 1..], d) == Stack(recs, d)
  {
    StackAround(recs, i, d);
  }

  /** The record that umount(path) takes is on top of the stack of its dentry exactly if the
      newest mount there was made under that path. */
  lemma FirstIsTop(recs: seq<Record>, path: string, k: nat)
    requires FirstWith(recs, path).Some?
    requires var i := FirstWith(recs, path).value;
             && k < |Stack(recs, recs[i].mp)| && Stack(recs, recs[i].mp)[k] == recs[i]
             && forall j | 0 <= j < k :: Stack(recs, recs[i].mp)[j] in recs[..i]
    ensures k == 0 <==> Stack(recs, recs[FirstWith(recs, path).value].mp)[0].path == path
  {
    var i := FirstWith(recs, path).value;
    var st := Stack(recs, recs[i].mp);
    if k > 0 {
      assert st[0] in recs[..i];
      assert forall r | r in recs[..i] :: r.path != path;
    }
  }

  /** umount(path) takes the newest mount off its dentry, and puts back what that mount
      covered, exactly if the newest mount there was made under that path. The table is
      searched by path: if a dentry is mounted on under two paths, as through a symbolic
      link, umount can take a mount from the middle of the stack. */
  lemma PopsIff(s: Mounts, path: string)
    requires FirstWith(s.recs, path).Some?
    ensures var i := FirstWith(s.recs, path).value;
            var s', d := Uncover(s, i), s.recs[i].mp;
            && Stack(s.recs, d) != []
            && (Stack(s'.recs, d) == Stack(s.recs, d)[1..] <==> Stack(s.recs, d)[0].path == path)
            && (Stack(s.recs, d)[0].path == path ==> s'.body[d] == Stack(s.recs, d)[0].covered)
  {
    var i := FirstWith(s.recs, path).value;
    var st := Stack(s.recs, s.recs[i].mp);
    var k := StackDrop(s.recs, i);
    FirstIsTop(s.recs, path, k);
    if k > 0 {
      DroppedDiffers(st, k);
    } else {
      assert st[..0] + st[1..] == st[1..];
    }
  }

  /** Leaving out another element than the first, and one that differs from it, is not
      leaving out the first. */
  lemma {:induction false} DroppedDiffers(st: seq<Record>, k: nat)
    requires 0 < k < |st| && st[k].path != st[0].path
    ensures st[..k] + st[k + 1..] != st[1..]
  {
    var a, b := st[..k] + st[k + 1..], st[1..];
    if a == b {
      ShiftedEqual(st, k);
    }
  }

  lemma {:induction false} ShiftedEqual(st: seq<Record>, k: nat)
    requires k < |st| && st[..k] + st[k + 1..] == st[1..]
    ensures st[k] == st[0]
  {
    var j := 0;
    while j < k
      invariant 0 <= j <= k && st[j] == st[0]
    {
      assert (st[..k] + st[k + 1..])[j] == st[j] && st[1..][j] == st[j + 1];
      j := j + 1;
    }
  }

  /** umount touches no other dentry and no other stack. */
  lemma UncoverElsewhere(s: Mounts, i: nat, e: nat)
    requires i < |s.recs| && e != s.recs[i].mp
    ensures var s' := Uncover(s, i);
            Stack(s'.recs, e) == Stack(s.recs, e) && (e in s.body ==> e in s'.body && s'.body[e] == s.body[e])
  {
    StackDropElsewhere(s.recs, i, e);
  }

  // ------------------------------------------------------- what the operations keep

  /** The way up from a dentry below d leads past d. */
  lemma {:induction false} PassesThrough(s: Mounts, x: nat, d: nat, k: nat, p: seq<nat>)
    requires ListsOk(s) && Below(s, x, d, k) && Shows(s, p) && p[0] == x
    ensures d in p[1..]
    decreases k
  {
    if s.at[x].dir != d {
      PassesThrough(s, s.at[x].dir, d, k - 1, p[1..]);
    }
  }

  /** A way up in one state is a way up in another that has the lists on it. */
  lemma {:induction false} ShowsFrame(s: Mounts, s': Mounts, p: seq<nat>)
    requires Shows(s, p) && s'.root == s.root
    requires forall i | 0 <= i < |p| - 1 :: Listed(s', p[i]) && p[i] in s.at && s'.at[p[i]] == s.at[p[i]]
    ensures Shows(s', p)
    decreases |p|
  {
    if |p| > 1 {
      assert Listed(s', p[0]);
      forall i | 0 <= i < |p[1..]| - 1
        ensures Listed(s', p[1..][i]) && p[1..][i] in s.at && s'.at[p[1..][i]] == s.at[p[1..][i]]
      {
        assert p[1..][i] == p[i + 1];
      }
      ShowsFrame(s, s', p[1..]);
    }
  }

  lemma {:induction false} ShowsListed(s: Mounts, p: seq<nat>, i: nat)
    requires Shows(s, p) && i < |p| - 1
    ensures Listed(s, p[i]) && s.at[p[i]].dir == p[i + 1]
    decreases i
  {
    if i > 0 {
      ShowsListed(s, p[1..], i - 1);
    }
  }

  /** After a mount on d a way up does not pass d from below. */
  lemma NotPast(s: Mounts, p: seq<nat>, d: nat)
    requires Shows(s, p) && d in s.body && s.body[d].subdirs == []
    ensures d !in p[1..]
  {
    if d in p[1..] {
      var j :| 0 <= j < |p[1..]| && p[1..][j] == d;
      ShowsListed(s, p, j);
    }
  }

  lemma CoverLists(s: Mounts, path: string, d: nat, inode: nat, sb: nat)
    requires ListsOk(s) && d in s.body
    ensures ListsOk(Cover(s, path, d, inode, sb))
  {
    var s' := Cover(s, path, d, inode, sb);
    forall i | 0 <= i < |s'.recs|
      ensures CoveredOk(s', s'.recs[i])
    {
      if i > 0 {
        assert CoveredOk(s, s.recs[i - 1]);
      }
    }
    forall i, j | 0 <= i < j < |s'.recs| && s'.recs[i].mp == s'.recs[j].mp
      ensures Apart(s'.recs[i].covered.subdirs, s'.recs[j].covered.subdirs)
    {
      assert CoveredOk(s, s.recs[j - 1]);
      if i > 0 {
        assert Apart(s.recs[i - 1].covered.subdirs, s.recs[j - 1].covered.subdirs);
      }
    }
  }

  lemma CoverNames(s: Mounts, path: string, d: nat, inode: nat, sb: nat)
    requires ListsOk(s) && NamesOk(s) && d in s.body
    ensures NamesOk(Cover(s, path, d, inode, sb))
  {
    var s' := Cover(s, path, d, inode, sb);
    forall x | x in s'.hashed
      ensures Listed(s', x)
    {
      assert Listed(s, x);
      assert s.at[x].dir == d ==> Below(s, x, d, WALK_DEPTH);
    }
    forall e, x | Shown(s', e) && e in s'.body && x in s'.body[e].subdirs
      ensures x in s'.hashed
    {
      var p :| Shows(s', p) && p[0] == e;
      CoverFinds(s, s', d, p, x);
    }
  }

  lemma CoverFinds(s: Mounts, s': Mounts, d: nat, p: seq<nat>, x: nat)
    requires ListsOk(s) && NamesOk(s) && d in s.body && Shows(s', p) && s'.root == s.root && s'.at == s.at
    requires d in s'.body && s'.body == s.body[d := s'.body[d]] && s'.body[d].subdirs == []
    requires p[0] in s'.body && x in s'.body[p[0]].subdirs
    ensures x in s.hashed && !Below(s, x, d, WALK_DEPTH)
  {
    CoverShown(s, s', d, p);
    assert Shown(s, p[0]);
    NotPast(s', p, d);
    if Below(s, x, d, WALK_DEPTH) {
      assert ([x] + p)[1..] == p;
      assert Shows(s, [x] + p);
      PassesThrough(s, x, d, WALK_DEPTH, [x] + p);
    }
  }

  /** What is reachable after a mount was reachable before. */
  lemma CoverShown(s: Mounts, s': Mounts, d: nat, p: seq<nat>)
    requires ListsOk(s) && d in s.body && Shows(s', p) && s'.root == s.root && s'.at == s.at
    requires d in s'.body && s'.body == s.body[d := s'.body[d]] && s'.body[d].subdirs == []
    ensures Shows(s, p)
  {
    forall i | 0 <= i < |p| - 1
      ensures Listed(s, p[i]) && p[i] in s'.at && s.at[p[i]] == s'.at[p[i]]
    {
      ShowsListed(s', p, i);
    }
    ShowsFrame(s', s, p);
  }

  lemma CoverKeeps(s: Mounts, path: string, d: nat, inode: nat, sb: nat)
    requires Inv(s) && d in s.body
    ensures Inv(Cover(s, path, d, inode, sb))
  {
    CoverLists(s, path, d, inode, sb);
    CoverNames(s, path, d, inode, sb);
  }

  // ---------------------------------------------------------------------------- umount

  /** Everything below d is within reach of the subtree walk. */
  ghost predicate Reached(s: Mounts, d: nat)
  {
    forall x, k: nat | Below(s, x, d, k) :: Below(s, x, d, WALK_DEPTH)
  }

  /** The state of an umount before the restored names are hashed again. */
  function Exposed(s: Mounts, i: nat): Mounts
    requires i < |s.recs|
  {
    var r := s.recs[i];
    Unhashed(s, r.mp).(body := s.body[r.mp := r.covered], recs := s.recs[..i] + s.recs[i + 1..])
  }

  lemma UncoverLists(s: Mounts, i: nat)
    requires ListsOk(s) && i < |s.recs|
    ensures ListsOk(Uncover(s, i))
  {
    var s' := Uncover(s, i);
    var r := s.recs[i];
    assert CoveredOk(s, r);
    forall j | 0 <= j < |s'.recs|
      ensures CoveredOk(s', s'.recs[j])
    {
      var k := if j < i then j else j + 1;
      assert s'.recs[j] == s.recs[k];
      assert CoveredOk(s, s.recs[k]);
      if s.recs[k].mp == r.mp {
        ApartEither(s, i, k);
      }
    }
    DroppedApart(s, s', i);
  }

  lemma DroppedApart(s: Mounts, s': Mounts, i: nat)
    requires ListsOk(s) && i < |s.recs| && s'.recs == s.recs[..i] + s.recs[i + 1..]
    ensures forall j, k | 0 <= j < k < |s'.recs| && s'.recs[j].mp == s'.recs[k].mp ::
              Apart(s'.recs[j].covered.subdirs, s'.recs[k].covered.subdirs)
  {
    forall j, k | 0 <= j < k < |s'.recs| && s'.recs[j].mp == s'.recs[k].mp
      ensures Apart(s'.recs[j].covered.subdirs, s'.recs[k].covered.subdirs)
    {
      var j', k' := if j < i then j else j + 1, if k < i then k else k + 1;
      assert s'.recs[j] == s.recs[j'] && s'.recs[k] == s.recs[k'];
    }
  }

  lemma ApartEither(s: Mounts, i: nat, j: nat)
    requires ListsOk(s) && i < |s.recs| && j < |s.recs| && i != j && s.recs[i].mp == s.recs[j].mp
    ensures Apart(s.recs[j].covered.subdirs, s.recs[i].covered.subdirs)
  {
    if i < j {
      assert Apart(s.recs[i].covered.subdirs, s.recs[j].covered.subdirs);
    }
  }

  /** Position j on a way up through d is j levels below d. */
  lemma {:induction false} LevelsBelow(s: Mounts, p: seq<nat>, j: nat)
    requires Shows(s, p) && 0 < j < |p|
    ensures Below(s, p[0], p[j], j)
    decreases j
  {
    if j > 1 {
      LevelsBelow(s, p[1..], j - 1);
      StepBelow(s, p[0], p[j], j - 1);
    }
  }

  lemma StepBelow(s: Mounts, x: nat, d: nat, k: nat)
    requires Listed(s, x) && Below(s, s.at[x].dir, d, k)
    ensures Below(s, x, d, k + 1)
  {
  }

  lemma SameBelow(s: Mounts, s': Mounts, x: nat, d: nat, k: nat)
    requires s'.at == s.at && s'.body == s.body
    ensures Below(s', x, d, k) == Below(s, x, d, k)
    decreases k
  {
    if k > 0 && x in s.at {
      SameBelow(s, s', s.at[x].dir, d, k - 1);
    }
  }

  lemma UncoverHashed(s: Mounts, i: nat, x: nat)
    requires ListsOk(s) && NamesOk(s) && i < |s.recs| && x in Uncover(s, i).hashed
    ensures Listed(Uncover(s, i), x)
  {
    var s1, d := Exposed(s, i), s.recs[i].mp;
    if Below(s1, x, d, WALK_DEPTH) {
      assert Listed(s1, x);
    } else {
      assert Listed(s, x);
      assert s.at[x].dir == d ==> Below(s, x, d, WALK_DEPTH);
    }
  }

  /** A child of a dentry that can be reached after the umount is found. */
  lemma UncoverFinds(s: Mounts, i: nat, p: seq<nat>, x: nat)
    requires ListsOk(s) && NamesOk(s) && i < |s.recs| && Reached(Exposed(s, i), s.recs[i].mp)
    requires Shows(Uncover(s, i), p) && p[0] in Uncover(s, i).body && x in Uncover(s, i).body[p[0]].subdirs
    ensures x in Uncover(s, i).hashed
  {
    var s', s1, d := Uncover(s, i), Exposed(s, i), s.recs[i].mp;
    UncoverLists(s, i);
    var q := [x] + p;
    assert q[1..] == p;
    assert Shows(s', q);
    if d in p {
      var j :| 0 <= j < |p| && p[j] == d;
      LevelsBelow(s', q, j + 1);
      SameBelow(s1, s', x, d, j + 1);
      assert Below(s1, x, d, WALK_DEPTH);
    } else {
      AwayFrom(s, s', d, p);
      assert Shown(s, p[0]);
      assert x in s.hashed;
      if Below(s, x, d, WALK_DEPTH) {
        assert Shows(s, q);
        PassesThrough(s, x, d, WALK_DEPTH, q);
      }
    }
  }

  lemma AwayFrom(s: Mounts, s': Mounts, d: nat, p: seq<nat>)
    requires Shows(s', p) && s'.root == s.root && s'.at == s.at && d in s'.body && s'.body == s.body[d := s'.body[d]]
    requires d !in p
    ensures Shows(s, p)
  {
    forall i | 0 <= i < |p| - 1
      ensures Listed(s, p[i]) && p[i] in s'.at && s.at[p[i]] == s'.at[p[i]]
    {
      ShowsListed(s', p, i);
      assert p[i + 1] in p;
    }
    ShowsFrame(s', s, p);
  }

  lemma UncoverKeeps(s: Mounts, i: nat)
    requires Inv(s) && i < |s.recs| && Reached(Exposed(s, i), s.recs[i].mp)
    ensures Inv(Uncover(s, i))
  {
    var s' := Uncover(s, i);
    UncoverLists(s, i);
    forall x | x in s'.hashed
      ensures Listed(s', x)
    {
      UncoverHashed(s, i, x);
    }
    forall d, x | Shown(s', d) && d in s'.body && x in s'.body[d].subdirs
      ensures x in s'.hashed
    {
      var p :| Shows(s', p) && p[0] == d;
      UncoverFinds(s, i, p, x);
    }
  }

  /** A refused mount leaves everything as it was. */
  lemma RefusedRestores(s: Mounts, d: nat, inode: nat, sb: nat)
    requires Inv(s) && d in s.body && Shown(s, d)
    ensures Refused(s, d, inode, sb) == s
  {
    assert s.body[d := Body(inode, sb, [])][d := s.body[d]] == s.body;
    RehashInverts(s, d);
  }

  /** Rehashing undoes unhashing. */
  lemma RehashInverts(s: Mounts, d: nat)
    requires Inv(s) && d in s.body && Shown(s, d)
    ensures Rehashed(Unhashed(s, d), d) == s
  {
    var u := Unhashed(s, d);
    forall x
      ensures Below(u, x, d, WALK_DEPTH) == Below(s, x, d, WALK_DEPTH)
      ensures Below(s, x, d, WALK_DEPTH) ==> x in s.hashed && x in s.at
    {
      SameBelow(s, u, x, d, WALK_DEPTH);
      if Below(s, x, d, WALK_DEPTH) {
        FoundBelow(s, x, d, WALK_DEPTH);
      }
    }
    assert Rehashed(u, d).hashed == s.hashed;
  }

  lemma {:induction false} FoundBelow(s: Mounts, x: nat, d: nat, k: nat)
    requires Inv(s) && Shown(s, d) && Below(s, x, d, k)
    ensures Shown(s, x) && x in s.hashed
    decreases k
  {
    var e := s.at[x].dir;
    if e != d {
      FoundBelow(s, e, d, k - 1);
    }
    var p :| Shows(s, p) && p[0] == e;
    assert ([x] + p)[1..] == p;
    assert Shows(s, [x] + p);
  }

  // ------------------------------------------------------------------ caching below a mount

  ghost predicate Unused(s: Mounts, x: nat)
  {
    x !in s.at && x !in s.body && x !in s.hashed
  }

  lemma GrowLists(s: Mounts, d: nat, name: string, x: nat, b: Body)
    requires ListsOk(s) && d in s.body && Unused(s, x) && b.subdirs == []
    ensures ListsOk(Grow(s, d, name, x, b))
  {
    var s' := Grow(s, d, name, x, b);
    forall i | 0 <= i < |s'.recs|
      ensures CoveredOk(s', s'.recs[i])
    {
      assert CoveredOk(s, s.recs[i]);
    }
  }

  lemma GrowShown(s: Mounts, d: nat, name: string, x: nat, b: Body, p: seq<nat>)
    requires ListsOk(s) && d in s.body && Unused(s, x) && b.subdirs == []
    requires Shows(Grow(s, d, name, x, b), p) && p[0] != x
    ensures Shows(s, p)
  {
    var s' := Grow(s, d, name, x, b);
    NotPast(s', p, x);
    assert p == [p[0]] + p[1..];
    assert x !in p;
    forall i | 0 <= i < |p| - 1
      ensures Listed(s, p[i]) && p[i] in s'.at && s.at[p[i]] == s'.at[p[i]]
    {
      ShowsListed(s', p, i);
      assert p[i] in p && p[i + 1] in p;
    }
    ShowsFrame(s', s, p);
  }

  lemma GrowKeeps(s: Mounts, d: nat, name: string, x: nat, b: Body)
    requires Inv(s) && d in s.body && Unused(s, x) && b.subdirs == []
    ensures Inv(Grow(s, d, name, x, b))
  {
    var s' := Grow(s, d, name, x, b);
    GrowLists(s, d, name, x, b);
    forall y | y in s'.hashed
      ensures Listed(s', y)
    {
      assert y != x ==> Listed(s, y);
    }
    forall e, y | Shown(s', e) && e in s'.body && y in s'.body[e].subdirs
      ensures y in s'.hashed
    {
      if y != x {
        var p :| Shows(s', p) && p[0] == e;
        GrowShown(s, d, name, x, b, p);
        assert Shown(s, e);
      }
    }
  }

  // -------------------------------------------------------------------------- every run

  /** Steps under the namespace guard. A mount names the dentry its path resolves to. */
  datatype Op =
    | Mount(path: string, d: nat, inode: nat, sb: nat)
    | Refuse(d: nat, inode: nat, sb: nat)
    | Umount(path: string)
    | Look(d: nat, name: string, x: nat, b: Body)

  /** Something is mounted below the path. */
  predicate Busy(recs: seq<Record>, path: string)
  {
    exists i | 0 <= i < |recs| :: recs[i].path != path && PathResolve.PathUnder(path, recs[i].path)
  }

  predicate Unmounts(s: Mounts, path: string)
  {
    FirstWith(s.recs, path).Some? && !Busy(s.recs, path)
  }

  /** The paths of the records are those of these canonical component lists. */
  ghost predicate Named(recs: seq<Record>, names: seq<seq<string>>)
  {
    |names| == |recs|
    && forall i | 0 <= i < |recs| :: PathResolve.Canonical(names[i]) && recs[i].path == PathResolve.Join(names[i])
  }

  /** A path is busy exactly if some record's components properly extend its own. */
  lemma BusyIff(recs: seq<Record>, names: seq<seq<string>>, b: seq<string>)
    requires Named(recs, names) && PathResolve.Canonical(b)
    ensures Busy(recs, PathResolve.Join(b)) <==> exists i :: 0 <= i < |names| && b < names[i]
  {
    forall i | 0 <= i < |recs|
      ensures recs[i].path != PathResolve.Join(b) && PathResolve.PathUnder(PathResolve.Join(b), recs[i].path) <==> b < names[i]
    {
      BelowIff(b, names[i]);
    }
    if Busy(recs, PathResolve.Join(b)) {
      var i :| 0 <= i < |recs| && recs[i].path != PathResolve.Join(b)
               && PathResolve.PathUnder(PathResolve.Join(b), recs[i].path);
      assert b < names[i];
    }
  }

  lemma BelowIff(b: seq<string>, a: seq<string>)
    requires PathResolve.Canonical(a) && PathResolve.Canonical(b)
    ensures PathResolve.Join(a) == PathResolve.Join(b) <==> a == b
    ensures PathResolve.Join(a) != PathResolve.Join(b) && PathResolve.PathUnder(PathResolve.Join(b), PathResolve.Join(a)) <==> b < a
  {
    PathResolve.UnderIsPrefix(b, a);
    PathResolve.SplitJoin(a);
    PathResolve.SplitJoin(b);
  }

  /** umount is refused exactly if nothing is mounted under the path given, or something is
      mounted below it. */
  lemma UmountRefusedIff(s: Mounts, names: seq<seq<string>>, b: seq<string>)
    requires Named(s.recs, names) && PathResolve.Canonical(b)
    ensures !Unmounts(s, PathResolve.Join(b)) <==> b !in names || exists i :: 0 <= i < |names| && b < names[i]
  {
    BusyIff(s.recs, names, b);
    forall i | 0 <= i < |s.recs|
      ensures s.recs[i].path == PathResolve.Join(b) <==> names[i] == b
    {
      BelowIff(b, names[i]);
    }
    if b in names {
      var i :| 0 <= i < |names| && names[i] == b;
      assert s.recs[i].path == PathResolve.Join(b);
    }
  }

  /** After an umount one record less is in the table, one of the path given, and nothing is
      left mounted below that path. */
  lemma UmountStrandsNothing(s: Mounts, names: seq<seq<string>>, b: seq<string>) returns (i: nat, left: seq<seq<string>>)
    requires Named(s.recs, names) && PathResolve.Canonical(b) && Enabled(s, Umount(PathResolve.Join(b)))
    requires Unmounts(s, PathResolve.Join(b))
    ensures i < |names| && names[i] == b && b !in names[..i] && left == names[..i] + names[i + 1..]
    ensures Named(Apply(s, Umount(PathResolve.Join(b))).recs, left)
    ensures forall j | 0 <= j < |left| :: !(b < left[j])
  {
    i := FirstWith(s.recs, PathResolve.Join(b)).value;
    left := names[..i] + names[i + 1..];
    BelowIff(b, names[i]);
    FirstNamed(s.recs, names, b, i);
    NamedWithout(s.recs, names, i);
    NoneBelow(s.recs, names, b);
    NoneBelowWithout(names, i, b);
  }

  lemma NoneBelow(recs: seq<Record>, names: seq<seq<string>>, b: seq<string>)
    requires Named(recs, names) && PathResolve.Canonical(b) && !Busy(recs, PathResolve.Join(b))
    ensures forall j | 0 <= j < |names| :: !(b < names[j])
  {
    BusyIff(recs, names, b);
  }

  lemma FirstNamed(recs: seq<Record>, names: seq<seq<string>>, b: seq<string>, i: nat)
    requires Named(recs, names) && i < |recs| && forall j | 0 <= j < i :: recs[j].path != PathResolve.Join(b)
    ensures b !in names[..i]
  {
    forall j | 0 <= j < i
      ensures names[j] != b
    {
      assert recs[j].path != PathResolve.Join(b);
    }
  }

  lemma NamedWithout(recs: seq<Record>, names: seq<seq<string>>, i: nat)
    requires Named(recs, names) && i < |recs|
    ensures Named(recs[..i] + recs[i + 1..], names[..i] + names[i + 1..])
  {
  }

  lemma NoneBelowWithout(names: seq<seq<string>>, i: nat, b: seq<string>)
    requires i < |names| && forall j | 0 <= j < |names| :: !(b < names[j])
    ensures var left := names[..i] + names[i + 1..];
            forall j | 0 <= j < |left| :: !(b < left[j])
  {
    var left := names[..i] + names[i + 1..];
    forall j | 0 <= j < |left|
      ensures !(b < left[j])
    {
      assert left[j] == names[if j < i then j else j + 1];
    }
  }

  ghost predicate Enabled(s: Mounts, op: Op)
  {
    match op
    case Mount(path, d, inode, sb) => d in s.body && Shown(s, d)
    case Refuse(d, inode, sb) => d in s.body && Shown(s, d)
    case Umount(path) =>
      Unmounts(s, path) ==>
        Reached(Exposed(s, FirstWith(s.recs, path).value), s.recs[FirstWith(s.recs, path).value].mp)
    case Look(d, name, x, b) => d in s.body && Unused(s, x) && b.subdirs == []
  }

  ghost function Apply(s: Mounts, op: Op): Mounts
    requires Enabled(s, op)
  {
    match op
    case Mount(path, d, inode, sb) => Cover(s, path, d, inode, sb)
    case Refuse(d, inode, sb) => Refused(s, d, inode, sb)
    case Umount(path) => if Unmounts(s, path) then Uncover(s, FirstWith(s.recs, path).value) else s
    case Look(d, name, x, b) => Grow(s, d, name, x, b)
  }

  lemma StepKeeps(s: Mounts, op: Op)
    requires Inv(s) && Enabled(s, op)
    ensures Inv(Apply(s, op))
  {
    match op
    case Mount(path, d, inode, sb) => CoverKeeps(s, path, d, inode, sb);
    case Refuse(d, inode, sb) => RefusedRestores(s, d, inode, sb);
    case Umount(path) =>
      if Unmounts(s, path) {
        UncoverKeeps(s, FirstWith(s.recs, path).value);
      }
    case Look(d, name, x, b) => GrowKeeps(s, d, name, x, b);
  }

  ghost predicate Runnable(s: Mounts, ops: seq<Op>)
    decreases |ops|
  {
    ops == [] || (Enabled(s, ops[0]) && Runnable(Apply(s, ops[0]), ops[1..]))
  }

  ghost function Run(s: Mounts, ops: seq<Op>): Mounts
    requires Runnable(s, ops)
    decreases |ops|
  {
    if ops == [] then s else Run(Apply(s, ops[0]), ops[1..])
  }

  lemma {:induction false} RunKeeps(s: Mounts, ops: seq<Op>)
    requires Inv(s) && Runnable(s, ops)
    ensures Inv(Run(s, ops))
    decreases |ops|
  {
    if ops != [] {
      StepKeeps(s, ops[0]);
      RunKeeps(Apply(s, ops[0]), ops[1..]);
    }
  }

  /** At least n mounts are on d all along, and what is unmounted from it is each time the
      newest of them, mounted under the path given. */
  ghost predicate Stays(s: Mounts, ops: seq<Op>, d: nat, n: nat)
    requires Runnable(s, ops)
    decreases |ops|
  {
    |Stack(s.recs, d)| >= n
    && (ops == [] || (InOrder(s, ops[0], d) && Stays(Apply(s, ops[0]), ops[1..], d, n)))
  }

  predicate InOrder(s: Mounts, op: Op, d: nat)
  {
    op.Umount? && TakesFrom(s, op.path, d) ==> Stack(s.recs, d) != [] && Stack(s.recs, d)[0].path == op.path
  }

  /** umount(path) takes a mount off this dentry. */
  predicate TakesFrom(s: Mounts, path: string, d: nat)
  {
    Unmounts(s, path) && s.recs[FirstWith(s.recs, path).value].mp == d
  }

  function Oldest(st: seq<Record>, n: nat): seq<Record>
    requires n <= |st|
  {
    st[|st| - n..]
  }

  /** A step pushes on the stack of a dentry, pops it, or leaves it. */
  lemma StepStackCases(s: Mounts, op: Op, d: nat)
    requires Inv(s) && Enabled(s, op) && InOrder(s, op, d)
    ensures var st, st' := Stack(s.recs, d), Stack(Apply(s, op).recs, d);
            st' == st || (st' != [] && st'[1..] == st) || (st != [] && st' == st[1..])
  {
    match op
    case Mount(path, e, inode, sb) => CoverPushes(s, path, e, inode, sb, d);
    case Refuse(e, inode, sb) => RefusedRestores(s, e, inode, sb);
    case Umount(path) =>
      if TakesFrom(s, path, d) {
        PopsIff(s, path);
      } else if Unmounts(s, path) {
        UncoverElsewhere(s, FirstWith(s.recs, path).value, d);
      }
    case Look(e, name, x, b) =>
  }

  lemma StepStack(s: Mounts, op: Op, d: nat, n: nat)
    requires Inv(s) && Enabled(s, op) && InOrder(s, op, d)
    requires n <= |Stack(s.recs, d)| && n <= |Stack(Apply(s, op).recs, d)|
    ensures Oldest(Stack(Apply(s, op).recs, d), n) == Oldest(Stack(s.recs, d), n)
  {
    StepStackCases(s, op, d);
    OldestKept(Stack(s.recs, d), Stack(Apply(s, op).recs, d), n);
  }

  lemma OldestKept(st: seq<Record>, st': seq<Record>, n: nat)
    requires n <= |st| && n <= |st'|
    requires st' == st || (st' != [] && st'[1..] == st) || (st != [] && st' == st[1..])
    ensures Oldest(st', n) == Oldest(st, n)
  {
  }

  lemma {:induction false} RunStack(s: Mounts, ops: seq<Op>, d: nat, n: nat)
    requires Inv(s) && Runnable(s, ops) && Stays(s, ops, d, n)
    ensures |Stack(Run(s, ops).recs, d)| >= n && Oldest(Stack(Run(s, ops).recs, d), n) == Oldest(Stack(s.recs, d), n)
    decreases |ops|
  {
    if ops != [] {
      StepKeeps(s, ops[0]);
      RunStack(Apply(s, ops[0]), ops[1..], d, n);
      StepStack(s, ops[0], d, n);
    }
  }

  /** A mount, then whatever mounts, binds, umounts and lookups that leave at least it on the
      dentry, and then an umount that takes the last mount above the old stack: it undoes the
      mount exactly if it is given the path of the mount. The dentry then has its inode,
      superblock and child list back; and if it can be reached, the names below it are again
      exactly those children. */
  lemma UmountRestores(s: Mounts, m: Op, ops: seq<Op>, u: Op)
    requires Inv(s) && m.Mount? && Enabled(s, m) && Runnable(Apply(s, m), ops)
    requires Stays(Apply(s, m), ops, m.d, |Stack(s.recs, m.d)| + 1)
    requires var s2 := Run(Apply(s, m), ops);
             && |Stack(s2.recs, m.d)| == |Stack(s.recs, m.d)| + 1
             && u.Umount? && Enabled(s2, u) && TakesFrom(s2, u.path, m.d)
    ensures var s3 := Apply(Run(Apply(s, m), ops), u);
            && m.d in s3.body
            && (Stack(s3.recs, m.d) == Stack(s.recs, m.d) <==> u.path == m.path)
            && (u.path == m.path ==> s3.body[m.d] == s.body[m.d])
            && (u.path == m.path && Shown(s3, m.d) ==>
                  forall x :: x in s.body[m.d].subdirs <==> x in s3.hashed && x in s3.at && s3.at[x].dir == m.d)
  {
    var s1 := Apply(s, m);
    var s2 := Run(s1, ops);
    StepKeeps(s, m);
    RunKeeps(s1, ops);
    StackBack(s, m, ops);
    PopsIff(s2, u.path);
    StepKeeps(s2, u);
    RestoredNames(Apply(s2, u), m.d);
  }

  /** After such a run the stack is the old one under the mount. */
  lemma StackBack(s: Mounts, m: Op, ops: seq<Op>)
    requires Inv(s) && m.Mount? && Enabled(s, m) && Runnable(Apply(s, m), ops)
    requires Stays(Apply(s, m), ops, m.d, |Stack(s.recs, m.d)| + 1)
    requires |Stack(Run(Apply(s, m), ops).recs, m.d)| == |Stack(s.recs, m.d)| + 1
    ensures Stack(Run(Apply(s, m), ops).recs, m.d) == [Record(m.path, m.d, s.body[m.d])] + Stack(s.recs, m.d)
  {
    var s1 := Apply(s, m);
    var s2 := Run(s1, ops);
    var n := |Stack(s.recs, m.d)| + 1;
    StepKeeps(s, m);
    CoverPushes(s, m.path, m.d, m.inode, m.sb, m.d);
    RunStack(s1, ops, m.d, n);
    assert Oldest(Stack(s2.recs, m.d), n) == Stack(s2.recs, m.d);
    assert Oldest(Stack(s1.recs, m.d), n) == Stack(s1.recs, m.d);
  }

  lemma RestoredNames(s: Mounts, d: nat)
    requires Inv(s) && d in s.body
    ensures Shown(s, d) ==> forall x :: x in s.body[d].subdirs <==> x in s.hashed && x in s.at && s.at[x].dir == d
  {
    if Shown(s, d) {
      NamesAreChildren(s, d);
    }
  }

  // -------------------------------------------------------- one dentry under two paths

  /** A mount table over the root dentry 0 and its one child, dentry 5, named "c". */
  function Two(b: Body, recs: seq<Record>): Mounts
  {
    Mounts(0, map[5 := Key(0, "c")], map[0 := Body(0, 0, [5]), 5 := b], {5}, recs)
  }

  lemma NothingBelow(s: Mounts, x: nat, k: nat)
    requires s.at == map[5 := Key(0, "c")]
    ensures !Below(s, x, 5, k)
  {
    if k > 0 && Listed(s, x) {
      assert !Listed(s, 0);
    }
  }

  lemma TwoShown(b: Body, recs: seq<Record>)
    ensures Shown(Two(b, recs), 5)
  {
    assert [5, 0][1..] == [0];
    assert Shows(Two(b, recs), [5, 0]);
  }

  lemma TwoCovered(b: Body, recs: seq<Record>, path: string, inode: nat, sb: nat)
    ensures Enabled(Two(b, recs), Mount(path, 5, inode, sb))
    ensures Apply(Two(b, recs), Mount(path, 5, inode, sb)) == Two(Body(inode, sb, []), [Record(path, 5, b)] + recs)
  {
    var s := Two(b, recs);
    TwoShown(b, recs);
    forall x
      ensures !Below(s, x, 5, WALK_DEPTH)
    {
      NothingBelow(s, x, WALK_DEPTH);
    }
    assert Unhashed(s, 5).hashed == {5};
    assert s.body[5 := Body(inode, sb, [])] == Two(Body(inode, sb, []), recs).body;
  }

  lemma TwoUncovered(b: Body, recs: seq<Record>, path: string, i: nat)
    requires FirstWith(recs, path) == Some(i) && !Busy(recs, path) && recs[i].mp == 5
    ensures Enabled(Two(b, recs), Umount(path))
    ensures Apply(Two(b, recs), Umount(path)) == Two(recs[i].covered, recs[..i] + recs[i + 1..])
  {
    var s := Two(b, recs);
    forall x, k: nat
      ensures !Below(Exposed(s, i), x, 5, k) && !Below(s, x, 5, k)
    {
      NothingBelow(Exposed(s, i), x, k);
      NothingBelow(s, x, k);
    }
    assert Unhashed(s, 5).hashed == {5};
    assert Uncover(s, i).hashed == {5};
    assert s.body[5 := recs[i].covered] == Two(recs[i].covered, recs).body;
  }

  lemma FirstLook(child: Body)
    requires child.subdirs == []
    ensures Enabled(Fresh(), Look(0, "c", 5, child)) && Apply(Fresh(), Look(0, "c", 5, child)) == Two(child, [])
  {
    var s := Fresh();
    assert s.hashed + {5} == {5} && [5] + s.body[0].subdirs == [5];
    assert s.body[5 := child][0 := Body(0, 0, [5])] == Two(child, []).body;
    assert s.at[5 := Key(0, "c")] == Two(child, []).at;
  }

  /** Only the root is cached, and nothing is mounted. */
  function Fresh(): Mounts
  {
    Mounts(0, map[], map[0 := Body(0, 0, [])], {}, [])
  }

  lemma FreshOk()
    ensures Inv(Fresh())
  {
  }

  /** The directory "/c", which can also be reached as "/l/c" through a link "/l" to the root,
      is mounted on under both names. Unmounting "/c" and then "/l/c" empties the table, and
      leaves the dentry with the inode of the filesystem that was unmounted first. */
  lemma TwoPathsExample() returns (ops: seq<Op>)
    ensures Inv(Fresh()) && Runnable(Fresh(), ops)
    ensures ops == [Look(0, "c", 5, Body(1, 1, []))]
                   + [Mount("/c", 5, 2, 2), Mount("/l/c", 5, 3, 3), Umount("/c"), Umount("/l/c")]
    ensures Run(Fresh(), ops) == Two(Body(2, 2, []), [])
  {
    FreshOk();
    var rest := [Mount("/c", 5, 2, 2), Mount("/l/c", 5, 3, 3), Umount("/c"), Umount("/l/c")];
    var end := TwoMountsUndone(rest);
    FirstLook(Body(1, 1, []));
    RunNext(Fresh(), Look(0, "c", 5, Body(1, 1, [])), Two(Body(1, 1, []), []), rest, end);
    ops := [Look(0, "c", 5, Body(1, 1, []))] + rest;
  }

  lemma TwoMountsUndone(ops: seq<Op>) returns (end: Mounts)
    requires ops == [Mount("/c", 5, 2, 2), Mount("/l/c", 5, 3, 3), Umount("/c"), Umount("/l/c")]
    ensures end == Two(Body(2, 2, []), [])
    ensures Runnable(Two(Body(1, 1, []), []), ops) && Run(Two(Body(1, 1, []), []), ops) == end
  {
    end := Two(Body(2, 2, []), []);
    var low, mid := Body(1, 1, []), Body(2, 2, []);
    var r := Record("/c", 5, low);
    TwoCovered(low, [], "/c", 2, 2);
    TwoCovered(mid, [r], "/l/c", 3, 3);
    TwoUmounts(r, Record("/l/c", 5, mid));
    var undo := [Umount("/c"), Umount("/l/c")];
    assert [Record("/l/c", 5, mid)] + [r] == [Record("/l/c", 5, mid), r] && [r] + [] == [r];
    RunNext(Two(mid, [r]), Mount("/l/c", 5, 3, 3), Two(Body(3, 3, []), [Record("/l/c", 5, mid), r]), undo, Two(mid, []));
    RunNext(Two(low, []), Mount("/c", 5, 2, 2), Two(mid, [r]), [Mount("/l/c", 5, 3, 3)] + undo, Two(mid, []));
    assert [Mount("/c", 5, 2, 2)] + ([Mount("/l/c", 5, 3, 3)] + undo) == ops;
  }

  lemma TwoUmounts(r: Record, q: Record)
    requires r == Record("/c", 5, Body(1, 1, [])) && q == Record("/l/c", 5, Body(2, 2, []))
    ensures var s, ops := Two(Body(3, 3, []), [q, r]), [Umount("/c"), Umount("/l/c")];
            Runnable(s, ops) && Run(s, ops) == Two(Body(2, 2, []), [])
  {
    BothNames(r, q);
    TwoUncovered(Body(3, 3, []), [q, r], "/c", 1);
    assert [q, r][..1] + [q, r][2..] == [q];
    TwoUncovered(Body(1, 1, []), [q], "/l/c", 0);
    assert [q][..0] + [q][1..] == [];
    RunNext(Two(Body(1, 1, []), [q]), Umount("/l/c"), Two(q.covered, []), [], Two(q.covered, []));
    assert [Umount("/l/c")] + [] == [Umount("/l/c")] && [Umount("/c")] + [Umount("/l/c")] == [Umount("/c"), Umount("/l/c")];
    RunNext(Two(Body(3, 3, []), [q, r]), Umount("/c"), Two(r.covered, [q]), [Umount("/l/c")], Two(q.covered, []));
  }

  lemma BothNames(r: Record, q: Record)
    requires r.path == "/c" && q.path == "/l/c"
    ensures FirstWith([q, r], "/c") == Some(1) && !Busy([q, r], "/c")
    ensures FirstWith([q], "/l/c") == Some(0) && !Busy([q], "/l/c")
  {
    assert [q, r][1..] == [r] && [r][1..] == [];
    assert FirstWith([r], "/c") == Some(0);
    assert "/c"[1] != "/l/c"[1];
  }

  lemma RunNext(s: Mounts, op: Op, s1: Mounts, ops: seq<Op>, s2: Mounts)
    requires Enabled(s, op) && Apply(s, op) == s1 && Runnable(s1, ops) && Run(s1, ops) == s2
    ensures Runnable(s, [op] + ops) && Run(s, [op] + ops) == s2
  {
    assert ([op] + ops)[1..] == ops;
  }
}
