/**
 What the name operations answer and what they leave behind, said of the names alone: the
 inode under every name before and after, the inodes that are directories, and the place
 where every node hangs. The dentries and the order of the checks are not mentioned.
 */
module NamespaceAnswers {
  import opened Machine
  import opened TmpfsTree
  import opened Dcache
  import opened Namespace

  /** What rename answers without asking the filesystem. */
  function EarlyAnswer(ns: Ns, x: nat, k: Key, e: Option<nat>, noReplace: bool): Option<Outcome>
  {
    if e.Some? && Inode(ns.c, e.value) == Inode(ns.c, x) then Some(if noReplace then EEXIST else Done)
    else if IsDir(ns, x) && DescendsFrom(ns.c, k.dir, x, WALK_LIMIT) then Some(EINVAL)
    else if noReplace && e.Some? then Some(EEXIST)
    else None
  }

  function RenameAnswer(ns: Ns, x: nat, k: Key, e: Option<nat>, noReplace: bool): Outcome
    requires Enabled(ns, Op.Rename(x, k, e, noReplace))
  {
    var early := EarlyAnswer(ns, x, k, e, noReplace);
    if early.Some? then early.value
    else RenameOutcome(ns.t, NodeKey(ns, KeyOf(ns.c, x)), NodeKey(ns, k))
  }

  function EarlySwap(ns: Ns, x: nat, y: nat): Option<Outcome>
    requires Keyed(ns.c, x) && Keyed(ns.c, y)
  {
    if Inode(ns.c, x) == Inode(ns.c, y) then Some(Done)
    else if IsDir(ns, x) && DescendsFrom(ns.c, KeyOf(ns.c, y).dir, x, WALK_LIMIT) then Some(EINVAL)
    else if IsDir(ns, y) && DescendsFrom(ns.c, KeyOf(ns.c, x).dir, y, WALK_LIMIT) then Some(EINVAL)
    else None
  }

  function SwapAnswer(ns: Ns, x: nat, y: nat): Outcome
    requires Found(ns, x) && Found(ns, y)
  {
    var early := EarlySwap(ns, x, y);
    if early.Some? then early.value
    else if NodeKey(ns, KeyOf(ns.c, x)) in ns.t.entry && NodeKey(ns, KeyOf(ns.c, y)) in ns.t.entry then Done
    else ENOENT
  }

  /** Every inode that still has a name is a directory or not as it was. */
  ghost predicate KindsKept(t: Tree, t': Tree)
  {
    forall j | j in LookOf(t') :: LookOf(t')[j] in t'.dirs <==> LookOf(t')[j] in t.dirs
  }

  ghost predicate Inhabited(look: Look, d: nat)
  {
    exists j :: j in look && j.dir == d
  }

  // --------------------------------------------------------------------------- rename

  /** The answer of a rename of the inode i from one name to another: a directory must not
      come to hang below itself, what stands under the new name must be of its kind and
      empty, and without leave to replace nothing may stand there. */
  ghost predicate RenameReply(t: Tree, i: nat, to: Key, noReplace: bool, r: Outcome)
  {
    var look, dir := LookOf(t), i in t.dirs;
    var loop := dir && !Acyclic(t.at[i := to]);
    var other := to in look && look[to] != i;
    && (r == EINVAL <==> loop)
    && (r == EEXIST <==> !loop && noReplace && to in look)
    && (r == ENOTDIR <==> !loop && !noReplace && other && dir && look[to] !in t.dirs)
    && (r == ENOTEMPTY <==> !loop && !noReplace && other && dir && look[to] in t.dirs && Inhabited(look, look[to]))
    && (r == EISDIR <==> !noReplace && other && !dir && look[to] in t.dirs)
    && r != ENOENT
  }

  /** What rename leaves: the inode under its new name only, and nothing else changed. */
  ghost predicate RenameEffect(ns: Ns, ns': Ns, from: Key, to: Key, i: nat, r: Outcome)
  {
    var look := LookOf(ns.t);
    if r == Done && !(to in look && look[to] == i)
    then LookOf(ns'.t) == (look - {from})[to := i] && KindsKept(ns.t, ns'.t)
    else ns' == ns
  }

  lemma EmptyIsUninhabited(t: Tree, n: nat)
    ensures Empty(t, n) <==> !Inhabited(LookOf(t), n)
  {
    if !Empty(t, n) {
      var k :| k in t.entry && k.dir == n;
      assert k in LookOf(t);
    }
  }

  /** The inode under the name of a destination is what the filesystem asks about. */
  lemma DestinationKind(ns: Ns, k: Key)
    requires Sound(ns) && IsDir(ns, k.dir) && NodeKey(ns, k) in ns.t.entry
    ensures var look, n := LookOf(ns.t), ns.t.entry[NodeKey(ns, k)];
            && (n in ns.t.dirs <==> look[NodeKey(ns, k)] in ns.t.dirs)
            && (n in ns.t.dirs ==> n == look[NodeKey(ns, k)])
            && (n in ns.t.dirs ==> (Empty(ns.t, n) <==> !Inhabited(look, n)))
  {
    ResolvedDirectory(ns.t, ns.t.entry[NodeKey(ns, k)]);
    EmptyIsUninhabited(ns.t, ns.t.entry[NodeKey(ns, k)]);
  }

  /** The destination dentry is there exactly if the name is, with the inode of the name. */
  lemma DestinationDentry(ns: Ns, k: Key, e: Option<nat>)
    requires Sound(ns) && IsDir(ns, k.dir)
    requires if e.Some? then Found(ns, e.value) && KeyOf(ns.c, e.value) == k else NodeKey(ns, k) !in ns.t.entry
    ensures e.Some? <==> NodeKey(ns, k) in LookOf(ns.t)
    ensures e.Some? ==> Inode(ns.c, e.value) == Some(LookOf(ns.t)[NodeKey(ns, k)])
  {
    if e.Some? {
      FoundNode(ns, e.value);
    }
  }

  /** A directory over itself is no loop. */
  lemma OntoItself(ns: Ns, x: nat, to: Key)
    requires Sound(ns) && Found(ns, x) && IsDir(ns, x)
    requires to in LookOf(ns.t) && LookOf(ns.t)[to] == Inode(ns.c, x).value
    ensures Acyclic(ns.t.at[Inode(ns.c, x).value := to])
  {
    var i := Inode(ns.c, x).value;
    ResolvedDirectory(ns.t, ns.t.entry[to]);
    assert ns.t.at[i] == to;
    assert ns.t.at[i := to] == ns.t.at;
  }

  lemma LoopSeen(ns: Ns, x: nat, k: Key)
    requires Sound(ns) && Found(ns, x) && IsDir(ns, k.dir) && ByPath(ns.c, k)
    ensures IsDir(ns, x) && DescendsFrom(ns.c, k.dir, x, WALK_LIMIT)
            <==> Inode(ns.c, x).value in ns.t.dirs && !Acyclic(ns.t.at[Inode(ns.c, x).value := NodeKey(ns, k)])
  {
    if IsDir(ns, x) {
      RenameCheckExact(ns, x, k);
    }
  }

  /** What the filesystem answers of a source that is or is no directory. */
  lemma FilesystemReply(t: Tree, from: Key, to: Key, dir: bool)
    requires from in t.entry && (t.entry[from] in t.dirs <==> dir)
    requires to in t.entry ==>
               && (t.entry[to] in t.dirs <==> LookOf(t)[to] in t.dirs)
               && (t.entry[to] in t.dirs ==> (Empty(t, t.entry[to]) <==> !Inhabited(LookOf(t), LookOf(t)[to])))
    ensures var r, look := RenameOutcome(t, from, to), LookOf(t);
            && (r == ENOTDIR <==> to in look && dir && look[to] !in t.dirs)
            && (r == ENOTEMPTY <==> to in look && dir && look[to] in t.dirs && Inhabited(look, look[to]))
            && (r == EISDIR <==> to in look && !dir && look[to] in t.dirs)
            && r != ENOENT && r != EEXIST && r != EINVAL
  {
  }

  lemma FilesystemReplies(ns: Ns, x: nat, k: Key)
    requires Sound(ns) && Found(ns, x) && IsDir(ns, k.dir)
    ensures var r, look, to := RenameOutcome(ns.t, NodeKey(ns, KeyOf(ns.c, x)), NodeKey(ns, k)), LookOf(ns.t), NodeKey(ns, k);
            && (r == ENOTDIR <==> to in look && IsDir(ns, x) && look[to] !in ns.t.dirs)
            && (r == ENOTEMPTY <==> to in look && IsDir(ns, x) && look[to] in ns.t.dirs && Inhabited(look, look[to]))
            && (r == EISDIR <==> to in look && !IsDir(ns, x) && look[to] in ns.t.dirs)
            && r != ENOENT && r != EEXIST && r != EINVAL
  {
    FoundNode(ns, x);
    if NodeKey(ns, k) in ns.t.entry {
      DestinationKind(ns, k);
    }
    FilesystemReply(ns.t, NodeKey(ns, KeyOf(ns.c, x)), NodeKey(ns, k), IsDir(ns, x));
  }

  /** The early answers in terms of names. */
  lemma EarlyReplies(ns: Ns, x: nat, k: Key, e: Option<nat>, noReplace: bool)
    requires Sound(ns) && Enabled(ns, Op.Rename(x, k, e, noReplace)) && ByPath(ns.c, k)
    ensures var look, i, to := LookOf(ns.t), Inode(ns.c, x).value, NodeKey(ns, k);
            var loop := i in ns.t.dirs && !Acyclic(ns.t.at[i := to]);
            && EarlyAnswer(ns, x, k, e, noReplace)
               == (if to in look && look[to] == i then Some(if noReplace then EEXIST else Done)
                   else if loop then Some(EINVAL)
                   else if noReplace && to in look then Some(EEXIST)
                   else None)
            && (to in look && look[to] == i ==> !loop)
  {
    DestinationDentry(ns, k, e);
    LoopSeen(ns, x, k);
    if e.Some? && IsDir(ns, x) && LookOf(ns.t)[NodeKey(ns, k)] == Inode(ns.c, x).value {
      OntoItself(ns, x, NodeKey(ns, k));
    }
  }

  lemma ReplyCombined(t: Tree, i: nat, to: Key, noReplace: bool, early: Option<Outcome>, fs: Outcome)
    requires var look, loop := LookOf(t), i in t.dirs && !Acyclic(t.at[i := to]);
             && early == (if to in look && look[to] == i then Some(if noReplace then EEXIST else Done)
                          else if loop then Some(EINVAL)
                          else if noReplace && to in look then Some(EEXIST)
                          else None)
             && (to in look && look[to] == i ==> !loop)
             && (fs == ENOTDIR <==> to in look && i in t.dirs && look[to] !in t.dirs)
             && (fs == ENOTEMPTY <==> to in look && i in t.dirs && look[to] in t.dirs && Inhabited(look, look[to]))
             && (fs == EISDIR <==> to in look && i !in t.dirs && look[to] in t.dirs)
             && fs != ENOENT && fs != EEXIST && fs != EINVAL
    ensures RenameReply(t, i, to, noReplace, if early.Some? then early.value else fs)
  {
  }

  /** What rename answers, for every rename of names that paths lead to. */
  lemma RenameAnswers(ns: Ns, x: nat, k: Key, e: Option<nat>, noReplace: bool)
    requires Sound(ns) && Enabled(ns, Op.Rename(x, k, e, noReplace)) && ByPath(ns.c, k)
    ensures RenameReply(ns.t, Inode(ns.c, x).value, NodeKey(ns, k), noReplace, RenameAnswer(ns, x, k, e, noReplace))
  {
    EarlyReplies(ns, x, k, e, noReplace);
    FilesystemReplies(ns, x, k);
    ReplyCombined(ns.t, Inode(ns.c, x).value, NodeKey(ns, k), noReplace, EarlyAnswer(ns, x, k, e, noReplace),
                  RenameOutcome(ns.t, NodeKey(ns, KeyOf(ns.c, x)), NodeKey(ns, k)));
  }

  lemma RemovedKinds(t: Tree, k: Key)
    requires TreeOk(t) && k in t.entry && Empty(t, t.entry[k])
    ensures KindsKept(t, Remove(t, k))
  {
    RemoveOk(t, k);
    OnlyFreedKinds(DropName(t, k), Remove(t, k));
    LookDrop(t, k);
  }

  lemma OnlyFreedKinds(t: Tree, t': Tree)
    requires OnlyFreed(t, t') && Settled(t')
    ensures KindsKept(t, t')
  {
    forall j | j in LookOf(t')
      ensures LookOf(t')[j] in t'.dirs <==> LookOf(t')[j] in t.dirs
    {
      var n := t'.entry[j];
      assert n in t'.at;
      if n in t'.target {
        assert Primary(t', t'.target[n]);
      }
    }
  }

  /** Replacing an existing name. */
  lemma ReplaceLook(t: Tree, from: Key, to: Key)
    requires TreeOk(t) && from in t.entry && to in t.entry && from != to && Empty(t, t.entry[to])
    ensures LookOf(Renamed(t, from, to)) == (LookOf(t) - {from})[to := LookOf(t)[from]]
    ensures KindsKept(t, Renamed(t, from, to))
  {
    LookRemove(t, to);
    RemovedKinds(t, to);
    MovedInstead(t, Remove(t, to), from, to);
  }

  lemma MovedInstead(t: Tree, t1: Tree, from: Key, to: Key)
    requires from in t.entry && from != to && LookOf(t1) == LookOf(t) - {to} && KindsKept(t, t1)
    ensures from in t1.entry && LookOf(Move(t1, from, to)) == (LookOf(t) - {from})[to := LookOf(t)[from]]
    ensures KindsKept(t, Move(t1, from, to))
  {
    assert from in LookOf(t1);
    LookMove(t1, from, to);
    KindsMoved(t, t1, Move(t1, from, to), from, to);
  }

  lemma KindsMoved(t: Tree, t1: Tree, t2: Tree, from: Key, to: Key)
    requires KindsKept(t, t1) && from in LookOf(t1) && t2.dirs == t1.dirs
    requires LookOf(t2) == (LookOf(t1) - {from})[to := LookOf(t1)[from]]
    ensures KindsKept(t, t2)
  {
  }

  lemma RenamedLook(ns: Ns, x: nat, k: Key, e: Option<nat>, noReplace: bool)
    requires Sound(ns) && Enabled(ns, Op.Rename(x, k, e, noReplace))
    requires EarlyAnswer(ns, x, k, e, noReplace).None? && RenameAnswer(ns, x, k, e, noReplace) == Done
    ensures var from, to := NodeKey(ns, KeyOf(ns.c, x)), NodeKey(ns, k);
            && LookOf(Renamed(ns.t, from, to)) == (LookOf(ns.t) - {from})[to := Inode(ns.c, x).value]
            && KindsKept(ns.t, Renamed(ns.t, from, to))
  {
    var from, to := NodeKey(ns, KeyOf(ns.c, x)), NodeKey(ns, k);
    FoundNode(ns, x);
    if e.Some? {
      FoundNode(ns, e.value);
      TreeTidy(ns.t);
      OneName(LookOf(ns.t), ns.t.dirs, ns.t.root, ns.c, x, e.value);
      if ns.t.entry[to] !in ns.t.dirs {
        LeafEmpty(ns.t, ns.t.entry[to]);
      }
      ReplaceLook(ns.t, from, to);
    } else {
      LookMove(ns.t, from, to);
      KindsMoved(ns.t, ns.t, Renamed(ns.t, from, to), from, to);
    }
  }

  /** What rename leaves behind. */
  lemma RenameLeaves(ns: Ns, x: nat, k: Key, e: Option<nat>, noReplace: bool)
    requires Sound(ns) && Enabled(ns, Op.Rename(x, k, e, noReplace))
    ensures RenameEffect(ns, Apply(ns, Op.Rename(x, k, e, noReplace)), NodeKey(ns, KeyOf(ns.c, x)), NodeKey(ns, k),
                         Inode(ns.c, x).value, RenameAnswer(ns, x, k, e, noReplace))
  {
    DestinationDentry(ns, k, e);
    RenameDoes(ns, x, k, e, noReplace);
    if EarlyAnswer(ns, x, k, e, noReplace).None? && RenameAnswer(ns, x, k, e, noReplace) == Done {
      RenamedLook(ns, x, k, e, noReplace);
    }
  }

  lemma RenameDoes(ns: Ns, x: nat, k: Key, e: Option<nat>, noReplace: bool)
    requires Enabled(ns, Op.Rename(x, k, e, noReplace))
    ensures var ns' := Apply(ns, Op.Rename(x, k, e, noReplace));
            if EarlyAnswer(ns, x, k, e, noReplace).None? && RenameAnswer(ns, x, k, e, noReplace) == Done
            then ns'.t == Renamed(ns.t, NodeKey(ns, KeyOf(ns.c, x)), NodeKey(ns, k)) else ns' == ns
    ensures EarlyAnswer(ns, x, k, e, noReplace) == Some(Done) ==> e.Some? && Inode(ns.c, e.value) == Inode(ns.c, x)
    ensures e.Some? && Inode(ns.c, e.value) == Inode(ns.c, x) ==> EarlyAnswer(ns, x, k, e, noReplace).Some?
  {
  }

  // --------------------------------------------------------------------------- remove

  /** unlink refuses directories, rmdir everything else and directories with names in them. */
  ghost predicate RemoveReply(t: Tree, i: nat, dir: bool, r: Outcome)
  {
    && (r == EISDIR <==> !dir && i in t.dirs)
    && (r == ENOTDIR <==> dir && i !in t.dirs)
    && (r == ENOTEMPTY <==> dir && i in t.dirs && Inhabited(LookOf(t), i))
    && r in {EISDIR, ENOTDIR, ENOTEMPTY, Done}
  }

  ghost predicate RemoveEffect(ns: Ns, ns': Ns, k: Key, r: Outcome)
  {
    if r == Done then LookOf(ns'.t) == LookOf(ns.t) - {k} && KindsKept(ns.t, ns'.t) else ns' == ns
  }

  /** What unlink and rmdir answer and leave behind. */
  lemma RemoveAnswers(ns: Ns, x: nat, dir: bool)
    requires Sound(ns) && Found(ns, x)
    ensures var k := NodeKey(ns, KeyOf(ns.c, x));
            var r := RemoveOutcome(ns.t, k, dir);
            && RemoveReply(ns.t, Inode(ns.c, x).value, dir, r)
            && RemoveEffect(ns, Apply(ns, Delete(x, dir)), k, r)
  {
    var k := NodeKey(ns, KeyOf(ns.c, x));
    FoundNode(ns, x);
    RemoveReplies(ns.t, k, Inode(ns.c, x).value, dir);
    if RemoveOutcome(ns.t, k, dir) == Done {
      NothingBelow(ns, x, dir);
      LookRemove(ns.t, k);
      RemovedKinds(ns.t, k);
    }
    RemoveDoes(ns, x, dir);
  }

  lemma RemoveReplies(t: Tree, k: Key, i: nat, dir: bool)
    requires k in t.entry && (t.entry[k] in t.dirs <==> i in t.dirs) && (i in t.dirs ==> t.entry[k] == i)
    ensures RemoveReply(t, i, dir, RemoveOutcome(t, k, dir))
  {
    EmptyIsUninhabited(t, i);
  }

  lemma RemoveDoes(ns: Ns, x: nat, dir: bool)
    requires Found(ns, x)
    ensures var k := NodeKey(ns, KeyOf(ns.c, x));
            if RemoveOutcome(ns.t, k, dir) == Done then Apply(ns, Delete(x, dir)).t == Remove(ns.t, k)
            else Apply(ns, Delete(x, dir)) == ns
  {
  }

  // ------------------------------------------------------------------------- exchange

  /** The exchange is refused exactly if the nodes would be no tree after it. */
  ghost predicate SwapReply(t: Tree, from: Key, to: Key, r: Outcome)
    requires from in t.entry && to in t.entry
  {
    && (r == EINVAL <==> !Acyclic(t.at[t.entry[from] := to][t.entry[to] := from]))
    && r in {EINVAL, Done}
  }

  ghost predicate SwapEffect(ns: Ns, ns': Ns, from: Key, to: Key, r: Outcome)
    requires from in LookOf(ns.t) && to in LookOf(ns.t)
  {
    var look := LookOf(ns.t);
    if r == Done then LookOf(ns'.t) == look[from := look[to]][to := look[from]] && KindsKept(ns.t, ns'.t) else ns' == ns
  }

  lemma ExchangeLoops(at: map<nat, Key>, n: nat, n': nat, p: seq<nat>)
    requires n in at && n' in at && n != n' && Climb(at, at[n'].dir, p) && n in p
    ensures !Acyclic(at[n := at[n']][n' := at[n]])
  {
    NotAboveItself(at, n', p);
    var at1 := at[n' := at[n]];
    ClimbFrame(at, at1, at[n'].dir, p);
    HangBelowItselfLoops(at1, n, at[n'], p);
    assert at1[n := at[n']] == at[n := at[n']][n' := at[n]];
  }

  /** A dentry's node lies above a directory exactly if the ancestor walk meets the dentry. */
  lemma AboveSeen(ns: Ns, x: nat, k: Key, p: seq<nat>)
    requires Sound(ns) && Found(ns, x) && IsDir(ns, k.dir) && ByPath(ns.c, k)
    requires Climb(ns.t.at, NodeKey(ns, k).dir, p)
    ensures NodeKey(ns, KeyOf(ns.c, x)) in ns.t.entry
    ensures IsDir(ns, x) && DescendsFrom(ns.c, k.dir, x, WALK_LIMIT)
            <==> ns.t.entry[NodeKey(ns, KeyOf(ns.c, x))] in p
  {
    ByPathShallow(ns, k);
    FoundNode(ns, x);
    if IsDir(ns, x) {
      ClimbsMirror(ns, k.dir, x, p, WALK_LIMIT);
      WithinAll(p, Inode(ns.c, x).value, WALK_LIMIT);
    } else {
      ClimbDirectories(ns.t, NodeKey(ns, k).dir, p);
    }
  }

  lemma ExchangeLoopsIff(at: map<nat, Key>, n: nat, n': nat, p: seq<nat>, p': seq<nat>)
    requires Acyclic(at) && n in at && n' in at && n != n'
    requires Climb(at, at[n].dir, p) && Climb(at, at[n'].dir, p')
    ensures n in p' || n' in p <==> !Acyclic(at[n := at[n']][n' := at[n]])
  {
    if n in p' {
      ExchangeLoops(at, n, n', p');
    } else if n' in p {
      ExchangeLoops(at, n', n, p);
      assert at[n' := at[n]][n := at[n']] == at[n := at[n']][n' := at[n]];
    } else {
      ExchangeAcyclic(at, n, n');
    }
  }

  /** The node under the name of a found dentry, and the way up from its directory. */
  lemma NodeAndWay(ns: Ns, x: nat) returns (n: nat, p: seq<nat>)
    requires Sound(ns) && Found(ns, x)
    ensures NodeKey(ns, KeyOf(ns.c, x)) in ns.t.entry && n == ns.t.entry[NodeKey(ns, KeyOf(ns.c, x))]
    ensures n in ns.t.at && ns.t.at[n] == NodeKey(ns, KeyOf(ns.c, x))
    ensures IsDir(ns, KeyOf(ns.c, x).dir) && Climb(ns.t.at, ns.t.at[n].dir, p)
  {
    FoundNode(ns, x);
    ParentIsDir(ns, x);
    n := ns.t.entry[NodeKey(ns, KeyOf(ns.c, x))];
    assert Grounded(ns.t.at, ns.t.at[n].dir);
    p :| Climb(ns.t.at, ns.t.at[n].dir, p);
  }

  /** What the exchange answers when the two names hold different inodes. */
  lemma SwapLoops(ns: Ns, x: nat, y: nat)
    requires Sound(ns) && Found(ns, x) && Found(ns, y) && Inode(ns.c, x) != Inode(ns.c, y)
    requires ByPath(ns.c, KeyOf(ns.c, x)) && ByPath(ns.c, KeyOf(ns.c, y))
    requires NodeKey(ns, KeyOf(ns.c, x)) in ns.t.entry && NodeKey(ns, KeyOf(ns.c, y)) in ns.t.entry
    ensures SwapReply(ns.t, NodeKey(ns, KeyOf(ns.c, x)), NodeKey(ns, KeyOf(ns.c, y)), SwapAnswer(ns, x, y))
  {
    var n, p := NodeAndWay(ns, x);
    var n', p' := NodeAndWay(ns, y);
    AboveSeen(ns, x, KeyOf(ns.c, y), p');
    AboveSeen(ns, y, KeyOf(ns.c, x), p);
    DifferentNodes(ns, x, y);
    ExchangeLoopsIff(ns.t.at, n, n', p, p');
    assert SwapAnswer(ns, x, y) == if n in p' || n' in p then EINVAL else Done;
  }

  lemma DifferentNodes(ns: Ns, x: nat, y: nat)
    requires Sound(ns) && Found(ns, x) && Found(ns, y) && Inode(ns.c, x) != Inode(ns.c, y)
    requires NodeKey(ns, KeyOf(ns.c, x)) in ns.t.entry && NodeKey(ns, KeyOf(ns.c, y)) in ns.t.entry
    ensures ns.t.entry[NodeKey(ns, KeyOf(ns.c, x))] != ns.t.entry[NodeKey(ns, KeyOf(ns.c, y))]
  {
    FoundNode(ns, x);
    FoundNode(ns, y);
  }

  /** Exchanging two names of one inode makes no loop. */
  lemma SameInodeSwap(t: Tree, from: Key, to: Key)
    requires TreeOk(t) && from in t.entry && to in t.entry && Resolve(t, t.entry[from]) == Resolve(t, t.entry[to])
    ensures Acyclic(t.at[t.entry[from] := to][t.entry[to] := from])
  {
    var n, n' := t.entry[from], t.entry[to];
    NamedAt(t, from);
    NamedAt(t, to);
    if n == n' {
      HangAgain(t.at, n);
    } else {
      LeavesAboveNothing(t, from, to);
      HangExchanged(t, n, n', from, to);
    }
  }

  lemma HangAgain(at: map<nat, Key>, n: nat)
    requires Acyclic(at) && n in at
    ensures Acyclic(at[n := at[n]][n := at[n]])
  {
    assert at[n := at[n]][n := at[n]] == at;
  }

  lemma HangExchanged(t: Tree, n: nat, n': nat, from: Key, to: Key)
    requires Acyclic(t.at) && n in t.at && n' in t.at && n != n' && t.at[n] == from && t.at[n'] == to
    requires CanHang(t, n, to.dir) && CanHang(t, n', from.dir)
    ensures Acyclic(t.at[n := to][n' := from])
  {
    ExchangeAcyclic(t.at, n, n');
  }

  lemma NamedAt(t: Tree, k: Key)
    requires Names(t) && k in t.entry
    ensures t.entry[k] in t.at && t.at[t.entry[k]] == k
  {
  }

  lemma SameInodeEffect(ns: Ns, from: Key, to: Key)
    requires from in LookOf(ns.t) && to in LookOf(ns.t) && LookOf(ns.t)[from] == LookOf(ns.t)[to]
    ensures SwapEffect(ns, ns, from, to, Done)
  {
    var look := LookOf(ns.t);
    assert look[from := look[to]][to := look[from]] == look;
  }

  /** Two names of one file are not above anything. */
  lemma LeavesAboveNothing(t: Tree, from: Key, to: Key)
    requires TreeOk(t) && from in t.entry && to in t.entry && t.entry[from] != t.entry[to]
    requires Resolve(t, t.entry[from]) == Resolve(t, t.entry[to])
    ensures CanHang(t, t.entry[from], to.dir) && CanHang(t, t.entry[to], from.dir)
  {
    ResolvedDirectory(t, t.entry[from]);
    ResolvedDirectory(t, t.entry[to]);
    LeafHangs(t, t.entry[from], to);
    LeafHangs(t, t.entry[to], from);
  }

  lemma LeafHangs(t: Tree, n: nat, k: Key)
    requires TreeOk(t) && n !in t.dirs && k in t.entry
    ensures CanHang(t, n, k.dir)
  {
    assert t.at[t.entry[k]] == k;
    assert Grounded(t.at, k.dir);
    var p :| Climb(t.at, k.dir, p);
    ClimbDirectories(t, k.dir, p);
  }

  lemma ExchangeEffect(ns: Ns, x: nat, y: nat)
    requires Found(ns, x) && Found(ns, y) && Inode(ns.c, x) != Inode(ns.c, y)
    requires NodeKey(ns, KeyOf(ns.c, x)) in ns.t.entry && NodeKey(ns, KeyOf(ns.c, y)) in ns.t.entry
    ensures SwapEffect(ns, Apply(ns, Op.Swap(x, y)), NodeKey(ns, KeyOf(ns.c, x)), NodeKey(ns, KeyOf(ns.c, y)), SwapAnswer(ns, x, y))
  {
    var from, to := NodeKey(ns, KeyOf(ns.c, x)), NodeKey(ns, KeyOf(ns.c, y));
    LookExchange(ns.t, from, to);
    ExchangedKinds(ns.t, from, to);
  }

  lemma ExchangedKinds(t: Tree, from: Key, to: Key)
    requires from in t.entry && to in t.entry
    ensures KindsKept(t, Exchange(t, from, to))
  {
  }

  lemma FoundUnder(ns: Ns, x: nat)
    requires Sound(ns) && Found(ns, x)
    ensures NodeKey(ns, KeyOf(ns.c, x)) in ns.t.entry
    ensures Inode(ns.c, x) == Some(Resolve(ns.t, ns.t.entry[NodeKey(ns, KeyOf(ns.c, x))]))
  {
    FoundNode(ns, x);
  }

  /** What the exchange answers and leaves behind. */
  lemma SwapAnswers(ns: Ns, x: nat, y: nat)
    requires Sound(ns) && Found(ns, x) && Found(ns, y)
    requires ByPath(ns.c, KeyOf(ns.c, x)) && ByPath(ns.c, KeyOf(ns.c, y))
    ensures var from, to := NodeKey(ns, KeyOf(ns.c, x)), NodeKey(ns, KeyOf(ns.c, y));
            && from in LookOf(ns.t) && to in LookOf(ns.t)
            && SwapReply(ns.t, from, to, SwapAnswer(ns, x, y))
            && SwapEffect(ns, Apply(ns, Op.Swap(x, y)), from, to, SwapAnswer(ns, x, y))
  {
    var from, to := NodeKey(ns, KeyOf(ns.c, x)), NodeKey(ns, KeyOf(ns.c, y));
    FoundUnder(ns, x);
    FoundUnder(ns, y);
    if Inode(ns.c, x) == Inode(ns.c, y) {
      assert Apply(ns, Op.Swap(x, y)) == ns && SwapAnswer(ns, x, y) == Done;
      SameInodeSwap(ns.t, from, to);
      SameInodeEffect(ns, from, to);
    } else {
      SwapLoops(ns, x, y);
      ExchangeEffect(ns, x, y);
    }
  }

  // ------------------------------------------------- lookups, new names and open files

  /** A lookup changes no name. */
  lemma LookupLeaves(ns: Ns, k: Key, d: nat, lost: set<Key>)
    requires Enabled(ns, Op.Lookup(k, d, lost))
    ensures Apply(ns, Op.Lookup(k, d, lost)).t == ns.t
  {
  }

  /** A new name for a new inode of the kind asked for; every other name as before. */
  ghost predicate MakeEffect(ns: Ns, ns': Ns, k: Key, dir: bool, n: nat)
  {
    && n !in ns.t.refs && LookOf(ns'.t) == LookOf(ns.t)[k := n]
    && (n in ns'.t.dirs <==> dir) && ns'.t.dirs - {n} == ns.t.dirs
  }

  lemma MakeLeaves(ns: Ns, k: Key, dir: bool, n: nat, d: nat)
    requires Sound(ns) && Enabled(ns, Op.Make(k, dir, n, d)) && NodeKey(ns, k) !in LookOf(ns.t)
    ensures MakeEffect(ns, Apply(ns, Op.Make(k, dir, n, d)), NodeKey(ns, k), dir, n)
  {
    LookCreate(ns.t, NodeKey(ns, k), n, dir);
  }

  /** A second name for an inode that is no directory; every other name as before. */
  lemma LinkLeaves(ns: Ns, src: nat, k: Key, n: nat, d: nat)
    requires Sound(ns) && Enabled(ns, Op.LinkTo(src, k, n, d)) && NodeKey(ns, k) !in LookOf(ns.t)
    ensures var ns' := Apply(ns, Op.LinkTo(src, k, n, d));
            var i := Inode(ns.c, src).value;
            if i in ns.t.dirs then ns' == ns
            else LookOf(ns'.t) == LookOf(ns.t)[NodeKey(ns, k) := i] && ns'.t.dirs == ns.t.dirs
  {
    var i := Inode(ns.c, src).value;
    if i !in ns.t.dirs {
      LookLink(ns.t, NodeKey(ns, k), n, i);
    }
  }

  /** Opening and closing change no name. */
  lemma FilesLeaveNames(ns: Ns, x: nat, i: nat)
    requires Sound(ns) && Allocated(ns, x) && i in ns.t.opens
    ensures LookOf(Apply(ns, Op.OpenFile(x)).t) == LookOf(ns.t)
    ensures Apply(ns, Op.OpenFile(x)).t.opens == ns.t.opens + multiset{Inode(ns.c, x).value}
    ensures LookOf(Apply(ns, Op.CloseFile(i)).t) == LookOf(ns.t)
    ensures Apply(ns, Op.CloseFile(i)).t.opens == ns.t.opens - multiset{i}
    ensures KindsKept(ns.t, Apply(ns, Op.CloseFile(i)).t)
  {
    LookSame(ns.t, Open(ns.t, Inode(ns.c, x).value));
    ReleaseLeaves(ns.t, i);
  }

  lemma ReleaseLeaves(t: Tree, i: nat)
    requires TreeOk(t) && i in t.opens
    ensures var t' := Release(t, i);
            LookOf(t') == LookOf(t) && t'.opens == t.opens - multiset{i} && KindsKept(t, t')
  {
    LookRelease(t, i);
    ReleaseOk(t, i);
    OnlyFreedKinds(t.(opens := t.opens - multiset{i}), Release(t, i));
  }
}
