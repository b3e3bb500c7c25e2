/**
 The nodes of fs/tmpfs.c as they lie in memory: child lists, parent and target pointers
 and counts, changed in place by the inode and file operations. Each operation is proved
 to do to the name tree what TmpfsTree says.
 */
module TmpfsNodes {
  import opened Machine
  import opened SinglyLinked
  import opened TmpfsTree

  datatype Node = Node(name: string, dir: bool, parent: Option<nat>, children: seq<nat>,
                       target: Option<nat>, refs: nat)

  type Heap = map<nat, Node>

  // ------------------------------------------------------------ what the nodes stand for

  ghost predicate Fields(h: Heap, t: Tree)
  {
    && h.Keys == t.refs.Keys && t.root in h
    && t.at.Keys <= h.Keys && t.target.Keys <= h.Keys && t.dirs <= h.Keys
    && (forall n | n in h :: h[n].refs == t.refs[n] && (h[n].dir <==> n in t.dirs))
    && (forall n | n in h :: h[n].target == if n in t.target then Some(t.target[n]) else None)
    && (forall n | n in h :: h[n].parent == if n in t.at then Some(t.at[n].dir) else None)
  }

  /** The child lists hold exactly the names of the tree, each once. */
  ghost predicate Lists(h: Heap, t: Tree)
  {
    && (forall p, c | p in h && c in h[p].children :: Holds(h, t, p, c))
    && (forall k | k in t.entry :: k.dir in h && t.entry[k] in h[k.dir].children)
    && (forall p | p in h :: Distinct(h[p].children))
    && (forall k | k in t.entry :: t.entry[k] in h && h[t.entry[k]].name == k.name)
  }

  ghost predicate Holds(h: Heap, t: Tree, p: nat, c: nat)
  {
    c in h && Key(p, h[c].name) in t.entry && t.entry[Key(p, h[c].name)] == c
  }

  ghost predicate Stands(h: Heap, t: Tree)
  {
    Fields(h, t) && Lists(h, t)
  }

  // ------------------------------------------------------------------ list surgery

  /** tmpfs_dir_add. */
  function Hang(h: Heap, p: nat, c: nat): Heap
    requires p in h && c in h
  {
    var h1 := h[c := h[c].(parent := Some(p))];
    h1[p := h1[p].(children := [c] + h1[p].children)]
  }

  /** tmpfs_dir_remove of a child. */
  function Unhang(h: Heap, p: nat, c: nat): Heap
    requires p in h && c in h
  {
    var h1 := h[p := h[p].(children := Without(h[p].children, c))];
    h1[c := h1[c].(parent := None)]
  }

  lemma HangFields(h: Heap, t: Tree, p: nat, c: nat)
    requires Fields(h, t) && p in h && c in h && p != c
    ensures Fields(Hang(h, p, c), AddName(t, Key(p, h[c].name), c))
  {
  }

  lemma NotListed(h: Heap, t: Tree, c: nat)
    requires Lists(h, t) && forall k | k in t.entry :: t.entry[k] != c
    ensures forall p | p in h :: c !in h[p].children
  {
  }

  lemma HangLists(h: Heap, t: Tree, p: nat, c: nat)
    requires Lists(h, t) && p in h && c in h && p != c && Key(p, h[c].name) !in t.entry
    requires forall k | k in t.entry :: t.entry[k] != c
    ensures Lists(Hang(h, p, c), AddName(t, Key(p, h[c].name), c))
  {
    var h', t' := Hang(h, p, c), AddName(t, Key(p, h[c].name), c);
    NotListed(h, t, c);
    DistinctCons(c, h[p].children);
    forall q, d | q in h' && d in h'[q].children
      ensures Holds(h', t', q, d)
    {
      HangHolds(h, t, p, c, q, d);
    }
  }

  lemma HangHolds(h: Heap, t: Tree, p: nat, c: nat, q: nat, d: nat)
    requires Lists(h, t) && p in h && c in h && p != c && Key(p, h[c].name) !in t.entry
    requires q in h && c !in h[q].children && d in Hang(h, p, c)[q].children
    ensures Holds(Hang(h, p, c), AddName(t, Key(p, h[c].name), c), q, d)
  {
    if d != c {
      assert d in h[q].children;
      assert Holds(h, t, q, d);
    }
  }

  lemma UnhangFields(h: Heap, t: Tree, k: Key)
    requires Fields(h, t) && k in t.entry && k.dir in h && t.entry[k] in h && k.dir != t.entry[k]
    ensures Fields(Unhang(h, k.dir, t.entry[k]), DropName(t, k))
  {
  }

  lemma UnhangLists(h: Heap, t: Tree, k: Key)
    requires Lists(h, t) && Inverse(t) && k in t.entry && k.dir in h && t.entry[k] in h && k.dir != t.entry[k]
    ensures Lists(Unhang(h, k.dir, t.entry[k]), DropName(t, k))
  {
    var c := t.entry[k];
    var h', t' := Unhang(h, k.dir, c), DropName(t, k);
    WithoutOne(h[k.dir].children, c);
    forall q, d | q in h' && d in h'[q].children
      ensures Holds(h', t', q, d)
    {
      assert d in h[q].children;
      assert Holds(h, t, q, d);
    }
    forall j | j in t'.entry
      ensures t'.entry[j] in h'[j.dir].children
    {
      assert t.entry[j] in h[j.dir].children;
      assert t.entry[j] != c;
    }
  }

  // ------------------------------------------------------------------- counts and nodes

  lemma SetRefs(h: Heap, t: Tree, n: nat, r: nat)
    requires Stands(h, t) && n in h
    ensures Stands(h[n := h[n].(refs := r)], t.(refs := t.refs[n := r]))
  {
    SameLists(h, t, h[n := h[n].(refs := r)], t.(refs := t.refs[n := r]));
  }

  lemma SameLists(h: Heap, t: Tree, h': Heap, t': Tree)
    requires Lists(h, t) && h'.Keys == h.Keys && t'.entry == t.entry
    requires forall n | n in h :: h'[n].name == h[n].name && h'[n].children == h[n].children
    ensures Lists(h', t')
  {
    forall q, d | q in h' && d in h'[q].children
      ensures Holds(h', t', q, d)
    {
      assert Holds(h, t, q, d);
    }
  }

  lemma FreeStands(h: Heap, t: Tree, n: nat)
    requires Stands(h, t) && n in h && n !in t.at && n !in t.target && Empty(t, n) && n != t.root
    requires forall k | k in t.entry :: t.entry[k] != n
    ensures Stands(h - {n}, Free(t, n))
  {
    var h', t' := h - {n}, Free(t, n);
    forall q, d | q in h' && d in h'[q].children
      ensures Holds(h', t', q, d)
    {
      assert Holds(h, t, q, d);
    }
  }

  lemma LastReference(t: Tree, n: nat)
    requires Putting(t, n) && t.refs[n] == 1
    ensures n !in t.at && Empty(t, n) && n != t.root && forall k | k in t.entry :: t.entry[k] != n
    ensures n in t.target ==> Putting(Free(t.(target := t.target - {n}), n), t.target[n])
  {
    NothingOwed(t, n);
    if n in t.target {
      PutStub(t, n);
    }
  }

  lemma LastPut(h: Heap, t: Tree, n: nat)
    requires Stands(h, t) && n in h && n !in t.at && Empty(t, n) && n != t.root
    requires forall k | k in t.entry :: t.entry[k] != n
    ensures Stands(h - {n}, Free(t.(target := t.target - {n}), n))
    ensures n !in t.target ==> t.target - {n} == t.target
  {
    var h1, t1 := h[n := h[n].(target := None)], t.(target := t.target - {n});
    ForgetTarget(h, t, n);
    FreeStands(h1, t1, n);
    assert h1 - {n} == h - {n};
  }

  lemma ForgetTarget(h: Heap, t: Tree, n: nat)
    requires Stands(h, t) && n in h
    ensures Stands(h[n := h[n].(target := None)], t.(target := t.target - {n}))
  {
    SameLists(h, t, h[n := h[n].(target := None)], t.(target := t.target - {n}));
  }

  // ------------------------------------------------------------------------ the mount

  ghost predicate Below(h: Heap, next: nat)
  {
    forall n | n in h :: n < next
  }

  class Tmpfs {
    var node: Heap
    var next: nat       // addresses from here on are unused
    const root: nat := 0
    ghost var tree: Tree

    ghost predicate Sound()
      reads this
    {
      Stands(node, tree) && Below(node, next)
    }

    /** tmpfs_dir_find. */
    method Find(d: nat, name: string) returns (r: Option<nat>)
      requires Sound() && d in node
      ensures r == if Key(d, name) in tree.entry then Some(tree.entry[Key(d, name)]) else None
    {
      var cs := node[d].children;
      assert forall j | 0 <= j < |cs| :: Holds(node, tree, d, cs[j]);
      assert Key(d, name) in tree.entry ==> tree.entry[Key(d, name)] in cs;
      var i := 0;
      while i < |cs|
        invariant 0 <= i <= |cs|
        invariant forall j | 0 <= j < i :: node[cs[j]].name != name
      {
        if node[cs[i]].name == name {
          return Some(cs[i]);
        }
        i := i + 1;
      }
      r := None;
    }

    method DirAdd(p: nat, c: nat)
      requires p in node && c in node
      modifies this`node
      ensures node == Hang(old(node), p, c)
    {
      node := node[c := node[c].(parent := Some(p))];
      node := node[p := node[p].(children := [c] + node[p].children)];
    }

    method DirRemove(p: nat, c: nat) returns (found: bool)
      requires p in node && c in node
      modifies this`node
      ensures found <==> c in old(node)[p].children
      ensures node == if found then Unhang(old(node), p, c) else old(node)
    {
      var cs := node[p].children;
      var i := 0;
      while i < |cs|
        invariant 0 <= i <= |cs| && c !in cs[..i]
        invariant Without(cs, c) == cs[..i] + Without(cs[i..], c)
        invariant node == old(node)
      {
        if cs[i] == c {
          assert Without(cs[i..], c) == cs[i + 1..];
          node := node[p := node[p].(children := cs[..i] + cs[i + 1..])];
          node := node[c := node[c].(parent := None)];
          return true;
        }
        assert cs[..i] + [cs[i]] == cs[..i + 1];
        i := i + 1;
      }
      found := false;
    }

    /** tmpfs_node_put. */
    method NodePut(n: nat)
      requires Sound() && Putting(tree, n)
      modifies this`node, this`tree
      ensures Sound() && tree == Put(old(tree), n)
      decreases tree.target.Keys
    {
      var r := node[n].refs - 1;
      if r > 0 {
        SetRefs(node, tree, n, r);
        node := node[n := node[n].(refs := r)];
        tree := tree.(refs := tree.refs[n := r]);
      } else {
        var target := node[n].target;
        LastReference(tree, n);
        LastPut(node, tree, n);
        node := node - {n};
        tree := Free(tree.(target := tree.target - {n}), n);
        if target.Some? {
          NodePut(target.value);
        }
      }
    }

    /** tmpfs_new_node and tmpfs_dir_add. */
    method AddNode(k: Key, x: Node) returns (n: nat)
      requires Sound() && k.dir in node && k !in tree.entry
      requires x.children == [] && x.parent == None && x.name == k.name
      modifies this
      ensures Sound() && old(next) == n < next && n !in old(tree).refs
      ensures tree == AddName(Grown(old(tree), n, x), k, n)
    {
      n := next;
      NewNode(node, tree, k, n, x);
      node, next := node[n := x], next + 1;
      tree := AddName(Grown(tree, n, x), k, n);
      DirAdd(k.dir, n);
    }

    /** tmpfs_create, tmpfs_mknod, tmpfs_mkdir and tmpfs_symlink. */
    method Make(d: nat, name: string, dir: bool) returns (r: Outcome, n: nat)
      requires Sound() && d in node
      modifies this
      ensures Sound() && old(next) <= next
      ensures r == if Key(d, name) in old(tree).entry then EEXIST else Done
      ensures r == EEXIST ==> tree == old(tree)
      ensures r == Done ==>
                n !in old(tree).refs && old(next) <= n && tree == Create(old(tree), Key(d, name), n, dir)
    {
      n := next;
      var found := Find(d, name);
      if found.Some? {
        return EEXIST, n;
      }
      n := AddNode(Key(d, name), Node(name, dir, None, [], None, 1));
      r := Done;
    }

    method AddRef(n: nat)
      requires Sound() && n in node
      modifies this`node, this`tree
      ensures Sound() && n in old(tree).refs && tree == Referenced(old(tree), n) && node.Keys == old(node.Keys)
    {
      var r := node[n].refs + 1;
      SetRefs(node, tree, n, r);
      node := node[n := node[n].(refs := r)];
      tree := Referenced(tree, n);
    }

    /** The loop of tmpfs_link to the node a stub stands for. */
    method PrimaryOf(src: nat) returns (n: nat)
      requires Sound() && StubsOk(tree, {}) && src in node
      ensures n == Resolve(tree, src) && n in node && (src !in tree.dirs ==> n !in tree.dirs)
    {
      n := src;
      assert src in tree.target ==> Primary(tree, tree.target[src]);
      while node[n].target.Some?
        invariant n in node && (n == src || n == Resolve(tree, src))
        decreases n in tree.target
      {
        n := node[n].target.value;
      }
    }

    method AddStub(k: Key, n: nat) returns (m: nat)
      requires Sound() && k.dir in node && k !in tree.entry && n in node && n !in tree.dirs
      modifies this
      ensures Sound() && old(next) == m < next && m !in old(tree).refs && n in old(tree).refs
      ensures tree == Link(old(tree), k, m, n)
    {
      var x := Node(k.name, node[n].dir, None, [], Some(n), 1);
      ghost var t := tree;
      AddRef(n);
      m := AddNode(k, x);
      LinkIsGrown(t, k, m, n, x);
    }

    /** tmpfs_link: the new name gets a stub that stands for the linked node. */
    method MakeLink(d: nat, name: string, src: nat) returns (r: Outcome, m: nat)
      requires Sound() && StubsOk(tree, {}) && d in node && src in node && src !in tree.dirs
      modifies this
      ensures Sound() && old(next) <= next
      ensures r == if Key(d, name) in old(tree).entry then EEXIST else Done
      ensures r == EEXIST ==> tree == old(tree)
      ensures r == Done ==>
                && m !in old(tree).refs && old(next) <= m && Resolve(old(tree), src) in old(tree).refs
                && tree == Link(old(tree), Key(d, name), m, Resolve(old(tree), src))
    {
      m := next;
      var found := Find(d, name);
      if found.Some? {
        return EEXIST, m;
      }
      var n := PrimaryOf(src);
      m := AddStub(Key(d, name), n);
      r := Done;
    }

    /** tmpfs_dir_remove of a child, as a step of the tree. */
    method TakeOut(k: Key, n: nat)
      requires Sound() && Inverse(tree) && k in tree.entry && n == tree.entry[k] && k.dir != n
      modifies this`node, this`tree
      ensures Sound() && tree == DropName(old(tree), k)
    {
      UnhangStands(node, tree, k);
      var found := DirRemove(k.dir, n);
      tree := DropName(tree, k);
    }

    /** Take a name out and give up the reference it stood for. */
    method Detach(k: Key, n: nat)
      requires Sound() && Settled(tree) && k in tree.entry && n == tree.entry[k] && Empty(tree, n)
      modifies this`node, this`tree
      ensures Sound() && tree == Remove(old(tree), k)
    {
      RemovePutting(tree, k);
      TakeOut(k, n);
      NodePut(n);
    }

    /** tmpfs_unlink, and tmpfs_rmdir for a directory. */
    method Delete(d: nat, name: string, dir: bool) returns (r: Outcome)
      requires Sound() && Settled(tree) && d in node
      modifies this`node, this`tree
      ensures Sound()
      ensures r == RemoveOutcome(old(tree), Key(d, name), dir)
      ensures tree == if r == Done then Remove(old(tree), Key(d, name)) else old(tree)
    {
      var n := Find(d, name);
      if n.None? {
        return ENOENT;
      }
      ListedEmpty(node, tree, n.value);
      if !dir && node[n.value].dir {
        return EISDIR;
      }
      if dir && !node[n.value].dir {
        return ENOTDIR;
      }
      if dir && node[n.value].children != [] {
        return ENOTEMPTY;
      }
      Detach(Key(d, name), n.value);
      r := Done;
    }

    /** Give a node without a place a new name and hang it into a directory. */
    method PutIn(k: Key, n: nat)
      requires Sound() && n in node && k.dir in node && k.dir != n && k !in tree.entry
      requires forall j | j in tree.entry :: tree.entry[j] != n
      modifies this`node, this`tree
      ensures Sound() && tree == AddName(old(tree), k, n) && node.Keys == old(node.Keys)
    {
      RenameStands(node, tree, k, n);
      node := node[n := node[n].(name := k.name)];
      tree := AddName(tree, k, n);
      DirAdd(k.dir, n);
    }

    /** tmpfs_rename. */
    method Rename(d: nat, name: string, d': nat, name': string) returns (r: Outcome)
      requires Sound() && Settled(tree) && d in node && d' in tree.dirs && Attached(tree, d')
      requires Key(d, name) != Key(d', name')
      requires Key(d, name) in tree.entry ==> tree.entry[Key(d, name)] != d && tree.entry[Key(d, name)] != d'
      modifies this`node, this`tree
      ensures Sound()
      ensures r == RenameOutcome(old(tree), Key(d, name), Key(d', name'))
      ensures r == ENOENT <==> Key(d, name) !in old(tree).entry
      ensures r !in {ENOENT, Done} <==>
                && Key(d, name) in old(tree).entry && Key(d', name') in old(tree).entry
                && ((old(tree).entry[Key(d, name)] in old(tree).dirs <==> old(tree).entry[Key(d', name')] !in old(tree).dirs)
                    || (exists k :: k in old(tree).entry && k.dir == old(tree).entry[Key(d', name')]))
      ensures tree == if r == Done then Renamed(old(tree), Key(d, name), Key(d', name')) else old(tree)
    {
      var found := Find(d, name);
      if found.None? {
        return ENOENT;
      }
      var n := found.value;
      var existing := Find(d', name');
      if existing.Some? {
        var e := existing.value;
        ListedEmpty(node, tree, e);
        if node[n].dir {
          if !node[e].dir {
            return ENOTDIR;
          }
          if node[e].children != [] {
            return ENOTEMPTY;
          }
        } else if node[e].dir {
          return EISDIR;
        }
        VacateSettled(tree, Key(d, name), Key(d', name'));
        Detach(Key(d', name'), e);
      }
      TakeOut(Key(d, name), n);
      PutIn(Key(d', name'), n);
      r := Done;
    }

    /** tmpfs_rename2 with RENAME_EXCHANGE. */
    method Swap(d: nat, name: string, d': nat, name': string) returns (r: Outcome)
      requires Sound() && Names(tree) && d in node && d' in node
      requires Key(d, name) in tree.entry ==> tree.entry[Key(d, name)] != d && tree.entry[Key(d, name)] != d'
      requires Key(d', name') in tree.entry ==> tree.entry[Key(d', name')] != d && tree.entry[Key(d', name')] != d'
      modifies this`node, this`tree
      ensures Sound()
      ensures r == if Key(d, name) in old(tree).entry && Key(d', name') in old(tree).entry then Done else ENOENT
      ensures tree == if r == Done && Key(d, name) != Key(d', name')
                      then Exchange(old(tree), Key(d, name), Key(d', name')) else old(tree)
    {
      var one := Find(d, name);
      var two := Find(d', name');
      if one.None? || two.None? {
        return ENOENT;
      }
      if one == two {
        return Done;
      }
      SwapSteps(tree, Key(d, name), Key(d', name'));
      TakeOut(Key(d, name), one.value);
      TakeOut(Key(d', name'), two.value);
      PutIn(Key(d', name'), one.value);
      PutIn(Key(d, name), two.value);
      r := Done;
    }

    /** tmpfs_file_open. */
    method OpenFile(n: nat)
      requires Sound() && n in node
      modifies this`node, this`tree
      ensures Sound() && n in old(tree).refs && tree == Open(old(tree), n)
    {
      AddRef(n);
      SameLists(node, tree, node, tree.(opens := tree.opens + multiset{n}));
      tree := tree.(opens := tree.opens + multiset{n});
    }

    /** tmpfs_file_release of an open file. */
    method ReleaseFile(n: nat)
      requires Sound() && Settled(tree) && n in tree.opens
      modifies this`node, this`tree
      ensures Sound() && tree == Release(old(tree), n)
    {
      ReleasePutting(tree, n);
      SameLists(node, tree, node, tree.(opens := tree.opens - multiset{n}));
      tree := tree.(opens := tree.opens - multiset{n});
      NodePut(n);
    }

    /** tmpfs_mount: a root directory with no names in it. */
    constructor ()
      ensures Sound() && TreeOk(tree) && tree.root == root && tree.entry == map[] && tree.opens == multiset{}
    {
      node := map[0 := Node("/", true, None, [], None, 1)];
      next := 1;
      tree := Tree(0, {0}, map[], map[], map[], map[0 := 1], multiset{});
      new;
      EmptyTreeOk(tree);
    }
  }

  /** The tree with one more node, without a name yet. */
  ghost function Grown(t: Tree, n: nat, x: Node): Tree
  {
    t.(refs := t.refs[n := x.refs],
       dirs := if x.dir then t.dirs + {n} else t.dirs,
       target := if x.target.Some? then t.target[n := x.target.value] else t.target)
  }

  ghost predicate Unknown(t: Tree, n: nat)
  {
    n !in t.refs && n !in t.at && n !in t.target && n !in t.dirs && forall k | k in t.entry :: t.entry[k] != n
  }

  lemma GrownStands(h: Heap, t: Tree, n: nat, x: Node)
    requires Stands(h, t) && Unknown(t, n) && x.children == [] && x.parent == None
    ensures Stands(h[n := x], Grown(t, n, x))
  {
    GrownLists(h, t, n, x);
  }

  lemma GrownLists(h: Heap, t: Tree, n: nat, x: Node)
    requires Lists(h, t) && n !in h && x.children == []
    requires forall k | k in t.entry :: t.entry[k] != n
    ensures Lists(h[n := x], Grown(t, n, x))
  {
    var h', t' := h[n := x], Grown(t, n, x);
    forall q, d | q in h' && d in h'[q].children
      ensures Holds(h', t', q, d)
    {
      assert Holds(h, t, q, d);
    }
  }

  lemma HangStands(h: Heap, t: Tree, p: nat, c: nat)
    requires Stands(h, t) && p in h && c in h && p != c && Key(p, h[c].name) !in t.entry
    requires forall k | k in t.entry :: t.entry[k] != c
    ensures Stands(Hang(h, p, c), AddName(t, Key(p, h[c].name), c))
  {
    HangFields(h, t, p, c);
    HangLists(h, t, p, c);
  }

  lemma UnknownNode(h: Heap, t: Tree, n: nat)
    requires Stands(h, t) && n !in h
    ensures Unknown(t, n)
  {
  }

  /** A new node hung into a directory. */
  lemma NewNode(h: Heap, t: Tree, k: Key, n: nat, x: Node)
    requires Stands(h, t) && Below(h, n) && k.dir in h && k !in t.entry
    requires x.children == [] && x.parent == None && x.name == k.name
    ensures n !in t.refs
    ensures var h' := Hang(h[n := x], k.dir, n);
            Stands(h', AddName(Grown(t, n, x), k, n)) && Below(h', n + 1)
  {
    assert n !in h;
    UnknownNode(h, t, n);
    GrownStands(h, t, n, x);
    HangStands(h[n := x], Grown(t, n, x), k.dir, n);
  }

  // --------------------------------------------------------- lemmas for the operations

  ghost function Referenced(t: Tree, n: nat): Tree
    requires n in t.refs
  {
    t.(refs := t.refs[n := t.refs[n] + 1])
  }

  lemma LinkIsGrown(t: Tree, k: Key, m: nat, n: nat, x: Node)
    requires n in t.refs && x.refs == 1 && !x.dir && x.target == Some(n)
    ensures Link(t, k, m, n) == AddName(Grown(Referenced(t, n), m, x), k, m)
  {
  }

  lemma UnhangStands(h: Heap, t: Tree, k: Key)
    requires Stands(h, t) && Inverse(t) && k in t.entry && k.dir != t.entry[k]
    ensures k.dir in h && t.entry[k] in h[k.dir].children && t.entry[k] in h
    ensures Stands(Unhang(h, k.dir, t.entry[k]), DropName(t, k))
    ensures Unhang(h, k.dir, t.entry[k]).Keys == h.Keys
  {
    UnhangFields(h, t, k);
    UnhangLists(h, t, k);
  }

  /** A directory is empty exactly if its child list is; a non-directory always is. */
  lemma ListedEmpty(h: Heap, t: Tree, n: nat)
    requires Stands(h, t) && Names(t) && n in h
    ensures Empty(t, n) <==> h[n].children == []
    ensures n !in t.dirs ==> Empty(t, n)
  {
    if h[n].children != [] {
      assert Holds(h, t, n, h[n].children[0]);
    }
    if n !in t.dirs {
      LeafEmpty(t, n);
    }
  }

  lemma RenameStands(h: Heap, t: Tree, k: Key, n: nat)
    requires Stands(h, t) && n in h && k.dir in h && k.dir != n && k !in t.entry
    requires forall j | j in t.entry :: t.entry[j] != n
    ensures var h' := h[n := h[n].(name := k.name)];
            Stands(Hang(h', k.dir, n), AddName(t, k, n)) && Hang(h', k.dir, n).Keys == h.Keys
  {
    var h' := h[n := h[n].(name := k.name)];
    RenameLists(h, t, n, k.name);
    HangStands(h', t, k.dir, n);
  }

  /** The stored name of a node that is in no list can be anything. */
  lemma RenameLists(h: Heap, t: Tree, n: nat, name: string)
    requires Lists(h, t) && n in h && forall j | j in t.entry :: t.entry[j] != n
    ensures Lists(h[n := h[n].(name := name)], t)
  {
    var h' := h[n := h[n].(name := name)];
    NotListed(h, t, n);
    forall q, d | q in h' && d in h'[q].children
      ensures Holds(h', t, q, d)
    {
      assert d in h[q].children;
      assert Holds(h, t, q, d);
    }
  }

  lemma VacateSettled(t: Tree, k: Key, k': Key)
    requires Settled(t) && k' in t.entry && Empty(t, t.entry[k']) && k in t.entry && k != k'
    ensures var t' := Remove(t, k');
            && Settled(t') && k' !in t'.entry && k'.dir in t'.refs
            && k in t'.entry && t'.entry[k] == t.entry[k]
  {
    RemovePutting(t, k');
    PutSettles(DropName(t, k'), t.entry[k']);
    PutFreesUnowed(DropName(t, k'), t.entry[k']);
    assert Attached(t, k'.dir);
    assert Owed(Remove(t, k'), k'.dir) > 0;
  }

  lemma SwapSteps(t: Tree, k: Key, k': Key)
    requires Inverse(t) && k in t.entry && k' in t.entry && k != k'
    ensures var n, n' := t.entry[k], t.entry[k'];
            var t1 := DropName(t, k);
            && n != n' && Inverse(t1) && k' in t1.entry && t1.entry[k'] == n'
            && var t2 := DropName(t1, k');
               && (forall j | j in t2.entry :: t2.entry[j] != n && t2.entry[j] != n')
               && k !in t2.entry && k' !in t2.entry
               && AddName(AddName(t2, k', n), k, n') == Exchange(t, k, k')
  {
  }

  lemma EmptyTreeOk(t: Tree)
    requires t == Tree(0, {0}, map[], map[], map[], map[0 := 1], multiset{})
    ensures TreeOk(t)
  {
    assert Stubs(t, 0) == {};
    forall n: nat
      ensures Grounded(t.at, n)
    {
      assert Climb(t.at, n, [n]);
    }
  }
}
