/**
 vfs_walk_at of fs/vfs.c: the component walk behind openat2, with symbolic links and the
 RESOLVE_ flags. The walk ends for every path and every link text, and a confined walk
 returns nothing outside its anchor.
 */
module PathWalk {
  import opened Machine
  import opened PathResolve

  const PENDING: nat := 512
  const NAME_MAX: nat := 254
  const MAX_LINKS: nat := 40
  const CLIMB_LIMIT: nat := 4096

  datatype Kind = Dir | Link | File | Absent

  /** The dentries as the walk sees them under the namespace guard. `child` is what a
      lookup gives, a dentry of kind Absent where there is no such name; `text` is what
      readlink gives, None for an error; `denied` is the protected_symlinks rule. */
  datatype World = World(parent: nat -> Option<nat>, kind: nat -> Kind, child: (nat, string) -> nat,
                         text: nat -> Option<string>, magic: nat -> bool, denied: (nat, nat) -> bool)

  /** A looked-up dentry hangs below the directory it was looked up in. */
  ghost predicate WorldOk(w: World)
  {
    forall d: nat, name: string :: w.parent(w.child(d, name)) == Some(d)
  }

  /** `noFollow` is O_NOFOLLOW, or O_CREAT with O_EXCL. */
  datatype Flags = Flags(beneath: bool, inRoot: bool, noSymlinks: bool, noMagic: bool, noFollow: bool)

  datatype Result = Found(d: nat) | Missing(d: nat) | ENOENT | ENOTDIR | ENAMETOOLONG | EXDEV | ELOOP | EACCES | EINVAL

  function Strip(s: string): (t: string)
    ensures |t| <= |s| && (t != [] ==> t[0] != '/')
  {
    if s != [] && s[0] == '/' then Strip(s[1..]) else s
  }

  /** vfs_descends_from. */
  function Climbs(w: World, n: nat, a: nat, steps: nat): bool
    decreases steps
  {
    if steps == 0 then false
    else if n == a then true
    else match w.parent(n)
      case None => false
      case Some(p) => if p == n then false else Climbs(w, p, a, steps - 1)
  }

  predicate Confined(f: Flags)
  {
    f.beneath || f.inRoot
  }

  /** The directory a confined walk may not leave. */
  function Fence(f: Flags, anchor: nat, root: nat): nat
  {
    if f.beneath then anchor else root
  }

  predicate Escapes(w: World, f: Flags, anchor: nat, root: nat, d: nat)
  {
    Confined(f) && !Climbs(w, d, Fence(f, anchor, root), CLIMB_LIMIT)
  }

  /** What follows a component: whether a slash does, and the text after the slashes. */
  function After(rest: string): string
  {
    rest[|Word(rest)|..]
  }

  /** The text to go on with after a link. */
  function Rewrite(text: string, after: string): string
  {
    text + (if after != [] then "/" else "") + Strip(after)
  }

  /** One component that names a child: where the walk stands then, or its answer. */
  datatype Step = Go(d: nat, rest: string, followed: bool) | Stop(r: Result)

  function LinkStep(w: World, f: Flags, root: nat, curr: nat, next: nat, after: string, links: nat): Step
  {
    if after == [] && f.noFollow then Stop(Found(next))
    else if f.noSymlinks || (w.magic(next) && (f.noMagic || Confined(f))) then Stop(ELOOP)
    else if links + 1 > MAX_LINKS then Stop(ELOOP)
    else if w.denied(curr, next) then Stop(EACCES)
    else match w.text(next)
      case None => Stop(Result.EINVAL)
      case Some(text) =>
        if text == [] then Stop(ENOENT)
        else if |text| >= PENDING - 1 then Stop(Result.ENAMETOOLONG)
        else if text[0] == '/' && f.beneath then Stop(EXDEV)
        else if |Rewrite(text, after)| >= PENDING then Stop(Result.ENAMETOOLONG)
        else Go(if text[0] == '/' then root else curr, Rewrite(text, after), true)
  }

  function ChildStep(w: World, f: Flags, anchor: nat, root: nat, curr: nat, name: string, after: string, links: nat): Step
  {
    var next := w.child(curr, name);
    if w.kind(next) == Absent then Stop(if after == [] then Missing(next) else ENOENT)
    else if Escapes(w, f, anchor, root, next) then Stop(EXDEV)
    else if w.kind(next) == Link then LinkStep(w, f, root, curr, next, after, links)
    else if after != [] && w.kind(next) != Dir then Stop(ENOTDIR)
    else Go(next, Strip(after), false)
  }

  function ParentStep(w: World, f: Flags, anchor: nat, root: nat, curr: nat, after: string): Step
  {
    if curr == anchor && f.beneath then Stop(EXDEV)
    else
      var up := if curr != root && w.parent(curr).Some? then w.parent(curr).value else curr;
      if Escapes(w, f, anchor, root, up) then Stop(EXDEV) else Go(up, Strip(after), false)
  }

  /** One round of the walk, on text that does not begin with a slash. */
  function Round(w: World, f: Flags, anchor: nat, root: nat, curr: nat, rest: string, links: nat): (s: Step)
    requires rest != [] && rest[0] != '/'
    ensures s.Go? ==> if s.followed then links < MAX_LINKS else |s.rest| < |rest|
  {
    if w.kind(curr) == Absent then Stop(ENOENT)
    else if w.kind(curr) != Dir then Stop(ENOTDIR)
    else if |Word(rest)| > NAME_MAX then Stop(Result.ENAMETOOLONG)
    else if Word(rest) == "." then Go(curr, Strip(After(rest)), false)
    else if Word(rest) == ".." then ParentStep(w, f, anchor, root, curr, After(rest))
    else ChildStep(w, f, anchor, root, curr, Word(rest), After(rest), links)
  }

  /** The walk. It ends because every round uses up a link or some text. */
  function Walk(w: World, f: Flags, anchor: nat, root: nat, curr: nat, rest: string, links: nat): Result
    requires links <= MAX_LINKS
    decreases MAX_LINKS - links, |rest|
  {
    var text := Strip(rest);
    if text == [] then Found(curr)
    else
      match Round(w, f, anchor, root, curr, text, links)
      case Stop(r) => r
      case Go(d, more, followed) => Walk(w, f, anchor, root, d, more, if followed then links + 1 else links)
  }

  /** vfs_walk_at. */
  function WalkAt(w: World, f: Flags, start: nat, root: nat, path: string): Result
  {
    if |path| >= PENDING then Result.ENAMETOOLONG
    else if path == [] then ENOENT
    else if path[0] == '/' && f.beneath then EXDEV
    else Walk(w, f, start, root, if path[0] == '/' then root else start, path, 0)
  }

  // ------------------------------------------------------------------- confinement

  /** a lies on the way up from n. */
  ghost predicate Under(w: World, n: nat, a: nat)
  {
    exists k: nat :: Climbs(w, n, a, k)
  }

  lemma ChildUnder(w: World, d: nat, name: string, a: nat)
    requires WorldOk(w) && Under(w, d, a)
    ensures Under(w, w.child(d, name), a)
  {
    var k: nat :| Climbs(w, d, a, k);
    var n := w.child(d, name);
    assert w.parent(n) == Some(d);
    if n == d {
      assert Climbs(w, n, a, k);
    } else {
      assert Climbs(w, n, a, k + 1);
    }
  }

  lemma NotEscaped(w: World, f: Flags, anchor: nat, root: nat, d: nat)
    requires Confined(f) && !Escapes(w, f, anchor, root, d)
    ensures Under(w, d, Fence(f, anchor, root))
  {
  }

  lemma FenceUnderItself(w: World, a: nat)
    ensures Under(w, a, a)
  {
    assert Climbs(w, a, a, 1);
  }

  /** A round of a confined walk stays under the fence, whatever it answers. */
  lemma RoundConfined(w: World, f: Flags, anchor: nat, root: nat, curr: nat, rest: string, links: nat)
    requires WorldOk(w) && Confined(f) && (f.inRoot && !f.beneath ==> root == anchor)
    requires rest != [] && rest[0] != '/'
    requires Under(w, curr, Fence(f, anchor, root))
    ensures var s := Round(w, f, anchor, root, curr, rest, links);
            && (s.Go? ==> Under(w, s.d, Fence(f, anchor, root)))
            && (s.Stop? && s.r.Found? ==> Under(w, s.r.d, Fence(f, anchor, root)))
            && (s.Stop? && s.r.Missing? ==> Under(w, s.r.d, Fence(f, anchor, root)))
  {
    var a := Fence(f, anchor, root);
    FenceUnderItself(w, a);
    ChildUnder(w, curr, Word(rest), a);
    var up := if curr != root && w.parent(curr).Some? then w.parent(curr).value else curr;
    if !Escapes(w, f, anchor, root, up) {
      NotEscaped(w, f, anchor, root, up);
    }
  }

  lemma {:induction false} WalkConfined(w: World, f: Flags, anchor: nat, root: nat, curr: nat, rest: string, links: nat)
    requires WorldOk(w) && Confined(f) && (f.inRoot && !f.beneath ==> root == anchor)
    requires links <= MAX_LINKS && Under(w, curr, Fence(f, anchor, root))
    ensures var r := Walk(w, f, anchor, root, curr, rest, links);
            (r.Found? || r.Missing?) ==> Under(w, r.d, Fence(f, anchor, root))
    decreases MAX_LINKS - links, |rest|
  {
    var text := Strip(rest);
    if text != [] {
      RoundConfined(w, f, anchor, root, curr, text, links);
      var s := Round(w, f, anchor, root, curr, text, links);
      if s.Go? {
        WalkConfined(w, f, anchor, root, s.d, s.rest, if s.followed then links + 1 else links);
      }
    }
  }

  /** With RESOLVE_BENEATH or RESOLVE_IN_ROOT every dentry returned, also an absent one to
      be created, descends from the start of the walk. */
  lemma WalkAtConfined(w: World, f: Flags, start: nat, root: nat, path: string)
    requires WorldOk(w) && Confined(f) && (f.inRoot ==> root == start)
    ensures var r := WalkAt(w, f, start, root, path);
            (r.Found? || r.Missing?) ==> Under(w, r.d, start)
  {
    FenceUnderItself(w, start);
    if path != [] && |path| < PENDING && !(path[0] == '/' && f.beneath) {
      WalkConfined(w, f, start, root, if path[0] == '/' then root else start, path, 0);
    }
  }

  // ------------------------------------------------------------- walks without links

  lemma {:induction false} SplitStrip(s: string)
    ensures Split(Strip(s)) == Split(s)
  {
    if s != [] && s[0] == '/' {
      SplitStrip(s[1..]);
    }
  }

  /** Every component names a directory. */
  ghost predicate Directories(w: World, d: nat, cs: seq<string>)
    decreases |cs|
  {
    && w.kind(d) == Dir
    && (cs != [] ==>
          cs[0] != "." && cs[0] != ".." && |cs[0]| <= NAME_MAX && Directories(w, w.child(d, cs[0]), cs[1..]))
  }

  function Descend(w: World, d: nat, cs: seq<string>): nat
    decreases |cs|
  {
    if cs == [] then d else Descend(w, w.child(d, cs[0]), cs[1..])
  }

  /** On directories alone the walk is the fold of lookups over the components. */
  lemma {:induction false} WalkIsDescent(w: World, f: Flags, anchor: nat, root: nat, d: nat, rest: string, links: nat)
    requires links <= MAX_LINKS && !Confined(f) && Directories(w, d, Split(rest))
    ensures Walk(w, f, anchor, root, d, rest, links) == Found(Descend(w, d, Split(rest)))
    decreases |rest|
  {
    var text := Strip(rest);
    SplitStrip(rest);
    if text != [] {
      var after := After(text);
      SplitStrip(after);
      assert Split(text) == [Word(text)] + Split(after);
      assert Split(text)[1..] == Split(after);
      WalkIsDescent(w, f, anchor, root, w.child(d, Word(text)), Strip(after), links);
    }
  }

  /** A walk over directories and then more is the walk of the rest from where they lead. */
  lemma {:induction false} WalkPrefix(w: World, f: Flags, anchor: nat, root: nat, d: nat, a: string, r: string, links: nat)
    requires links <= MAX_LINKS && !Confined(f) && Directories(w, d, Split(a)) && (r == [] || r[0] == '/')
    ensures Walk(w, f, anchor, root, d, a + r, links) == Walk(w, f, anchor, root, Descend(w, d, Split(a)), r, links)
    decreases |a|
  {
    if a == [] {
      assert a + r == r;
    } else if a[0] == '/' {
      assert (a + r)[1..] == a[1..] + r;
      WalkSkipsSlash(w, f, anchor, root, d, a + r, links);
      WalkPrefix(w, f, anchor, root, d, a[1..], r, links);
    } else {
      WalkEnters(w, f, anchor, root, d, a, r, links);
      assert Split(a) == [Word(a)] + Split(After(a));
      assert Split(a)[1..] == Split(After(a));
      WalkPrefix(w, f, anchor, root, w.child(d, Word(a)), After(a), r, links);
    }
  }

  lemma WalkEnters(w: World, f: Flags, anchor: nat, root: nat, d: nat, a: string, r: string, links: nat)
    requires links <= MAX_LINKS && !Confined(f) && Directories(w, d, Split(a)) && (r == [] || r[0] == '/')
    requires a != [] && a[0] != '/'
    ensures Walk(w, f, anchor, root, d, a + r, links) == Walk(w, f, anchor, root, w.child(d, Word(a)), After(a) + r, links)
  {
    var name, after := Word(a), After(a);
    assert a == name + after && a + r == name + (after + r);
    WordBefore(name, after + r);
    assert After(a + r) == after + r;
    assert Split(a) == [name] + Split(after);
    WalkStrips(w, f, anchor, root, w.child(d, name), after + r, links);
  }

  lemma WalkSkipsSlash(w: World, f: Flags, anchor: nat, root: nat, d: nat, s: string, links: nat)
    requires links <= MAX_LINKS && s != [] && s[0] == '/'
    ensures Walk(w, f, anchor, root, d, s, links) == Walk(w, f, anchor, root, d, s[1..], links)
  {
  }

  lemma {:induction false} StripTwice(s: string)
    ensures Strip(Strip(s)) == Strip(s)
  {
  }

  lemma WalkStrips(w: World, f: Flags, anchor: nat, root: nat, d: nat, s: string, links: nat)
    requires links <= MAX_LINKS
    ensures Walk(w, f, anchor, root, d, Strip(s), links) == Walk(w, f, anchor, root, d, s, links)
  {
    StripTwice(s);
  }

  /** p goes up from parent to parent. */
  ghost predicate Chain(w: World, p: seq<nat>)
  {
    p != [] && forall i | 0 <= i < |p| - 1 :: w.parent(p[i]) == Some(p[i + 1]) && p[i] != p[i + 1]
  }

  /** a is n or above it, within so many dentries. */
  ghost predicate Above(w: World, n: nat, a: nat, steps: nat)
  {
    exists p :: Chain(w, p) && p[0] == n && p[|p| - 1] == a && |p| <= steps
  }

  lemma {:induction false} ClimbsIff(w: World, n: nat, a: nat, steps: nat)
    ensures Climbs(w, n, a, steps) <==> Above(w, n, a, steps)
    decreases steps
  {
    if Climbs(w, n, a, steps) {
      ClimbsAbove(w, n, a, steps);
    }
    if Above(w, n, a, steps) {
      var p :| Chain(w, p) && p[0] == n && p[|p| - 1] == a && |p| <= steps;
      AboveClimbs(w, n, a, steps, p);
    }
  }

  lemma {:induction false} ClimbsAbove(w: World, n: nat, a: nat, steps: nat)
    requires Climbs(w, n, a, steps)
    ensures Above(w, n, a, steps)
    decreases steps
  {
    if n == a {
      assert Chain(w, [n]);
    } else {
      var up := w.parent(n).value;
      ClimbsAbove(w, up, a, steps - 1);
      var p :| Chain(w, p) && p[0] == up && p[|p| - 1] == a && |p| <= steps - 1;
      assert Chain(w, [n] + p);
    }
  }

  lemma {:induction false} AboveClimbs(w: World, n: nat, a: nat, steps: nat, p: seq<nat>)
    requires Chain(w, p) && p[0] == n && p[|p| - 1] == a && |p| <= steps
    ensures Climbs(w, n, a, steps)
    decreases steps
  {
    if n != a {
      assert w.parent(p[0]) == Some(p[1]);
      assert Chain(w, p[1..]);
      AboveClimbs(w, p[1], a, steps - 1, p[1..]);
    }
  }

  /** The walk is held back at a dentry that does not hang below the fence. */
  ghost predicate Outside(w: World, f: Flags, anchor: nat, root: nat, d: nat)
  {
    (f.beneath || f.inRoot) && !Above(w, d, if f.beneath then anchor else root, CLIMB_LIMIT)
  }

  lemma EscapesIff(w: World, f: Flags, anchor: nat, root: nat, d: nat)
    ensures Escapes(w, f, anchor, root, d) <==> Outside(w, f, anchor, root, d)
  {
    ClimbsIff(w, d, Fence(f, anchor, root), CLIMB_LIMIT);
  }

  /** A component and what follows it. */
  predicate Component(name: string, r: string)
  {
    Plain(name) && (r == [] || r[0] == '/')
  }

  lemma ReadsComponent(name: string, r: string)
    requires Component(name, r)
    ensures Strip(name + r) == name + r && Word(name + r) == name && After(name + r) == r
  {
    WordBefore(name, r);
  }

  /** Slashes alone are the directory itself. */
  lemma {:induction false} WalkSlashes(w: World, f: Flags, anchor: nat, root: nat, d: nat, s: string, links: nat)
    requires links <= MAX_LINKS && forall i | 0 <= i < |s| :: s[i] == '/'
    ensures Walk(w, f, anchor, root, d, s, links) == Found(d)
  {
    if s != [] {
      WalkSlashes(w, f, anchor, root, d, s[1..], links);
      WalkSkipsSlash(w, f, anchor, root, d, s, links);
    }
  }

  /** A component is looked up in directories only, and up to the length of a name. */
  lemma WalkStuck(w: World, f: Flags, anchor: nat, root: nat, d: nat, name: string, r: string, links: nat)
    requires links <= MAX_LINKS && Component(name, r) && (w.kind(d) != Dir || |name| > NAME_MAX)
    ensures Walk(w, f, anchor, root, d, name + r, links)
            == if w.kind(d) == Absent then ENOENT else if w.kind(d) != Dir then ENOTDIR else Result.ENAMETOOLONG
  {
    ReadsComponent(name, r);
  }

  /** "." is the directory itself; ".." is its parent, the root is its own, and a confined
      walk does not go above its fence. */
  lemma WalkDots(w: World, f: Flags, anchor: nat, root: nat, d: nat, r: string, links: nat)
    requires links <= MAX_LINKS && (r == [] || r[0] == '/') && w.kind(d) == Dir
    ensures Walk(w, f, anchor, root, d, "." + r, links) == Walk(w, f, anchor, root, d, r, links)
    ensures var up := if d == root || w.parent(d).None? then d else w.parent(d).value;
            Walk(w, f, anchor, root, d, ".." + r, links)
            == if (f.beneath && d == anchor) || Outside(w, f, anchor, root, up) then EXDEV
               else Walk(w, f, anchor, root, up, r, links)
  {
    ReadsComponent(".", r);
    ReadsComponent("..", r);
    WalkStrips(w, f, anchor, root, d, r, links);
    var up := if d == root || w.parent(d).None? then d else w.parent(d).value;
    EscapesIff(w, f, anchor, root, up);
    WalkStrips(w, f, anchor, root, up, r, links);
  }

  /** A name that is to be looked up. */
  predicate Lookable(w: World, d: nat, name: string, r: string)
  {
    Component(name, r) && w.kind(d) == Dir && |name| <= NAME_MAX && name != "." && name != ".."
  }

  /** What is found under a name: nothing, a directory, or a file, which ends the path. */
  lemma WalkMeetsName(w: World, f: Flags, anchor: nat, root: nat, d: nat, name: string, r: string, links: nat)
    requires links <= MAX_LINKS && Lookable(w, d, name, r)
    ensures var n := w.child(d, name);
            var a := Walk(w, f, anchor, root, d, name + r, links);
            && (w.kind(n) == Absent ==> a == if r == [] then Missing(n) else ENOENT)
            && (w.kind(n) != Absent && Outside(w, f, anchor, root, n) ==> a == EXDEV)
            && (w.kind(n) == Dir && !Outside(w, f, anchor, root, n) ==> a == Walk(w, f, anchor, root, n, r, links))
            && (w.kind(n) == File && !Outside(w, f, anchor, root, n) ==> a == if r == [] then Found(n) else ENOTDIR)
  {
    ReadsComponent(name, r);
    EscapesIff(w, f, anchor, root, w.child(d, name));
    WalkStrips(w, f, anchor, root, w.child(d, name), r, links);
  }

  /** What a link can be refused for, in order. */
  lemma WalkRefusesLink(w: World, f: Flags, anchor: nat, root: nat, d: nat, name: string, r: string, links: nat)
    requires links <= MAX_LINKS && Lookable(w, d, name, r)
    requires w.kind(w.child(d, name)) == Link && !Outside(w, f, anchor, root, w.child(d, name))
    ensures var l := w.child(d, name);
            var a := Walk(w, f, anchor, root, d, name + r, links);
            if r == [] && f.noFollow then a == Found(l)
            else if f.noSymlinks || links == MAX_LINKS then a == ELOOP
            else if w.magic(l) && (f.noMagic || f.beneath || f.inRoot) then a == ELOOP
            else if w.denied(d, l) then a == EACCES
            else if w.text(l).None? then a == Result.EINVAL
            else
              var text := w.text(l).value;
              if text == [] then a == ENOENT
              else if |text| >= PENDING - 1 then a == Result.ENAMETOOLONG
              else if text[0] == '/' && f.beneath then a == EXDEV
              else |text| + (if r == [] then 0 else 1 + |Strip(r)|) >= PENDING ==> a == Result.ENAMETOOLONG
  {
    ReadsComponent(name, r);
    EscapesIff(w, f, anchor, root, w.child(d, name));
  }

  /** The link is one the walk goes through: its last component may be followed, and nothing
      stands against it. */
  predicate Follows(w: World, f: Flags, d: nat, name: string, r: string, links: nat)
  {
    var l := w.child(d, name);
    && links < MAX_LINKS && Lookable(w, d, name, r) && !(f.beneath || f.inRoot) && !f.noSymlinks
    && (r == [] ==> !f.noFollow)
    && w.kind(l) == Link && !(w.magic(l) && f.noMagic) && !w.denied(d, l) && w.text(l).Some?
    && w.text(l).value != [] && |w.text(l).value| < PENDING - 1
    && |w.text(l).value| + (if r == [] then 0 else 1 + |Strip(r)|) < PENDING
  }

  /** Meeting a link, also as the last component, the walk goes on with its text in front of
      what is left, from the root if the text is absolute. */
  lemma WalkMeetsLink(w: World, f: Flags, anchor: nat, root: nat, d: nat, name: string, r: string, links: nat)
    requires Follows(w, f, d, name, r, links)
    ensures var text := w.text(w.child(d, name)).value;
            Walk(w, f, anchor, root, d, name + r, links)
            == Walk(w, f, anchor, root, if text[0] == '/' then root else d,
                    text + if r == [] then "" else "/" + Strip(r), links + 1)
  {
    ReadsComponent(name, r);
    var text := w.text(w.child(d, name)).value;
    assert Rewrite(text, r) == text + if r == [] then "" else "/" + Strip(r);
  }

  /** Walking a link's text and then what was left is going on from where the text leads. */
  lemma WalkText(w: World, f: Flags, anchor: nat, root: nat, from: nat, text: string, r: string, links: nat)
    requires links <= MAX_LINKS && !Confined(f) && Directories(w, from, Split(text)) && (r == [] || r[0] == '/')
    ensures Walk(w, f, anchor, root, from, text + if r == [] then "" else "/" + Strip(r), links)
            == Walk(w, f, anchor, root, Descend(w, from, Split(text)), r, links)
  {
    var to := Descend(w, from, Split(text));
    if r == [] {
      WalkPrefix(w, f, anchor, root, from, text, "", links);
    } else {
      var rest := "/" + Strip(r);
      WalkPrefix(w, f, anchor, root, from, text, rest, links);
      WalkSlashed(w, f, anchor, root, to, r, rest, links);
    }
  }

  lemma WalkSlashed(w: World, f: Flags, anchor: nat, root: nat, d: nat, r: string, rest: string, links: nat)
    requires links <= MAX_LINKS && rest == "/" + Strip(r)
    ensures Walk(w, f, anchor, root, d, rest, links) == Walk(w, f, anchor, root, d, r, links)
  {
    assert rest[1..] == Strip(r);
    WalkSkipsSlash(w, f, anchor, root, d, rest, links);
    WalkStrips(w, f, anchor, root, d, r, links);
  }

  /** A symbolic link stands for what its text names: going on through the link is going on
      from the directory that the text leads to, from the root if the text is absolute. A
      path that ends with the link is found there. */
  lemma LinkStandsForText(w: World, f: Flags, anchor: nat, root: nat, d: nat, name: string, r: string, links: nat)
    requires Follows(w, f, d, name, r, links)
    requires var text := w.text(w.child(d, name)).value;
             Directories(w, if text[0] == '/' then root else d, Split(text))
    ensures var text := w.text(w.child(d, name)).value;
            var to := Descend(w, if text[0] == '/' then root else d, Split(text));
            && Walk(w, f, anchor, root, d, name + r, links) == Walk(w, f, anchor, root, to, r, links + 1)
            && (r == [] ==> Walk(w, f, anchor, root, d, name, links) == Found(to))
  {
    var text := w.text(w.child(d, name)).value;
    var from := if text[0] == '/' then root else d;
    WalkMeetsLink(w, f, anchor, root, d, name, r, links);
    WalkText(w, f, anchor, root, from, text, r, links + 1);
    if r == [] {
      assert name + r == name;
    }
  }

  // ------------------------------------------------------- the walk and vfs_resolve_path

  /** The lexical resolution of the components from this stack stays among directories. */
  ghost predicate Along(w: World, root: nat, st: seq<string>, cs: seq<string>)
    decreases |cs|
  {
    && w.kind(Descend(w, root, st)) == Dir
    && (cs != [] ==> |cs[0]| <= NAME_MAX && Push(st, cs[0]).Some? && Along(w, root, Push(st, cs[0]).value, cs[1..]))
  }

  /** The root does not lie below itself. */
  ghost predicate RootOnTop(w: World, root: nat)
  {
    forall st | st != [] :: Descend(w, root, st) != root
  }

  lemma {:induction false} DescendInto(w: World, d: nat, st: seq<string>, name: string)
    ensures Descend(w, d, st + [name]) == w.child(Descend(w, d, st), name)
    decreases |st|
  {
    if st == [] {
      assert st + [name] == [name];
      assert Descend(w, w.child(d, name), [name][1..]) == w.child(d, name);
    } else {
      assert (st + [name])[1..] == st[1..] + [name];
      DescendInto(w, w.child(d, st[0]), st[1..], name);
    }
  }

  /** The parent of where a stack of names leads is where the shorter stack leads. */
  lemma DescendUp(w: World, root: nat, st: seq<string>)
    requires WorldOk(w) && RootOnTop(w, root) && st != []
    ensures Descend(w, root, st) != root && w.parent(Descend(w, root, st)) == Some(Descend(w, root, st[..|st| - 1]))
  {
    assert st == st[..|st| - 1] + [st[|st| - 1]];
    DescendInto(w, root, st[..|st| - 1], st[|st| - 1]);
  }

  /** One component of the walk is one step of the lexical resolution. */
  lemma WalkPushes(w: World, f: Flags, anchor: nat, root: nat, st: seq<string>, name: string, r: string, links: nat)
    requires links <= MAX_LINKS && !Confined(f) && WorldOk(w) && RootOnTop(w, root) && Component(name, r)
    requires |name| <= NAME_MAX && w.kind(Descend(w, root, st)) == Dir
    requires Push(st, name).Some? && w.kind(Descend(w, root, Push(st, name).value)) == Dir
    ensures Walk(w, f, anchor, root, Descend(w, root, st), name + r, links)
            == Walk(w, f, anchor, root, Descend(w, root, Push(st, name).value), r, links)
  {
    var d := Descend(w, root, st);
    if name == "." || name == ".." {
      WalkDots(w, f, anchor, root, d, r, links);
      if name == ".." && st != [] {
        DescendUp(w, root, st);
      }
    } else {
      DescendInto(w, root, st, name);
      WalkMeetsName(w, f, anchor, root, d, name, r, links);
    }
  }

  /** On directories without links, walking a path with its "." and ".." component by
      component arrives where the lexical resolution of vfs_resolve_path says. */
  lemma {:induction false} WalkIsResolution(w: World, f: Flags, anchor: nat, root: nat, st: seq<string>, rest: string, links: nat)
    requires links <= MAX_LINKS && !Confined(f) && WorldOk(w) && RootOnTop(w, root) && Along(w, root, st, Split(rest))
    ensures Fold(st, Split(rest)).Some?
    ensures Walk(w, f, anchor, root, Descend(w, root, st), rest, links)
            == Found(Descend(w, root, Fold(st, Split(rest)).value))
    decreases |rest|
  {
    if rest == [] {
    } else if rest[0] == '/' {
      WalkSkipsSlash(w, f, anchor, root, Descend(w, root, st), rest, links);
      WalkIsResolution(w, f, anchor, root, st, rest[1..], links);
    } else {
      var name, after := Word(rest), After(rest);
      assert rest == name + after;
      SplitCons(rest);
      WalkPushes(w, f, anchor, root, st, name, after, links);
      WalkIsResolution(w, f, anchor, root, Push(st, name).value, after, links);
    }
  }

  lemma {:induction false} AlongFrom(w: World, root: nat, st: seq<string>, a: seq<string>, b: seq<string>)
    requires Along(w, root, st, a + b)
    ensures Fold(st, a).Some? && Along(w, root, Fold(st, a).value, b)
    decreases |a|
  {
    if a == [] {
      assert a + b == b;
    } else {
      assert (a + b)[1..] == a[1..] + b;
      AlongFrom(w, root, Push(st, a[0]).value, a[1..], b);
    }
  }

  /** openat2 from a working directory finds what the path resolved against its name stands
      for: the dentry under the components of the resolved path. */
  lemma WalkAtResolves(w: World, f: Flags, start: nat, root: nat, cwd: string, path: string, outLen: nat)
    returns (st: seq<string>)
    requires !Confined(f) && WorldOk(w) && RootOnTop(w, root) && path != [] && |path| < PENDING
    requires Resolve(cwd, path, outLen).Path? && Along(w, root, [], Components(cwd, path))
    requires path[0] != '/' ==> Fold([], Split(cwd)).Some? && start == Descend(w, root, Fold([], Split(cwd)).value)
    ensures Canonical(st) && Stripped(Resolve(cwd, path, outLen).s) == Join(st)
    ensures WalkAt(w, f, start, root, path) == Found(Descend(w, root, st))
  {
    st := MountPathForm(cwd, path, outLen);
    if path[0] == '/' {
      assert Components(cwd, path) == Split(path);
      WalkIsResolution(w, f, start, root, [], path, 0);
    } else {
      AlongFrom(w, root, [], Split(cwd), Split(path));
      FoldConcat([], Split(cwd), Split(path));
      WalkIsResolution(w, f, start, root, Fold([], Split(cwd)).value, path, 0);
    }
  }

  lemma SplitCons(rest: string)
    requires rest != [] && rest[0] != '/'
    ensures Component(Word(rest), After(rest)) && |After(rest)| < |rest|
    ensures Split(rest) == [Word(rest)] + Split(After(rest))
    ensures Split(rest)[0] == Word(rest) && Split(rest)[1..] == Split(After(rest))
  {
  }

  // ------------------------------------------------------------------- the loop itself

  method StripSlashes(s: string) returns (t: string)
    ensures t == Strip(s)
  {
    t := s;
    while t != [] && t[0] == '/'
      invariant Strip(t) == Strip(s)
    {
      t := t[1..];
    }
  }

  /** The next component, unless it is too long, and the text behind it. */
  method NextComponent(text: string) returns (name: Option<string>, rest: string)
    requires text != [] && text[0] != '/'
    ensures name.None? <==> |Word(text)| > NAME_MAX
    ensures name.Some? ==> name.value == Word(text) && rest == After(text)
  {
    var n := 0;
    while n < |text| && text[n] != '/'
      invariant 0 <= n <= |text| && n <= NAME_MAX && '/' !in text[..n]
    {
      if n == NAME_MAX {
        LongWord(text, n);
        return None, text;
      }
      n := n + 1;
    }
    assert text == text[..n] + text[n..];
    WordBefore(text[..n], text[n..]);
    return Some(text[..n]), text[n..];
  }

  lemma {:induction false} LongWord(text: string, n: nat)
    requires n < |text| && '/' !in text[..n] && text[n] != '/'
    ensures |Word(text)| > n
  {
    if n > 0 {
      assert text[0] in text[..n];
      assert text[1..][..n - 1] == text[..n][1..];
      LongWord(text[1..], n - 1);
    }
  }

  /** One round of the loop of vfs_walk_at. */
  method WalkComponent(w: World, f: Flags, anchor: nat, root: nat, curr: nat, text: string, links: nat) returns (s: Step)
    requires text != [] && text[0] != '/'
    ensures s == Round(w, f, anchor, root, curr, text, links)
  {
    if w.kind(curr) == Absent {
      return Stop(ENOENT);
    }
    if w.kind(curr) != Dir {
      return Stop(ENOTDIR);
    }
    var name, rest := NextComponent(text);
    if name.None? {
      return Stop(Result.ENAMETOOLONG);
    }
    var left := StripSlashes(rest);
    if name.value == "." {
      return Go(curr, left, false);
    }
    if name.value == ".." {
      s := WalkParent(w, f, anchor, root, curr, left);
      assert s == ParentStep(w, f, anchor, root, curr, rest);
      return;
    }
    var next := w.child(curr, name.value);
    if w.kind(next) == Absent {
      return if rest != [] then Stop(ENOENT) else Stop(Missing(next));
    }
    if Confined(f) && !Climbs(w, next, Fence(f, anchor, root), CLIMB_LIMIT) {
      return Stop(EXDEV);
    }
    if w.kind(next) == Link {
      s := WalkLink(w, f, root, curr, next, rest, left, links);
      return;
    }
    if rest != [] && w.kind(next) != Dir {
      return Stop(ENOTDIR);
    }
    s := Go(next, left, false);
  }

  /** "..": the root is its own parent. */
  method WalkParent(w: World, f: Flags, anchor: nat, root: nat, curr: nat, left: string) returns (s: Step)
    ensures s == if curr == anchor && f.beneath then Stop(EXDEV)
                 else
                   var up := if curr != root && w.parent(curr).Some? then w.parent(curr).value else curr;
                   if Escapes(w, f, anchor, root, up) then Stop(EXDEV) else Go(up, left, false)
  {
    if curr == anchor && f.beneath {
      return Stop(EXDEV);
    }
    var up := curr;
    if curr != root && w.parent(curr).Some? {
      up := w.parent(curr).value;
    }
    if Confined(f) && !Climbs(w, up, Fence(f, anchor, root), CLIMB_LIMIT) {
      return Stop(EXDEV);
    }
    s := Go(up, left, false);
  }

  /** A symbolic link: its text goes in front of what is left. */
  method WalkLink(w: World, f: Flags, root: nat, curr: nat, next: nat, rest: string, left: string, links: nat)
    returns (s: Step)
    requires left == Strip(rest)
    ensures s == LinkStep(w, f, root, curr, next, rest, links)
  {
    if rest == [] && f.noFollow {
      return Stop(Found(next));
    }
    if f.noSymlinks || (w.magic(next) && (f.noMagic || Confined(f))) {
      return Stop(ELOOP);
    }
    if links + 1 > MAX_LINKS {
      return Stop(ELOOP);
    }
    if w.denied(curr, next) {
      return Stop(EACCES);
    }
    var target := w.text(next);
    if target.None? {
      return Stop(Result.EINVAL);
    }
    if target.value == [] {
      return Stop(ENOENT);
    }
    if |target.value| >= PENDING - 1 {
      return Stop(Result.ENAMETOOLONG);
    }
    var from := curr;
    if target.value[0] == '/' {
      if f.beneath {
        return Stop(EXDEV);
      }
      from := root;
    }
    var rewritten := target.value + (if rest != [] then "/" else "") + left;
    if |rewritten| >= PENDING {
      return Stop(Result.ENAMETOOLONG);
    }
    s := Go(from, rewritten, true);
  }

  /** vfs_walk_at as the loop it is. */
  method WalkLoop(w: World, f: Flags, start: nat, root: nat, path: string) returns (r: Result)
    ensures r == WalkAt(w, f, start, root, path)
  {
    if |path| >= PENDING {
      return Result.ENAMETOOLONG;
    }
    if path == [] {
      return ENOENT;
    }
    if path[0] == '/' && f.beneath {
      return EXDEV;
    }
    r := WalkRounds(w, f, start, root, if path[0] == '/' then root else start, path);
  }

  method WalkRounds(w: World, f: Flags, anchor: nat, root: nat, from: nat, path: string) returns (r: Result)
    ensures r == Walk(w, f, anchor, root, from, path, 0)
  {
    var curr, rest, links := from, path, 0;
    while true
      invariant 0 <= links <= MAX_LINKS
      invariant Walk(w, f, anchor, root, curr, rest, links) == Walk(w, f, anchor, root, from, path, 0)
      decreases MAX_LINKS - links, |rest|
    {
      var text := StripSlashes(rest);
      if text == [] {
        return Found(curr);
      }
      var s := WalkComponent(w, f, anchor, root, curr, text, links);
      match s
      case Stop(answer) =>
        return answer;
      case Go(d, more, followed) =>
        curr, rest, links := d, more, if followed then links + 1 else links;
    }
  }
}
