/**
 Path strings of fs/vfs.c and fs/namespace.c: vfs_resolve_path as a fold of components over
 a stack, and containment of mount points as a prefix of components.
 */
module PathResolve {
  import opened Machine

  const MAX_COMPS: nat := 32
  const MAX_COMP_LEN: nat := 63

  // ------------------------------------------------------------------- components

  /** The characters before the first slash. */
  function Word(s: string): (w: string)
    ensures |w| <= |s| && '/' !in w && w <= s
    ensures |w| < |s| ==> s[|w|] == '/'
  {
    if s == [] || s[0] == '/' then [] else [s[0]] + Word(s[1..])
  }

  /** The components of a path. */
  function Split(s: string): (cs: seq<string>)
    ensures forall c | c in cs :: c != [] && '/' !in c
    decreases |s|
  {
    if s == [] then []
    else if s[0] == '/' then Split(s[1..])
    else [Word(s)] + Split(s[|Word(s)|..])
  }

  /** Each component takes a character and the slash before it. */
  lemma {:induction false} ComponentsFit(s: string)
    ensures 2 * |Split(s)| <= |s| + 1
    decreases |s|
  {
    if s != [] {
      if s[0] == '/' {
        ComponentsFit(s[1..]);
      } else {
        var rest := s[|Word(s)|..];
        if rest == [] {
          assert Split(s) == [Word(s)];
        } else {
          assert Split(rest) == Split(rest[1..]);
          ComponentsFit(rest[1..]);
        }
      }
    }
  }

  /** The path of a stack of components, without the slash that stands for the root. */
  function Tail(cs: seq<string>): string
  {
    if cs == [] then [] else "/" + cs[0] + Tail(cs[1..])
  }

  function Join(cs: seq<string>): string
  {
    if cs == [] then "/" else Tail(cs)
  }

  predicate Plain(c: string)
  {
    c != [] && '/' !in c
  }

  lemma {:induction false} WordBefore(w: string, r: string)
    requires '/' !in w && (r == [] || r[0] == '/')
    ensures Word(w + r) == w
  {
    if w == [] {
      assert w + r == r;
    } else {
      assert (w + r)[1..] == w[1..] + r;
      WordBefore(w[1..], r);
      assert w == [w[0]] + w[1..];
    }
  }

  /** A path followed by nothing or by a slash has its components first. */
  lemma {:induction false} SplitConcat(s: string, r: string)
    requires r == [] || r[0] == '/'
    ensures Split(s + r) == Split(s) + Split(r)
    decreases |s|
  {
    if s == [] {
      assert s + r == r;
    } else if s[0] == '/' {
      assert (s + r)[1..] == s[1..] + r;
      SplitConcat(s[1..], r);
    } else {
      var w := Word(s);
      var rest := s[|w|..];
      assert s == w + rest && s + r == w + (rest + r);
      WordBefore(w, rest + r);
      assert (s + r)[|w|..] == rest + r;
      SplitConcat(rest, r);
    }
  }

  lemma SplitOne(c: string)
    requires Plain(c)
    ensures Split("/" + c) == [c]
  {
    assert ("/" + c)[1..] == c;
    WordBefore(c, []);
    assert c + [] == c && c[|c|..] == [];
    assert Split(c) == [Word(c)] + Split(c[|Word(c)|..]);
  }

  lemma {:induction false} SplitTail(cs: seq<string>)
    requires forall c | c in cs :: Plain(c)
    ensures Split(Tail(cs)) == cs
  {
    if cs != [] {
      assert forall c | c in cs[1..] :: Plain(c);
      SplitTail(cs[1..]);
      SplitOne(cs[0]);
      SplitConcat("/" + cs[0], Tail(cs[1..]));
    }
  }

  /** Joining and splitting are inverse. */
  lemma SplitJoin(cs: seq<string>)
    requires forall c | c in cs :: Plain(c)
    ensures Split(Join(cs)) == cs && Split(Join(cs) + "/") == cs
  {
    SplitTail(cs);
    SplitConcat(Join(cs), "/");
    assert Split("/") == Split("");
  }

  lemma {:induction false} TailConcat(a: seq<string>, b: seq<string>)
    ensures Tail(a + b) == Tail(a) + Tail(b)
  {
    if a == [] {
      assert a + b == b;
    } else {
      assert (a + b)[1..] == a[1..] + b;
      TailConcat(a[1..], b);
    }
  }

  // ------------------------------------------------------------------------- the fold

  /** One component on the stack of components; None where it does not fit. */
  function Push(st: seq<string>, c: string): Option<seq<string>>
  {
    if c == "." then Some(st)
    else if c == ".." then Some(if st == [] then st else st[..|st| - 1])
    else if |c| > MAX_COMP_LEN || |st| >= MAX_COMPS then None
    else Some(st + [c])
  }

  function Fold(st: seq<string>, cs: seq<string>): Option<seq<string>>
    decreases |cs|
  {
    if cs == [] then Some(st)
    else
      var st' := Push(st, cs[0]);
      if st'.None? then None else Fold(st'.value, cs[1..])
  }

  /** A stack that resolution can end with. */
  predicate Canonical(st: seq<string>)
  {
    |st| <= MAX_COMPS && forall c | c in st :: Plain(c) && c != "." && c != ".." && |c| <= MAX_COMP_LEN
  }

  lemma {:induction false} FoldCanonical(st: seq<string>, cs: seq<string>)
    requires Canonical(st) && (forall c | c in cs :: Plain(c)) && Fold(st, cs).Some?
    ensures Canonical(Fold(st, cs).value)
    decreases |cs|
  {
    if cs != [] {
      var st' := Push(st, cs[0]).value;
      assert Canonical(st') by {
        assert Plain(cs[0]);
        assert forall c | c in st' :: c in st || c == cs[0];
      }
      assert forall c | c in cs[1..] :: Plain(c);
      FoldCanonical(st', cs[1..]);
    }
  }

  /** Canonical components fold to themselves. */
  lemma {:induction false} FoldSelf(st: seq<string>, cs: seq<string>)
    requires Canonical(st + cs)
    ensures Fold(st, cs) == Some(st + cs)
    decreases |cs|
  {
    if cs == [] {
      assert st + cs == st;
    } else {
      assert cs[0] in st + cs;
      assert st + cs == (st + [cs[0]]) + cs[1..];
      FoldSelf(st + [cs[0]], cs[1..]);
    }
  }

  lemma {:induction false} FoldConcat(st: seq<string>, a: seq<string>, b: seq<string>)
    ensures Fold(st, a + b) == if Fold(st, a).None? then None else Fold(Fold(st, a).value, b)
    decreases |a|
  {
    if a == [] {
      assert a + b == b;
    } else {
      assert (a + b)[1..] == a[1..] + b;
      if Push(st, a[0]).Some? {
        FoldConcat(Push(st, a[0]).value, a[1..], b);
      }
    }
  }

  // ------------------------------------------------------------------------ resolution

  datatype Resolved = Path(s: string) | EINVAL | ENAMETOOLONG

  /** The components vfs_resolve_path goes through: those of the working directory first
      for a relative path. */
  function Components(cwd: string, path: string): seq<string>
  {
    (if path != [] && path[0] == '/' then [] else Split(cwd)) + Split(path)
  }

  predicate KeepsSlash(path: string, out: string, outLen: nat)
  {
    path != [] && path[|path| - 1] == '/' && |out| > 1 && |out| + 1 < outLen
  }

  /** What vfs_resolve_path returns. */
  function Resolve(cwd: string, path: string, outLen: nat): Resolved
  {
    if outLen < 2 then EINVAL
    else
      var st := Fold([], Components(cwd, path));
      if st.None? then ENAMETOOLONG
      else if st.value != [] && |Join(st.value)| >= outLen then ENAMETOOLONG
      else
        var out := Join(st.value);
        Path(if KeepsSlash(path, out, outLen) then out + "/" else out)
  }

  lemma ComponentsPlain(cwd: string, path: string)
    ensures forall c | c in Components(cwd, path) :: Plain(c)
  {
  }

  /** A result is the path of a canonical stack, perhaps with one trailing slash. */
  lemma ResolvedForm(cwd: string, path: string, outLen: nat) returns (st: seq<string>)
    requires Resolve(cwd, path, outLen).Path?
    ensures Canonical(st) && Fold([], Components(cwd, path)) == Some(st)
    ensures var s := Resolve(cwd, path, outLen).s;
            |s| < outLen && (s == Join(st) || (st != [] && s == Join(st) + "/"))
  {
    ComponentsPlain(cwd, path);
    FoldCanonical([], Components(cwd, path));
    st := Fold([], Components(cwd, path)).value;
  }

  /** Resolving a result again, from anywhere, gives it back. */
  lemma ResolveIdempotent(cwd: string, path: string, outLen: nat, cwd': string)
    requires Resolve(cwd, path, outLen).Path?
    ensures Resolve(cwd', Resolve(cwd, path, outLen).s, outLen) == Resolve(cwd, path, outLen)
  {
    var s := Resolve(cwd, path, outLen).s;
    var st := ResolvedForm(cwd, path, outLen);
    SplitJoin(st);
    JoinAbsolute(st);
    assert Components(cwd', s) == [] + st;
    assert [] + st == st;
    FoldSelf([], st);
    LastNotSlash(st);
  }

  lemma JoinAbsolute(st: seq<string>)
    ensures Join(st) != [] && Join(st)[0] == '/'
  {
  }

  lemma {:induction false} LastNotSlash(st: seq<string>)
    requires st != [] ==> Plain(st[|st| - 1])
    ensures st != [] ==> |Tail(st)| > 1 && Tail(st)[|Tail(st)| - 1] != '/'
  {
    if |st| > 1 {
      LastNotSlash(st[1..]);
    } else if |st| == 1 {
      assert Tail(st[1..]) == [];
    }
  }

  /** The trailing slash is the one thing that is dropped and not refused: exactly if it is
      there, the result is not the root, and the buffer has no room for it. */
  lemma SlashDroppedIff(cwd: string, path: string, outLen: nat)
    requires Resolve(cwd, path, outLen).Path? && path != [] && path[|path| - 1] == '/'
    ensures var st := Fold([], Components(cwd, path)).value;
            Resolve(cwd, path, outLen).s != Join(st) + "/" <==> st == [] || |Join(st)| + 1 >= outLen
  {
    var st := ResolvedForm(cwd, path, outLen);
    LastNotSlash(st);
  }

  /** Resolving the path of a canonical stack with a slash behind it. */
  lemma ResolveSlashed(cwd: string, st: seq<string>, outLen: nat)
    requires Canonical(st) && st != [] && |Join(st)| < outLen
    ensures Resolve(cwd, Join(st) + "/", outLen) == Path(if |Join(st)| + 1 < outLen then Join(st) + "/" else Join(st))
  {
    FoldSlashed(cwd, st);
    LastNotSlash(st);
  }

  lemma FoldSlashed(cwd: string, st: seq<string>)
    requires Canonical(st)
    ensures Fold([], Components(cwd, Join(st) + "/")) == Some(st)
  {
    SplitJoin(st);
    JoinAbsolute(st);
    assert Components(cwd, Join(st) + "/") == [] + st;
    assert [] + st == st;
    FoldSelf([], st);
  }

  function Named(n: nat): (c: string)
    ensures |c| == n && forall i | 0 <= i < n :: c[i] == 'a'
  {
    seq(n, _ => 'a')
  }

  /** Four names with 255 characters in all, slashes included. */
  function FourNames(): seq<string>
  {
    [Named(63), Named(63), Named(63), Named(62)]
  }

  lemma FourNamesLength()
    ensures Canonical(FourNames()) && |Join(FourNames())| == 255
  {
    var st := FourNames();
    assert st[1..] == [Named(63), Named(63), Named(62)] && st[1..][1..] == [Named(63), Named(62)];
    assert [Named(63), Named(62)][1..] == [Named(62)] && [Named(62)][1..] == [];
    assert Tail([Named(62)]) == "/" + Named(62) + Tail([]);
  }

  /** With the 256 bytes of a mount table path the slash is dropped; with 512 it stays. */
  lemma SlashDroppedExample()
    ensures var p := Join(FourNames());
            Resolve("/", p + "/", 256) == Path(p) && Resolve("/", p + "/", 512) == Path(p + "/")
  {
    FourNamesLength();
    ResolveSlashed("/", FourNames(), 256);
    ResolveSlashed("/", FourNames(), 512);
  }

  // ------------------------------------------------------------- resolution, step by step

  /** Add the components of a string to the stack, scanning it once. */
  method AddComponents(st0: seq<string>, s: string) returns (ok: bool, st: seq<string>)
    ensures ok <==> Fold(st0, Split(s)).Some?
    ensures ok ==> st == Fold(st0, Split(s)).value
  {
    st := st0;
    var i := 0;
    while i < |s|
      invariant 0 <= i <= |s|
      invariant Fold(st0, Split(s)) == Fold(st, Split(s[i..]))
      decreases |s| - i
    {
      if s[i] == '/' {
        assert s[i..][1..] == s[i + 1..];
        i := i + 1;
      } else {
        var w := ScanWord(s, i);
        assert s[i..][|w|..] == s[i + |w|..];
        var next := Push(st, w);
        if next.None? {
          return false, st;
        }
        st, i := next.value, i + |w|;
      }
    }
    ok := true;
  }

  /** The inner loop that finds the end of a component. */
  method ScanWord(s: string, i: nat) returns (w: string)
    requires i < |s| && s[i] != '/'
    ensures w == Word(s[i..]) && |w| > 0 && i + |w| <= |s|
  {
    var j := i;
    while j < |s| && s[j] != '/'
      invariant i <= j <= |s|
      invariant '/' !in s[i..j]
    {
      j := j + 1;
    }
    w := s[i..j];
    assert s[i..] == w + s[j..];
    WordBefore(w, s[j..]);
  }

  /** vfs_resolve_path. */
  method ResolvePath(cwd: string, path: string, outLen: nat) returns (r: Resolved)
    ensures r == Resolve(cwd, path, outLen)
  {
    if outLen < 2 {
      return EINVAL;
    }
    var ok, st := true, [];
    FoldConcat([], if path != [] && path[0] == '/' then [] else Split(cwd), Split(path));
    if path == [] || path[0] != '/' {
      ok, st := AddComponents(st, if cwd == [] then "/" else cwd);
      assert Split("/") == Split("");
      if !ok {
        return ENAMETOOLONG;
      }
    }
    ok, st := AddComponents(st, path);
    if !ok {
      return ENAMETOOLONG;
    }
    if st == [] {
      return Path("/");
    }
    ComponentsPlain(cwd, path);
    FoldCanonical([], Components(cwd, path));
    var out;
    ok, out := WriteOut(st, outLen);
    if !ok {
      return ENAMETOOLONG;
    }
    if path != [] && path[|path| - 1] == '/' && |out| > 1 && |out| + 1 < outLen {
      out := out + "/";
    }
    r := Path(out);
  }

  /** The output loop with its two overflow checks. */
  method WriteOut(st: seq<string>, outLen: nat) returns (ok: bool, out: string)
    requires st != [] && forall c | c in st :: c != []
    ensures ok <==> |Join(st)| < outLen
    ensures ok ==> out == Join(st)
  {
    out := [];
    var i := 0;
    while i < |st|
      invariant 0 <= i <= |st| && out == Tail(st[..i])
      invariant i > 0 ==> |out| < outLen
    {
      assert st[i] in st;
      TailStep(st, i);
      if |out| + 1 >= outLen {
        return false, out;
      }
      out := out + "/";
      if |out| + |st[i]| >= outLen {
        return false, out;
      }
      out := out + st[i];
      i := i + 1;
    }
    assert st[..i] == st;
    ok := true;
  }

  lemma TailStep(st: seq<string>, i: nat)
    requires i < |st| && st[i] != []
    ensures Tail(st[..i + 1]) == Tail(st[..i]) + "/" + st[i]
    ensures |Tail(st)| >= |Tail(st[..i])| + 1 + |st[i]|
  {
    assert st[..i + 1] == st[..i] + [st[i]];
    TailConcat(st[..i], [st[i]]);
    assert Tail([st[i]]) == "/" + st[i] + Tail([]);
    assert st == st[..i + 1] + st[i + 1..];
    TailConcat(st[..i + 1], st[i + 1..]);
  }

  // ---------------------------------------------------------------------- mount points

  /** path_under. */
  predicate PathUnder(mountpoint: string, path: string)
  {
    || mountpoint == "/"
    || (mountpoint <= path && (|path| == |mountpoint| || path[|mountpoint|] == '/'))
  }

  /** mnt_canon drops the slashes at the end, but for the root's. */
  function Stripped(s: string): string
  {
    if |s| > 1 && s[|s| - 1] == '/' then Stripped(s[..|s| - 1]) else s
  }

  /** Every path in the mount table is the join of its components. */
  lemma MountPathForm(cwd: string, path: string, outLen: nat) returns (st: seq<string>)
    requires Resolve(cwd, path, outLen).Path?
    ensures Canonical(st) && Fold([], Components(cwd, path)) == Some(st)
    ensures Stripped(Resolve(cwd, path, outLen).s) == Join(st)
  {
    st := ResolvedForm(cwd, path, outLen);
    if st != [] {
      LastNotSlash(st);
      assert Stripped(Join(st)) == Join(st);
      assert (Join(st) + "/")[..|Join(st)|] == Join(st);
    }
  }

  /** On canonical paths, being under a mount point is having its components first. */
  lemma UnderIsPrefix(a: seq<string>, b: seq<string>)
    requires Canonical(a) && Canonical(b)
    ensures PathUnder(Join(a), Join(b)) <==> a <= b
  {
    if a != [] {
      LastNotSlash(a);
      if a <= b {
        PrefixIsUnder(a, b);
      }
      if PathUnder(Join(a), Join(b)) {
        UnderHasPrefix(a, b);
      }
    }
  }

  lemma PrefixIsUnder(a: seq<string>, b: seq<string>)
    requires a != [] && a <= b
    ensures PathUnder(Join(a), Join(b))
  {
    var rest := b[|a|..];
    assert b == a + rest;
    TailConcat(a, rest);
    assert Tail(rest) == [] || Tail(rest)[0] == '/';
  }

  lemma UnderHasPrefix(a: seq<string>, b: seq<string>)
    requires Canonical(a) && Canonical(b) && a != [] && Join(a) != "/" && PathUnder(Join(a), Join(b))
    ensures a <= b
  {
    var rest := Join(b)[|Join(a)|..];
    assert Join(b) == Join(a) + rest;
    SplitConcat(Join(a), rest);
    SplitJoin(a);
    SplitJoin(b);
  }

  lemma LongerIsDeeper(a: seq<string>, b: seq<string>, p: seq<string>)
    requires Canonical(p) && a <= p && b <= p
    ensures |Join(a)| <= |Join(b)| <==> |a| <= |b|
  {
    if |a| <= |b| {
      PrefixLength(a, b);
    } else {
      PrefixLength(b, a);
    }
  }

  lemma PrefixLength(a: seq<string>, b: seq<string>)
    requires a <= b && forall c | c in b :: Plain(c)
    ensures |Join(a)| <= |Join(b)| && (a != b ==> |Join(a)| < |Join(b)|)
  {
    assert b == a + b[|a|..];
    TailConcat(a, b[|a|..]);
    if a != b {
      assert b[|a|] in b;
      assert Tail(b[|a|..]) == "/" + b[|a|] + Tail(b[|a|..][1..]);
    }
  }

  /** mnt_enclosing_locked: of the mounts that contain the path, one with the longest
      mount point, the first of them in the list. */
  method Enclosing(mounts: seq<string>, path: string) returns (best: Option<nat>)
    ensures best.None? ==> forall i | 0 <= i < |mounts| :: !PathUnder(mounts[i], path)
    ensures best.Some? ==>
              && best.value < |mounts| && PathUnder(mounts[best.value], path)
              && (forall i | 0 <= i < |mounts| && PathUnder(mounts[i], path) :: |mounts[i]| <= |mounts[best.value]|)
              && (forall i | 0 <= i < best.value && PathUnder(mounts[i], path) :: |mounts[i]| < |mounts[best.value]|)
  {
    best := None;
    var i := 0;
    while i < |mounts|
      invariant 0 <= i <= |mounts|
      invariant best.None? ==> forall j | 0 <= j < i :: !PathUnder(mounts[j], path)
      invariant best.Some? ==>
                  && best.value < i && PathUnder(mounts[best.value], path)
                  && (forall j | 0 <= j < i && PathUnder(mounts[j], path) :: |mounts[j]| <= |mounts[best.value]|)
                  && (forall j | 0 <= j < best.value && PathUnder(mounts[j], path) :: |mounts[j]| < |mounts[best.value]|)
    {
      if PathUnder(mounts[i], path) && (best.None? || |mounts[i]| > |mounts[best.value]|) {
        best := Some(i);
      }
      i := i + 1;
    }
  }

  /** The mount found is the deepest that contains the path, counted in components. */
  lemma EnclosingIsDeepest(stacks: seq<seq<string>>, p: seq<string>, best: nat, i: nat)
    requires Canonical(p) && (forall j | 0 <= j < |stacks| :: Canonical(stacks[j]))
    requires best < |stacks| && PathUnder(Join(stacks[best]), Join(p)) && i < |stacks| && PathUnder(Join(stacks[i]), Join(p))
    requires |Join(stacks[i])| <= |Join(stacks[best])|
    ensures stacks[best] <= p && stacks[i] <= stacks[best]
  {
    UnderIsPrefix(stacks[best], p);
    UnderIsPrefix(stacks[i], p);
    LongerIsDeeper(stacks[i], stacks[best], p);
  }
}
