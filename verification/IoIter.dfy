/**
 The scatter-gather copies of fs/io_iter.h. User memory is the finite map of the
 mapped bytes; a copy stops at the first unmapped address. Both copies are proved
 equal to a copy over the flat list of addresses the vector describes, so iovec
 boundaries are invisible to the callers in fs/pipe.c.
 */
module IoIter {
  import opened Machine

  datatype IoVec = IoVec(base: nat, len: nat)

  type UserMemory = map<nat, Byte>

  function Span(base: nat, len: nat): (a: seq<nat>)
    ensures |a| == len
  {
    seq(len, i requires 0 <= i => base + i)
  }

  /** All addresses of the vector, in order. */
  function Addresses(iov: seq<IoVec>): seq<nat>
  {
    if iov == [] then [] else Span(iov[0].base, iov[0].len) + Addresses(iov[1..])
  }

  /** At most `len` addresses, starting `offset` into the list. */
  function Window(a: seq<nat>, offset: nat, len: nat): seq<nat>
  {
    var rest := a[Min(offset, |a|)..];
    rest[..Min(len, |rest|)]
  }

  /** How many of the addresses are mapped before the first that is not. */
  function Reach(mem: UserMemory, a: seq<nat>): (n: nat)
    ensures n <= |a|
  {
    if a == [] || a[0] !in mem then 0 else 1 + Reach(mem, a[1..])
  }

  function Fetch(mem: UserMemory, a: seq<nat>): (bytes: seq<Byte>)
    ensures |bytes| == Reach(mem, a)
  {
    if a == [] || a[0] !in mem then [] else [mem[a[0]]] + Fetch(mem, a[1..])
  }

  /** Reach is the first gap, and Fetch reads the bytes before it. */
  lemma {:induction false} FetchedBytes(mem: UserMemory, a: seq<nat>)
    ensures var n := Reach(mem, a);
            && (forall i | 0 <= i < n :: a[i] in mem && Fetch(mem, a)[i] == mem[a[i]])
            && (n < |a| ==> a[n] !in mem)
  {
    if a != [] {
      FetchedBytes(mem, a[1..]);
    }
  }

  /** Write the bytes to the addresses one after the other, stopping at the first
      unmapped address. */
  function Scatter(mem: UserMemory, a: seq<nat>, bytes: seq<Byte>): (mem': UserMemory)
    requires |a| <= |bytes|
    ensures mem'.Keys == mem.Keys
    decreases |a|
  {
    if a == [] || a[0] !in mem then mem
    else
      var next := mem[a[0] := bytes[0]];
      assert next.Keys == mem.Keys;
      Scatter(next, a[1..], bytes[1..])
  }

  lemma {:induction false} ReachSplits(mem: UserMemory, a: seq<nat>, b: seq<nat>)
    ensures Reach(mem, a + b) == if Reach(mem, a) == |a| then |a| + Reach(mem, b) else Reach(mem, a)
    ensures Fetch(mem, a + b) == if Reach(mem, a) == |a| then Fetch(mem, a) + Fetch(mem, b) else Fetch(mem, a)
  {
    if a == [] {
      assert a + b == b;
    } else {
      assert (a + b)[1..] == a[1..] + b;
      ReachSplits(mem, a[1..], b);
    }
  }

  lemma {:induction false} ScatterSplits(mem: UserMemory, a: seq<nat>, b: seq<nat>, bytes: seq<Byte>)
    requires |a| + |b| <= |bytes|
    ensures Scatter(mem, a + b, bytes)
            == if Reach(mem, a) == |a| then Scatter(Scatter(mem, a, bytes), b, bytes[|a|..]) else Scatter(mem, a, bytes)
    decreases |a|
  {
    if a == [] {
      assert a + b == b && bytes[0..] == bytes;
    } else if a[0] in mem {
      assert (a + b)[1..] == a[1..] + b && bytes[1..][|a| - 1..] == bytes[|a|..];
      var next := mem[a[0] := bytes[0]];
      ReachByKeys(mem, next, a[1..]);
      ScatterSplits(next, a[1..], b, bytes[1..]);
    }
  }

  /** Scatter changes only the addresses it reached, and where an address occurs once
      it holds the byte at the same position afterwards. */
  lemma {:induction false} ScatterEffect(mem: UserMemory, a: seq<nat>, bytes: seq<Byte>, x: nat)
    requires |a| <= |bytes| && x in mem
    ensures x !in a[..Reach(mem, a)] ==> Scatter(mem, a, bytes)[x] == mem[x]
    ensures forall i | 0 <= i < Reach(mem, a) && a[i] == x && x !in a[i + 1..Reach(mem, a)] ::
              Scatter(mem, a, bytes)[x] == bytes[i]
    decreases |a|
  {
    if a != [] && a[0] in mem {
      var next := mem[a[0] := bytes[0]];
      ReachByKeys(mem, next, a[1..]);
      ScatterEffect(next, a[1..], bytes[1..], x);
      var n := Reach(mem, a);
      assert a[..n] == [a[0]] + a[1..][..n - 1];
      forall i | 0 <= i < n && a[i] == x && x !in a[i + 1..n]
        ensures Scatter(mem, a, bytes)[x] == bytes[i]
      {
        assert a[i + 1..n] == a[1..][i..n - 1];
      }
    }
  }

  lemma {:induction false} ReachByKeys(mem: UserMemory, mem': UserMemory, a: seq<nat>)
    requires mem.Keys == mem'.Keys
    ensures Reach(mem, a) == Reach(mem', a)
  {
    if a != [] {
      ReachByKeys(mem, mem', a[1..]);
    }
  }

  /** A segment that ends before the offset contributes nothing. */
  lemma WindowSkips(v: IoVec, rest: seq<nat>, offset: nat, len: nat)
    requires offset >= v.len
    ensures Window(Span(v.base, v.len) + rest, offset, len) == Window(rest, offset - v.len, len)
  {
    assert (Span(v.base, v.len) + rest)[Min(offset, v.len + |rest|)..] == rest[Min(offset - v.len, |rest|)..];
  }

  /** A segment reached by the offset contributes its tail, cut to the length asked for. */
  lemma WindowTakes(v: IoVec, rest: seq<nat>, offset: nat, len: nat)
    requires offset < v.len
    ensures var n := Min(v.len - offset, len);
            Window(Span(v.base, v.len) + rest, offset, len)
            == Span(v.base + offset, n) + Window(rest, 0, len - n)
  {
  }

  /** Gathering segment by segment. */
  function Gather(mem: UserMemory, iov: seq<IoVec>, offset: nat, len: nat): seq<Byte>
    decreases |iov|
  {
    if iov == [] || len == 0 then []
    else if offset >= iov[0].len then Gather(mem, iov[1..], offset - iov[0].len, len)
    else
      var n := Min(iov[0].len - offset, len);
      var got := Fetch(mem, Span(iov[0].base + offset, n));
      if |got| < n then got else got + Gather(mem, iov[1..], 0, len - n)
  }

  /** Scattering segment by segment: the memory and the count of bytes written. */
  function Spread(mem: UserMemory, iov: seq<IoVec>, offset: nat, src: seq<Byte>): (UserMemory, nat)
    decreases |iov|
  {
    if iov == [] || src == [] then (mem, 0)
    else if offset >= iov[0].len then Spread(mem, iov[1..], offset - iov[0].len, src)
    else
      var n := Min(iov[0].len - offset, |src|);
      var part := Span(iov[0].base + offset, n);
      var mem' := Scatter(mem, part, src);
      if Reach(mem, part) < n then (mem', Reach(mem, part))
      else
        var (m, k) := Spread(mem', iov[1..], 0, src[n..]);
        (m, n + k)
  }

  /** io_iter_copy_from_user. */
  method CopyFromUser(mem: UserMemory, iov: seq<IoVec>, offset0: nat, len: nat) returns (dst: seq<Byte>)
    ensures dst == Gather(mem, iov, offset0, len)
  {
    var offset: nat := offset0;
    dst := [];
    var i: nat := 0;
    ghost var goal := Gather(mem, iov, offset0, len);
    assert iov[0..] == iov;
    while i < |iov| && |dst| < len
      invariant i <= |iov| && |dst| <= len
      invariant StillToGather(mem, iov, i, offset, len, dst, goal)
    {
      var stop;
      stop, offset, dst := GatherSegment(mem, iov, i, offset, len, dst, goal);
      if stop {
        return;
      }
      i := i + 1;
    }
    NothingToGather(mem, iov, i, offset, len, dst, goal);
  }

  /** One round of the loop: skip the segment, or copy from it and stop at a fault. */
  method GatherSegment(mem: UserMemory, iov: seq<IoVec>, i: nat, offset: nat, len: nat, dst: seq<Byte>, ghost goal: seq<Byte>)
    returns (stop: bool, offset': nat, dst': seq<Byte>)
    requires i < |iov| && |dst| < len && StillToGather(mem, iov, i, offset, len, dst, goal)
    ensures |dst'| <= len
    ensures if stop then dst' == goal else StillToGather(mem, iov, i + 1, offset', len, dst', goal)
  {
    GatherNext(mem, iov, i, offset, len, dst, goal);
    if offset >= iov[i].len {
      return false, offset - iov[i].len, dst;
    }
    var n := iov[i].len - offset;
    if n > len - |dst| {
      n := len - |dst|;
    }
    var got := Fetch(mem, Span(iov[i].base + offset, n));
    return |got| < n, 0, dst + got;
  }

  lemma NothingToGather(mem: UserMemory, iov: seq<IoVec>, i: nat, offset: nat, len: nat, dst: seq<Byte>, goal: seq<Byte>)
    requires i <= |iov| && |dst| <= len && StillToGather(mem, iov, i, offset, len, dst, goal)
    requires i == |iov| || |dst| == len
    ensures dst == goal
  {
  }

  /** What is gathered already, followed by what the rest of the vector gives, is the goal. */
  ghost predicate StillToGather(mem: UserMemory, iov: seq<IoVec>, i: nat, offset: nat, len: nat, dst: seq<Byte>, goal: seq<Byte>)
    requires i <= |iov| && |dst| <= len
  {
    goal == dst + Gather(mem, iov[i..], offset, len - |dst|)
  }

  lemma GatherNext(mem: UserMemory, iov: seq<IoVec>, i: nat, offset: nat, len: nat, dst: seq<Byte>, goal: seq<Byte>)
    requires i < |iov| && |dst| < len && StillToGather(mem, iov, i, offset, len, dst, goal)
    ensures offset >= iov[i].len ==> StillToGather(mem, iov, i + 1, offset - iov[i].len, len, dst, goal)
    ensures offset < iov[i].len ==>
              var n := Min(iov[i].len - offset, len - |dst|);
              var got := Fetch(mem, Span(iov[i].base + offset, n));
              if |got| < n then goal == dst + got else StillToGather(mem, iov, i + 1, 0, len, dst + got, goal)
  {
    assert iov[i..][0] == iov[i] && iov[i..][1..] == iov[i + 1..];
    if offset < iov[i].len {
      var n := Min(iov[i].len - offset, len - |dst|);
      var got := Fetch(mem, Span(iov[i].base + offset, n));
      var rest := Gather(mem, iov[i + 1..], 0, len - |dst| - n);
      assert dst + (got + rest) == (dst + got) + rest;
    }
  }

  /** io_iter_copy_to_user. */
  method CopyToUser(mem0: UserMemory, iov: seq<IoVec>, offset0: nat, src: seq<Byte>)
    returns (mem: UserMemory, copied: nat)
    ensures (mem, copied) == Spread(mem0, iov, offset0, src)
  {
    var offset: nat := offset0;
    mem, copied := mem0, 0;
    var i := 0;
    ghost var goal := Spread(mem0, iov, offset0, src);
    assert iov[0..] == iov && src[0..] == src;
    while i < |iov| && copied < |src|
      invariant i <= |iov| && copied <= |src|
      invariant goal.0 == Spread(mem, iov[i..], offset, src[copied..]).0
      invariant goal.1 == copied + Spread(mem, iov[i..], offset, src[copied..]).1
    {
      assert iov[i..][0] == iov[i] && iov[i..][1..] == iov[i + 1..];
      ghost var todo := src[copied..];
      if offset >= iov[i].len {
        offset := offset - iov[i].len;
        i := i + 1;
        continue;
      }
      var n := iov[i].len - offset;
      if n > |src| - copied {
        n := |src| - copied;
      }
      var part := Span(iov[i].base + offset, n);
      var reached := Reach(mem, part);
      mem := Scatter(mem, part, src[copied..]);
      copied := copied + reached;
      if reached < n {
        return;
      }
      assert todo[n..] == src[copied..];
      offset := 0;
      i := i + 1;
    }
  }

  lemma FetchFirst(mem: UserMemory, v: IoVec, rest: seq<nat>, offset: nat, len: nat)
    requires offset < v.len
    ensures var n := Min(v.len - offset, len);
            var got := Fetch(mem, Span(v.base + offset, n));
            Fetch(mem, Window(Span(v.base, v.len) + rest, offset, len))
            == if |got| < n then got else got + Fetch(mem, Window(rest, 0, len - n))
  {
    var n := Min(v.len - offset, len);
    WindowTakes(v, rest, offset, len);
    ReachSplits(mem, Span(v.base + offset, n), Window(rest, 0, len - n));
  }

  lemma ScatterFirst(mem: UserMemory, v: IoVec, rest: seq<nat>, offset: nat, src: seq<Byte>)
    requires offset < v.len
    ensures var n := Min(v.len - offset, |src|);
            var part := Span(v.base + offset, n);
            var w := Window(Span(v.base, v.len) + rest, offset, |src|);
            var mem' := Scatter(mem, part, src);
            if Reach(mem, part) < n then
              Scatter(mem, w, src) == mem' && Reach(mem, w) == Reach(mem, part)
            else
              var w' := Window(rest, 0, |src| - n);
              Scatter(mem, w, src) == Scatter(mem', w', src[n..]) && Reach(mem, w) == n + Reach(mem', w')
  {
    var n := Min(v.len - offset, |src|);
    var part, w' := Span(v.base + offset, n), Window(rest, 0, |src| - n);
    WindowTakes(v, rest, offset, |src|);
    ReachSplits(mem, part, w');
    ScatterSplits(mem, part, w', src);
    ReachByKeys(mem, Scatter(mem, part, src), w');
  }

  /** A gather over segments is a gather over the flat list of addresses. */
  lemma {:induction false} GatherIsFlat(mem: UserMemory, iov: seq<IoVec>, offset: nat, len: nat)
    ensures Gather(mem, iov, offset, len) == Fetch(mem, Window(Addresses(iov), offset, len))
    decreases |iov|
  {
    if iov == [] || len == 0 {
      assert Window(Addresses(iov), offset, len) == [];
    } else if offset >= iov[0].len {
      WindowSkips(iov[0], Addresses(iov[1..]), offset, len);
      GatherIsFlat(mem, iov[1..], offset - iov[0].len, len);
    } else {
      var n := Min(iov[0].len - offset, len);
      GatherIsFlat(mem, iov[1..], 0, len - n);
      GatherFirst(mem, iov, offset, len, Fetch(mem, Window(Addresses(iov[1..]), 0, len - n)));
    }
  }

  lemma GatherFirst(mem: UserMemory, iov: seq<IoVec>, offset: nat, len: nat, more: seq<Byte>)
    requires iov != [] && len > 0 && offset < iov[0].len
    requires var n := Min(iov[0].len - offset, len);
             && more == Gather(mem, iov[1..], 0, len - n)
             && more == Fetch(mem, Window(Addresses(iov[1..]), 0, len - n))
    ensures Gather(mem, iov, offset, len) == Fetch(mem, Window(Addresses(iov), offset, len))
  {
    FetchFirst(mem, iov[0], Addresses(iov[1..]), offset, len);
  }

  /** A scatter over segments is a scatter over the flat list of addresses. */
  lemma {:induction false} SpreadIsFlat(mem: UserMemory, iov: seq<IoVec>, offset: nat, src: seq<Byte>)
    ensures var w := Window(Addresses(iov), offset, |src|);
            Spread(mem, iov, offset, src) == (Scatter(mem, w, src), Reach(mem, w))
    decreases |iov|
  {
    if iov == [] || src == [] {
      assert Window(Addresses(iov), offset, |src|) == [];
    } else if offset >= iov[0].len {
      WindowSkips(iov[0], Addresses(iov[1..]), offset, |src|);
      SpreadIsFlat(mem, iov[1..], offset - iov[0].len, src);
    } else {
      var n := Min(iov[0].len - offset, |src|);
      SpreadIsFlat(Scatter(mem, Span(iov[0].base + offset, n), src), iov[1..], 0, src[n..]);
      SpreadFirst(mem, iov, offset, src, Spread(Scatter(mem, Span(iov[0].base + offset, n), src), iov[1..], 0, src[n..]));
    }
  }

  lemma SpreadFirst(mem: UserMemory, iov: seq<IoVec>, offset: nat, src: seq<Byte>, more: (UserMemory, nat))
    requires iov != [] && src != [] && offset < iov[0].len
    requires var n := Min(iov[0].len - offset, |src|);
             var mem', w' := Scatter(mem, Span(iov[0].base + offset, n), src), Window(Addresses(iov[1..]), 0, |src| - n);
             && more == Spread(mem', iov[1..], 0, src[n..])
             && more == (Scatter(mem', w', src[n..]), Reach(mem', w'))
    ensures var w := Window(Addresses(iov), offset, |src|);
            Spread(mem, iov, offset, src) == (Scatter(mem, w, src), Reach(mem, w))
  {
    SpreadUnfolds(mem, iov, offset, src, more);
    ScatterSegments(mem, iov, offset, src);
  }

  /** ScatterFirst for the first of a list of segments. */
  lemma ScatterSegments(mem: UserMemory, iov: seq<IoVec>, offset: nat, src: seq<Byte>)
    requires iov != [] && offset < iov[0].len
    ensures var n := Min(iov[0].len - offset, |src|);
            var part := Span(iov[0].base + offset, n);
            var w := Window(Addresses(iov), offset, |src|);
            var mem' := Scatter(mem, part, src);
            var w' := Window(Addresses(iov[1..]), 0, |src| - n);
            && Scatter(mem, w, src) == (if Reach(mem, part) < n then mem' else Scatter(mem', w', src[n..]))
            && Reach(mem, w) == (if Reach(mem, part) < n then Reach(mem, part) else n + Reach(mem', w'))
  {
    ScatterFirst(mem, iov[0], Addresses(iov[1..]), offset, src);
  }

  lemma SpreadUnfolds(mem: UserMemory, iov: seq<IoVec>, offset: nat, src: seq<Byte>, more: (UserMemory, nat))
    requires iov != [] && src != [] && offset < iov[0].len
    requires var n := Min(iov[0].len - offset, |src|);
             more == Spread(Scatter(mem, Span(iov[0].base + offset, n), src), iov[1..], 0, src[n..])
    ensures var n := Min(iov[0].len - offset, |src|);
            var part := Span(iov[0].base + offset, n);
            Spread(mem, iov, offset, src)
            == if Reach(mem, part) < n then (Scatter(mem, part, src), Reach(mem, part)) else (more.0, n + more.1)
  {
  }

  /** What pipe_write_user relies on: a complete gather of a window inside the request
      yields that slice of the request, however the request is spread over segments. */
  lemma GatheredSlice(mem: UserMemory, iov: seq<IoVec>, offset: nat, len: nat, data: seq<Byte>)
    requires |data| == |Addresses(iov)| && offset + len <= |data|
    requires forall i | 0 <= i < |data| && Addresses(iov)[i] in mem :: data[i] == mem[Addresses(iov)[i]]
    ensures var got := Gather(mem, iov, offset, len);
            && got <= data[offset..offset + len]
            && (|got| == len <==> forall i | offset <= i < offset + len :: Addresses(iov)[i] in mem)
  {
    var a := Addresses(iov);
    var w := Window(a, offset, len);
    assert |w| == len && forall i | 0 <= i < len :: w[i] == a[offset + i];
    GatherIsFlat(mem, iov, offset, len);
    FetchedBytes(mem, w);
    var got := Fetch(mem, w);
    assert forall i | 0 <= i < |got| :: got[i] == data[offset + i];
    if forall i | offset <= i < offset + len :: a[i] in mem {
      assert forall i | 0 <= i < len :: w[i] in mem;
    }
  }
}
