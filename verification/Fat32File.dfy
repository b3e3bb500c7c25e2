/**
 fat32_file_write and fat32_file_read over the primitives of Fat32Volume. The chain of
 a file is a ghost argument; the code knows only its first cluster and its size.
 */
module Fat32File {
  import opened Machine
  import opened Fat32Spec
  import opened Fat32Runs
  import opened Fat32Volume

  datatype WriteResult = Written(n: nat) | ENOSPC

  function Cluster(v: Volume): nat
  {
    BytesIn(v.g.perCluster)
  }

  /** The start cluster recorded for a chain. */
  ghost predicate StartsAt(start: nat, cs: seq<nat>)
  {
    if cs == [] then start < 2 else start == cs[0]
  }

  /** A write of n bytes at `off` makes the chain at least t clusters long: one cluster
      even for no bytes, and enough to hold the last byte. */
  ghost predicate Target(t: nat, off: nat, n: nat, size: nat)
  {
    && t > 0
    && off < Times(t, size) && off + n <= Times(t, size)
    && Times(t - 1, size) <= off + Monus(n, 1)
  }

  /** Scanning for `n` free clusters never leaves the first copy of the FAT. */
  ghost predicate AllocSafe(vol: Volume, n: nat)
    reads vol
  {
    vol.g.areaSectors == vol.g.fatSectors || |FreeSet(vol.View())| >= n
  }

  /** The state in the middle of a write: w bytes are in, the chain is `cs`, and the
      free clusters are those from before minus the ones the chain grew by. */
  ghost predicate Midway(v0: Vol, cs0: seq<nat>, v: Vol, cs: seq<nat>, off: nat, buf: seq<Byte>, w: nat)
  {
    && Wrote(v0, cs0, v, cs, off, buf, w)
    && |FreeSet(v)| + |cs| == |FreeSet(v0)| + |cs0|
  }

  lemma ExtendMidway(v0: Vol, cs0: seq<nat>, v: Vol, cs: seq<nat>, off: nat, buf: seq<Byte>, w: nat, c: nat)
    requires Midway(v0, cs0, v, cs, off, buf, w) && IsFree(v, c)
    ensures Midway(v0, cs0, Extend(v, cs, c), cs + [c], off, buf, w)
  {
    ExtendWrote(v0, cs0, v, cs, off, buf, w, c);
    ExtendChain(v, cs, c);
    assert c in FreeSet(v);
  }

  lemma PatchMidway(v0: Vol, cs0: seq<nat>, v: Vol, cs: seq<nat>, off: nat, buf: seq<Byte>, w: nat, p: nat, o: nat, n: nat)
    requires Midway(v0, cs0, v, cs, off, buf, w)
    requires p < |cs| && Times(p, v.size) + o == off + w && 0 < n && o + n <= v.size && w + n <= |buf|
    ensures Midway(v0, cs0, PatchCluster(v, cs[p], o, buf[w..w + n]), cs, off, buf, w + n)
  {
    PatchWrote(v0, cs0, v, cs, off, buf, w, p, o, n);
    assert FreeSet(PatchCluster(v, cs[p], o, buf[w..w + n])) == FreeSet(v);
  }

  /** The lookup of the next cluster, allocating and linking one at the end of the
      chain. 0 means that no cluster is free. */
  method NextOrAlloc(vol: Volume, cl: nat, ghost p: nat, ghost cs: seq<nat>) returns (next: nat, ghost cs': seq<nat>)
    requires vol.Valid() && Chain(vol.View(), cs) && p < |cs| && cl == cs[p]
    requires p + 1 < |cs| || AllocSafe(vol, 1)
    modifies vol`v, vol.disk
    ensures vol.Valid()
    ensures next == 0 <==> p + 1 == |cs| && FreeSet(old(vol.View())) == {}
    ensures p + 1 < |cs| || next == 0 ==> cs' == cs && vol.View() == old(vol.View())
    ensures p + 1 == |cs| && next != 0 ==>
              && IsFree(old(vol.View()), next) && cs' == cs + [next]
              && vol.View() == Extend(old(vol.View()), cs, next)
    ensures next != 0 ==> p + 1 < |cs'| && next == cs'[p + 1]
  {
    ghost var v := vol.View();
    cs' := cs;
    next := vol.GetNext(cl);
    assert p + 1 < |cs| ==> v.next[cs[p]] == cs[p + 1];
    if next < 2 || next >= CLUSTER_EOF {
      next := vol.AllocCluster();
      if next < 2 {
        return;
      }
      vol.SetNext(cl, next);
      cs' := cs + [next];
    }
  }

  /** The loop that skips to the cluster holding the offset, growing the chain as needed. */
  method SkipTo(vol: Volume, start: nat, skip: nat, ghost t: nat, ghost off: nat, ghost buf: seq<Byte>,
                ghost v0: Vol, ghost cs0: seq<nat>, ghost cs1: seq<nat>)
    returns (ok: bool, cl: nat, ghost cs: seq<nat>)
    requires vol.Valid() && Midway(v0, cs0, vol.View(), cs1, off, buf, 0)
    requires cs1 != [] && start == cs1[0] && skip < t
    requires AllocSafe(vol, Monus(t, |cs1|))
    modifies vol`v, vol.disk
    ensures vol.Valid() && Midway(v0, cs0, vol.View(), cs, off, buf, 0)
    ensures cs1 <= cs
    ensures AllocSafe(vol, Monus(t, |cs|))
    ensures ok ==> skip < |cs| && cl == cs[skip]
    ensures !ok ==> FreeSet(vol.View()) == {} && |cs| <= skip
  {
    cl, cs := start, cs1;
    var i := 0;
    while i < skip
      invariant 0 <= i <= skip
      invariant vol.Valid() && Midway(v0, cs0, vol.View(), cs, off, buf, 0)
      invariant cs1 <= cs && i < |cs| && cl == cs[i]
      invariant AllocSafe(vol, Monus(t, |cs|))
    {
      var next;
      next, cs := Advance(vol, cl, i, t, off, buf, 0, v0, cs0, cs);
      if next < 2 {
        return false, cl, cs;
      }
      cl := next;
      i := i + 1;
    }
    ok := true;
  }

  /** NextOrAlloc in the middle of a write. */
  method Advance(vol: Volume, cl: nat, ghost p: nat, ghost t: nat, ghost off: nat, ghost buf: seq<Byte>, ghost w: nat,
                 ghost v0: Vol, ghost cs0: seq<nat>, ghost cs1: seq<nat>)
    returns (next: nat, ghost cs: seq<nat>)
    requires vol.Valid() && Midway(v0, cs0, vol.View(), cs1, off, buf, w)
    requires p < |cs1| && cl == cs1[p] && p + 1 < t
    requires AllocSafe(vol, Monus(t, |cs1|))
    modifies vol`v, vol.disk
    ensures vol.Valid() && Midway(v0, cs0, vol.View(), cs, off, buf, w)
    ensures cs1 <= cs
    ensures AllocSafe(vol, Monus(t, |cs|))
    ensures next < 2 <==> next == 0
    ensures next == 0 ==> FreeSet(vol.View()) == {} && |cs| == p + 1
    ensures next != 0 ==> p + 1 < |cs| && next == cs[p + 1]
  {
    ghost var v := vol.View();
    next, cs := NextOrAlloc(vol, cl, p, cs1);
    if |cs| > |cs1| {
      ExtendMidway(v0, cs0, v, cs1, off, buf, w, next);
    }
  }

  /** Where a write stands: in the cluster at position p of the chain while bytes are
      left, and past the last cluster it needs once none are. */
  ghost predicate Cursor(cs: seq<nat>, p: nat, cl: nat, co: nat, off: nat, w: nat, n: nat, size: nat, t: nat)
  {
    && p < |cs| && w <= n
    && (w < n ==> cl == cs[p] && Times(p, size) + co == off + w && co < size)
    && (w == n ==> p + 1 >= t)
  }

  /** One round of the cluster loop of fat32_file_write. */
  method Round(vol: Volume, cl0: nat, co: nat, ghost off: nat, buf: seq<Byte>, total0: nat,
               ghost p0: nat, ghost t: nat, ghost v0: Vol, ghost cs0: seq<nat>, ghost cs1: seq<nat>)
    returns (ok: bool, cl: nat, total: nat, ghost p: nat, ghost cs: seq<nat>)
    requires vol.Valid() && Midway(v0, cs0, vol.View(), cs1, off, buf, total0) && AllocSafe(vol, Monus(t, |cs1|))
    requires total0 < |buf| && Target(t, off, |buf|, Cluster(vol))
    requires Cursor(cs1, p0, cl0, co, off, total0, |buf|, Cluster(vol), t)
    modifies vol`v, vol.disk
    ensures vol.Valid() && Midway(v0, cs0, vol.View(), cs, off, buf, total) && AllocSafe(vol, Monus(t, |cs|))
    ensures cs1 <= cs && total0 < total
    ensures ok ==> Cursor(cs, p, cl, 0, off, total, |buf|, Cluster(vol), t)
    ensures !ok ==> total < |buf| && FreeSet(vol.View()) == {} && |cs| < t && Times(|cs|, Cluster(vol)) == off + total
  {
    total := WriteSome(vol, cl0, co, off, buf, total0, p0, v0, cs0, cs1, t);
    cl, p, cs, ok := cl0, p0, cs1, true;
    if total == |buf| {
      CursorEnds(cs1, p0, cl0, off, total, Cluster(vol), t);
    } else {
      ok, cl, p, cs := NextRound(vol, cl0, off, buf, total, p0, t, v0, cs0, cs1);
    }
  }

  /** Go on to the next cluster, allocating it if need be. */
  method NextRound(vol: Volume, cl0: nat, ghost off: nat, ghost buf: seq<Byte>, ghost total: nat,
                   ghost p0: nat, ghost t: nat, ghost v0: Vol, ghost cs0: seq<nat>, ghost cs1: seq<nat>)
    returns (ok: bool, cl: nat, ghost p: nat, ghost cs: seq<nat>)
    requires vol.Valid() && Midway(v0, cs0, vol.View(), cs1, off, buf, total) && AllocSafe(vol, Monus(t, |cs1|))
    requires total < |buf| && p0 < |cs1| && cl0 == cs1[p0] && Passed(p0, off, total, |buf|, Cluster(vol), t)
    modifies vol`v, vol.disk
    ensures vol.Valid() && Midway(v0, cs0, vol.View(), cs, off, buf, total) && AllocSafe(vol, Monus(t, |cs|))
    ensures cs1 <= cs
    ensures ok ==> Cursor(cs, p, cl, 0, off, total, |buf|, Cluster(vol), t)
    ensures !ok ==> FreeSet(vol.View()) == {} && |cs| < t && Times(|cs|, Cluster(vol)) == off + total
  {
    cl, cs := Advance(vol, cl0, p0, t, off, buf, total, v0, cs0, cs1);
    ok, p := cl >= 2, p0 + 1;
    if ok {
      CursorMoves(cs, p0, cl, off, total, |buf|, Cluster(vol), t);
    }
  }

  lemma CursorEnds(cs: seq<nat>, p: nat, cl: nat, off: nat, n: nat, size: nat, t: nat)
    requires p < |cs| && Passed(p, off, n, n, size, t)
    ensures Cursor(cs, p, cl, 0, off, n, n, size, t)
  {
  }

  lemma CursorMoves(cs: seq<nat>, p: nat, cl: nat, off: nat, w: nat, n: nat, size: nat, t: nat)
    requires p + 1 < |cs| && cl == cs[p + 1] && w < n && Passed(p, off, w, n, size, t)
    ensures Cursor(cs, p + 1, cl, 0, off, w, n, size, t)
  {
  }

  lemma RoundPosition(t: nat, off: nat, n: nat, w: nat, size: nat, p: nat, co: nat, k: nat)
    requires Times(p, size) + co == off + w && co < size && w < n && Target(t, off, n, size)
    requires k == Min(size - co, n - w)
    ensures Passed(p, off, w + k, n, size, t)
  {
    LastCluster(t, off, n, w, size, p, co);
    Distribute(p, size);
  }

  /** The cluster loop of fat32_file_write. `p` is the chain position of the cluster. */
  method WriteAll(vol: Volume, cl0: nat, co0: nat, ghost off: nat, buf: seq<Byte>,
                  ghost p0: nat, ghost t: nat, ghost v0: Vol, ghost cs0: seq<nat>, ghost cs1: seq<nat>)
    returns (ok: bool, total: nat, ghost cs: seq<nat>)
    requires vol.Valid() && Midway(v0, cs0, vol.View(), cs1, off, buf, 0) && AllocSafe(vol, Monus(t, |cs1|))
    requires Target(t, off, |buf|, Cluster(vol))
    requires Cursor(cs1, p0, cl0, co0, off, 0, |buf|, Cluster(vol), t)
    modifies vol`v, vol.disk
    ensures vol.Valid() && Midway(v0, cs0, vol.View(), cs, off, buf, total)
    ensures cs1 <= cs
    ensures ok ==> total == |buf| && |cs| >= t
    ensures !ok ==> total < |buf| && FreeSet(vol.View()) == {} && |cs| < t && Times(|cs|, Cluster(vol)) == off + total
  {
    var cl, co := cl0, co0;
    cs := cs1;
    total := 0;
    ok := true;
    ghost var p := p0;
    while total < |buf|
      invariant vol.Valid() && Midway(v0, cs0, vol.View(), cs, off, buf, total) && AllocSafe(vol, Monus(t, |cs|))
      invariant cs1 <= cs
      invariant Cursor(cs, p, cl, co, off, total, |buf|, Cluster(vol), t)
      decreases |buf| - total
    {
      ok, cl, total, p, cs := Round(vol, cl, co, off, buf, total, p, t, v0, cs0, cs);
      if !ok {
        return;
      }
      co := 0;
    }
  }

  /** Write what the current cluster takes of the rest of the buffer. */
  method WriteSome(vol: Volume, cl: nat, co: nat, ghost off: nat, buf: seq<Byte>, total: nat,
                   ghost p: nat, ghost v0: Vol, ghost cs0: seq<nat>, ghost cs: seq<nat>, ghost t: nat)
    returns (w: nat)
    requires vol.Valid() && Midway(v0, cs0, vol.View(), cs, off, buf, total) && AllocSafe(vol, Monus(t, |cs|))
    requires total < |buf| && Target(t, off, |buf|, Cluster(vol))
    requires Cursor(cs, p, cl, co, off, total, |buf|, Cluster(vol), t)
    modifies vol`v, vol.disk
    ensures vol.Valid() && total < w <= |buf|
    ensures Midway(v0, cs0, vol.View(), cs, off, buf, w) && AllocSafe(vol, Monus(t, |cs|))
    ensures Passed(p, off, w, |buf|, Cluster(vol), t)
  {
    var n := Min(Cluster(vol) - co, |buf| - total);
    RoundPosition(t, off, |buf|, total, Cluster(vol), p, co, n);
    PatchMidway(v0, cs0, vol.View(), cs, off, buf, total, p, co, n);
    vol.WriteCluster(cl, co, buf[total..total + n]);
    w := total + n;
  }

  /** The cluster at position p is done with: the request goes on in the next one, or p is
      the last it needs. */
  ghost predicate Passed(p: nat, off: nat, w: nat, n: nat, size: nat, t: nat)
  {
    if w < n then Times(p + 1, size) == off + w && p + 1 < t && size > 0 else p + 1 >= t
  }

  /** The request ends in cluster p exactly if p is the last cluster it needs. */
  lemma LastCluster(t: nat, off: nat, n: nat, w: nat, size: nat, p: nat, co: nat)
    requires size > 0 && Times(p, size) + co == off + w && co < size && w <= n && Target(t, off, n, size)
    requires n == 0 || w < n
    ensures off + n <= Times(p, size) + size <==> p + 1 >= t
  {
    Distribute(p, size);
    if p + 1 >= t {
      TimesOrder(size, t, p + 1);
    } else {
      TimesOrder(size, p + 1, t - 1);
    }
  }

  lemma TargetExists(off: nat, n: nat, size: nat) returns (t: nat)
    requires size > 0
    ensures Target(t, off, n, size) && off / size < t
  {
    var last := off + Monus(n, 1);
    t := last / size + 1;
    TimesOfPosition(last, size);
    SkipIsBelow(off, size, t);
  }

  lemma SkipIsBelow(off: nat, size: nat, t: nat)
    requires size > 0 && off < Times(t, size)
    ensures off / size < t
  {
    TimesOfPosition(off, size);
    if off / size >= t {
      TimesOrder(size, t, off / size);
    }
  }

  /** fat32_file_write without the size. It succeeds in full exactly when enough clusters are
      free, and otherwise fills what room there is. */
  method WriteBytes(vol: Volume, start0: nat, off: nat, buf: seq<Byte>, ghost cs0: seq<nat>, ghost t: nat)
    returns (complete: bool, w: nat, start: nat, ghost cs: seq<nat>)
    requires vol.Valid() && Chain(vol.View(), cs0) && StartsAt(start0, cs0)
    requires off / Cluster(vol) < U32
    requires Target(t, off, |buf|, Cluster(vol)) && AllocSafe(vol, Monus(t, |cs0|))
    modifies vol`v, vol.disk
    ensures vol.Valid() && Wrote(old(vol.View()), cs0, vol.View(), cs, off, buf, w)
    ensures StartsAt(start, cs)
    ensures complete <==> |FreeSet(old(vol.View()))| >= Monus(t, |cs0|)
    ensures if complete then w == |buf| && |cs| >= t
            else w <= Monus(|buf|, 1) && w == Room(old(vol.View()), cs0, off)
  {
    ghost var v0 := vol.View();
    w, complete := 0, false;
    var ok, cl, co, total;
    ghost var skip;
    ok, start, cl, skip, co, cs := Locate(vol, start0, off, buf, cs0, t);
    if !ok {
      EnoughRoom(v0, cs0, vol.View(), cs, off, buf, w, t, false);
      RoomUsed(v0, cs0, vol.View(), cs, off, buf, 0);
      return;
    }
    ghost var cs1 := cs;
    ok, total, cs := WriteAll(vol, cl, co, off, buf, skip, t, v0, cs0, cs);
    StartKept(start, cs1, cs);
    EnoughRoom(v0, cs0, vol.View(), cs, off, buf, total, t, ok);
    if !ok {
      RoomUsed(v0, cs0, vol.View(), cs, off, buf, total);
    }
    w, complete := total, ok;
  }

  /** fat32_file_write. It succeeds in full exactly when enough clusters are free, and
      otherwise fills what room there is; and whatever it returns, the volume has changed as
      Wrote says. */
  method WriteFile(vol: Volume, start0: nat, size0: nat, off: nat, buf: seq<Byte>, ghost cs0: seq<nat>, ghost t: nat)
    returns (ret: WriteResult, start: nat, size: nat, ghost cs: seq<nat>, ghost w: nat, ghost complete: bool)
    requires vol.Valid() && Chain(vol.View(), cs0) && StartsAt(start0, cs0)
    requires off / Cluster(vol) < U32 && size0 < U32
    requires Target(t, off, |buf|, Cluster(vol)) && AllocSafe(vol, Monus(t, |cs0|))
    modifies vol`v, vol.disk
    ensures vol.Valid() && Wrote(old(vol.View()), cs0, vol.View(), cs, off, buf, w)
    ensures StartsAt(start, cs)
    ensures complete <==> |FreeSet(old(vol.View()))| >= Monus(t, |cs0|)
    ensures complete ==>
              && ret == Written(|buf|) && w == |buf| && |cs| >= t
              && Recorded(size0, off + |buf|, size)
    ensures !complete ==>
              && ret == (if w > 0 then Written(w) else ENOSPC) && w <= Monus(|buf|, 1) && size == size0
              && w == Room(old(vol.View()), cs0, off)
  {
    var ok, total;
    ok, total, start, cs := WriteBytes(vol, start0, off, buf, cs0, t);
    w, complete := total, ok;
    ret := if ok || total > 0 then Written(total) else ENOSPC;
    size := size0;
    if ok {
      size := RecordSize(size, off + total);
    }
  }

  /** The file size is kept in 32 bits, so after a write that ends at `end` it is right
      exactly if the write ends below 4 GiB. */
  ghost predicate Recorded(size0: nat, end: nat, size: nat)
  {
    && (size == Max(size0, end) <==> end < U32)
    && (end >= U32 ==> size == end % U32)
  }

  method RecordSize(size: nat, end: nat) returns (r: nat)
    requires size < U32
    ensures Recorded(size, end, r)
  {
    r := if end > size then end % U32 else size;
  }

  /** A write that has used up the free clusters has filled the room there was. */
  lemma RoomUsed(v0: Vol, cs0: seq<nat>, v: Vol, cs: seq<nat>, off: nat, buf: seq<Byte>, w: nat)
    requires Midway(v0, cs0, v, cs, off, buf, w) && FreeSet(v) == {}
    requires if w > 0 then Times(|cs|, v.size) == off + w else Times(|cs|, v.size) <= off
    ensures w == Room(v0, cs0, off)
  {
    AllTaken(v0, cs0, v, cs, off, buf, w);
    RoomIs(v0, cs0, off, |cs|, w);
  }

  lemma AllTaken(v0: Vol, cs0: seq<nat>, v: Vol, cs: seq<nat>, off: nat, buf: seq<Byte>, w: nat)
    requires Midway(v0, cs0, v, cs, off, buf, w) && FreeSet(v) == {}
    ensures |cs| == |cs0| + |FreeSet(v0)| && v.size == v0.size
  {
  }

  lemma RoomIs(v: Vol, cs: seq<nat>, off: nat, n: nat, w: nat)
    requires n == |cs| + |FreeSet(v)|
    requires if w > 0 then Times(n, v.size) == off + w else Times(n, v.size) <= off
    ensures w == Room(v, cs, off)
  {
  }

  lemma StartKept(start: nat, cs1: seq<nat>, cs: seq<nat>)
    requires StartsAt(start, cs1) && cs1 <= cs && cs1 != []
    ensures StartsAt(start, cs)
  {
    assert cs[0] == cs1[0];
  }

  /** The chain reached its target length exactly if enough clusters were free. */
  lemma EnoughRoom(v0: Vol, cs0: seq<nat>, v: Vol, cs: seq<nat>, off: nat, buf: seq<Byte>, w: nat, t: nat, ok: bool)
    requires Midway(v0, cs0, v, cs, off, buf, w)
    requires if ok then |cs| >= t else FreeSet(v) == {} && |cs| < t
    ensures ok <==> |FreeSet(v0)| >= Monus(t, |cs0|)
  {
    assert |cs0| <= |cs|;
  }

  /** The part of fat32_file_write before the data: the first cluster and the skip. */
  method Locate(vol: Volume, start0: nat, off: nat, ghost buf: seq<Byte>, ghost cs0: seq<nat>, ghost t: nat)
    returns (ok: bool, start: nat, cl: nat, ghost skip: nat, co: nat, ghost cs: seq<nat>)
    requires vol.Valid() && Chain(vol.View(), cs0) && StartsAt(start0, cs0)
    requires off / Cluster(vol) < U32
    requires Target(t, off, |buf|, Cluster(vol)) && AllocSafe(vol, Monus(t, |cs0|))
    modifies vol`v, vol.disk
    ensures vol.Valid() && Midway(old(vol.View()), cs0, vol.View(), cs, off, buf, 0) && AllocSafe(vol, Monus(t, |cs|))
    ensures StartsAt(start, cs)
    ensures ok ==> cs != [] && Cursor(cs, skip, cl, co, off, 0, |buf|, Cluster(vol), t)
    ensures !ok ==> FreeSet(vol.View()) == {} && |cs| < t && Times(|cs|, Cluster(vol)) <= off
  {
    ghost var v0 := vol.View();
    cl, skip, co := 0, 0, 0;
    ok, start, cs := FirstCluster(vol, start0, off, buf, cs0, t);
    if !ok {
      return;
    }
    SkipIsPosition(off, Cluster(vol), t, |buf|);
    var skipped := (off / Cluster(vol)) % U32;
    skip, co := skipped, off % Cluster(vol);
    ghost var cs1 := cs;
    ok, cl, cs := SkipTo(vol, start, skipped, t, off, buf, v0, cs0, cs);
    StartKept(start, cs1, cs);
    if !ok {
      TimesOrder(Cluster(vol), |cs|, skip);
    }
  }

  /** A file without a cluster gets its first one. */
  method FirstCluster(vol: Volume, start0: nat, ghost off: nat, ghost buf: seq<Byte>, ghost cs0: seq<nat>, ghost t: nat)
    returns (ok: bool, start: nat, ghost cs: seq<nat>)
    requires vol.Valid() && Chain(vol.View(), cs0) && StartsAt(start0, cs0)
    requires t > 0 && AllocSafe(vol, Monus(t, |cs0|))
    modifies vol`v, vol.disk
    ensures vol.Valid() && Midway(old(vol.View()), cs0, vol.View(), cs, off, buf, 0)
    ensures StartsAt(start, cs) && AllocSafe(vol, Monus(t, |cs|))
    ensures ok <==> cs != []
    ensures !ok ==> FreeSet(vol.View()) == {}
  {
    ghost var v0 := vol.View();
    MirrorOk(vol.g, vol.disk[..], vol.v);
    NothingWritten(v0, cs0, off, buf);
    start, cs := start0, cs0;
    if start < 2 {
      start := vol.AllocCluster();
      if start < 2 {
        return false, start, cs;
      }
      ExtendMidway(v0, cs0, v0, cs, off, buf, 0, start);
      cs := cs + [start];
    }
    ok := true;
  }

  /** The number of clusters to skip, and the offset in the cluster after them. */
  lemma SkipIsPosition(off: nat, size: nat, t: nat, n: nat)
    requires size > 0 && off / size < U32 && Target(t, off, n, size)
    ensures (off / size) % U32 == off / size < t
    ensures Times(off / size, size) + off % size == off && off % size < size
    ensures n == 0 ==> off / size + 1 >= t
  {
    TimesOfPosition(off, size);
    SkipIsBelow(off, size, t);
    if n == 0 && off / size < t - 1 {
      TimesOrder(size, off / size, t - 1);
    }
  }

  /** A complete call is a step of the byte-sequence view of the disk. */
  lemma CompleteWriteSteps(s: Disk, f: nat, off: nat, buf: seq<Byte>, v': Vol, cs': seq<nat>, t: nat)
    requires FilesOk(s.v, s.files) && f in s.files
    requires Target(t, off, |buf|, s.v.size) && |cs'| >= t
    requires Wrote(s.v, s.files[f].chain, v', cs', off, buf, |buf|)
    ensures var f' := File(cs', Max(s.files[f].size, off + |buf|));
            Step(s, Attempt(WriteCall(f, off, buf), |buf|, true), Disk(v', s.files[f := f']))
  {
    ContentLength(v', cs');
    TimesOrder(s.v.size, t, |cs'|);
  }

  /** A call that runs out of space is one, and keeps the files sound, exactly if the request
      holds zeros where it reaches beyond the size. */
  lemma CutShortWriteSteps(s: Disk, f: nat, off: nat, buf: seq<Byte>, v': Vol, cs': seq<nat>)
    requires FilesOk(s.v, s.files) && f in s.files
    requires Wrote(s.v, s.files[f].chain, v', cs', off, buf, Room(s.v, s.files[f].chain, off))
    ensures var s' := Disk(v', s.files[f := File(cs', s.files[f].size)]);
            var a := Attempt(WriteCall(f, off, buf), Room(s.v, s.files[f].chain, off), false);
            && (Step(s, a, s') <==> ZerosBehind(s.v, s.files[f], off, buf))
            && (FilesOk(s'.v, s'.files) <==> ZerosBehind(s.v, s.files[f], off, buf))
  {
    var w := Room(s.v, s.files[f].chain, off);
    CutShortIff(s.v, s.files[f], v', cs', off, buf);
    HarmlessIff(s.v, s.files[f], off, buf);
    if Harmless(s.files[f].size, off, buf, w) {
      WriteKeepsFiles(s.v, s.files, f, v', File(cs', s.files[f].size), off, buf, w);
    }
  }

  // --------------------------------------------------------------------- reading

  /** While bytes are left to read, cluster `cl` at position p of the chain holds the next. */
  ghost predicate ReadCursor(cs: seq<nat>, p: nat, cl: nat, co: nat, at: nat, end: nat, size: nat)
  {
    at < end ==> p < |cs| && cl == cs[p] && Times(p, size) + co == at && co < size
  }

  /** fat32_file_read returns the bytes of the file from the offset up to the end of the
      request or of the file. */
  method ReadFile(vol: Volume, start: nat, size: nat, off: nat, n: nat, ghost cs: seq<nat>) returns (bytes: seq<Byte>)
    requires vol.Valid() && Chain(vol.View(), cs) && StartsAt(start, cs)
    requires size < U32 && size <= |Content(vol.View(), cs)|
    ensures bytes == if off >= size then [] else Content(vol.View(), cs)[off..Min(off + n, size)]
  {
    if off >= size {
      return [];
    }
    var len: nat := if off + n > size then size - off else n;
    ghost var p;
    var cl, co;
    cl, co, p := SkipInChain(vol, start, off, off + len, cs);
    bytes := ReadAll(vol, cl, co, off, off + len, p, cs);
  }

  /** The cluster loop of fat32_file_read. */
  method ReadAll(vol: Volume, cl0: nat, co0: nat, off: nat, end: nat, ghost p0: nat, ghost cs: seq<nat>)
    returns (bytes: seq<Byte>)
    requires vol.Valid() && Chain(vol.View(), cs) && off <= end <= |Content(vol.View(), cs)|
    requires ReadCursor(cs, p0, cl0, co0, off, end, Cluster(vol)) && 2 <= cl0 < CLUSTER_EOF
    ensures bytes == Content(vol.View(), cs)[off..end]
  {
    ghost var content := Content(vol.View(), cs);
    var cl: nat, co: nat, at: nat := cl0, co0, off;
    ghost var p := p0;
    bytes := [];
    while at < end && 2 <= cl < CLUSTER_EOF
      invariant off <= at <= end && bytes == content[off..at]
      invariant ReadCursor(cs, p, cl, co, at, end, Cluster(vol))
      invariant at < end ==> 2 <= cl < CLUSTER_EOF
      decreases end - at
    {
      var more, next;
      more, next := ReadRound(vol, cl, co, at, end, p, cs);
      assert more == content[at..at + |more|];
      SliceJoin(content, off, at, at + |more|);
      bytes, at := bytes + more, at + |more|;
      cl, co, p := next, 0, p + 1;
    }
  }

  /** One round of the cluster loop of fat32_file_read. */
  method ReadRound(vol: Volume, cl: nat, co: nat, at: nat, end: nat, ghost p: nat, ghost cs: seq<nat>)
    returns (bytes: seq<Byte>, next: nat)
    requires vol.Valid() && Chain(vol.View(), cs) && at < end <= |Content(vol.View(), cs)|
    requires ReadCursor(cs, p, cl, co, at, end, Cluster(vol))
    ensures 0 < |bytes| <= end - at && bytes == Content(vol.View(), cs)[at..at + |bytes|]
    ensures ReadCursor(cs, p + 1, next, 0, at + |bytes|, end, Cluster(vol))
    ensures at + |bytes| < end ==> 2 <= next < CLUSTER_EOF
  {
    var n := Min(Cluster(vol) - co, end - at);
    bytes := vol.ReadCluster(cl, co, n);
    next := vol.GetNext(cl);
    MirrorOk(vol.g, vol.disk[..], vol.v);
    ContentAt(vol.View(), cs, p, co, n);
    NextCluster(vol.View(), cs, p, co, at, end, n);
  }

  lemma NextCluster(v: Vol, cs: seq<nat>, p: nat, co: nat, at: nat, end: nat, n: nat)
    requires VolOk(v) && Chain(v, cs) && at < end <= |Content(v, cs)|
    requires p < |cs| && Times(p, v.size) + co == at && co < v.size && n == Min(v.size - co, end - at)
    ensures at + n < end ==>
              p + 1 < |cs| && v.next[cs[p]] == cs[p + 1] && 2 <= cs[p + 1] < CLUSTER_EOF && Times(p + 1, v.size) == at + n
  {
    ContentLength(v, cs);
    Distribute(p, v.size);
  }

  /** A stretch of one cluster is the stretch of the file at the cluster's position. */
  lemma {:induction false} ContentAt(v: Vol, cs: seq<nat>, p: nat, o: nat, n: nat)
    requires VolOk(v) && (forall i | 0 <= i < |cs| :: 2 <= cs[i] < |v.data|)
    requires p < |cs| && o + n <= v.size
    ensures Times(p, v.size) + o + n <= |Content(v, cs)|
    ensures Content(v, cs)[Times(p, v.size) + o..Times(p, v.size) + o + n] == v.data[cs[p]][o..o + n]
  {
    ContentLength(v, cs[1..]);
    var head, tail := v.data[cs[0]], Content(v, cs[1..]);
    if p == 0 {
      SliceLeft(head, tail, o, n);
    } else {
      ContentAt(v, cs[1..], p - 1, o, n);
      Distribute(p - 1, v.size);
      SliceRight(head, tail, Times(p - 1, v.size) + o, n);
    }
  }

  lemma SliceLeft(a: seq<Byte>, b: seq<Byte>, o: nat, n: nat)
    requires o + n <= |a|
    ensures (a + b)[o..o + n] == a[o..o + n]
  {
  }

  /** The skip loop of fat32_file_read. */
  method SkipInChain(vol: Volume, start: nat, off: nat, ghost end: nat, ghost cs: seq<nat>)
    returns (cl: nat, co: nat, ghost p: nat)
    requires vol.Valid() && Chain(vol.View(), cs) && StartsAt(start, cs)
    requires off < U32 && off < |Content(vol.View(), cs)|
    ensures ReadCursor(cs, p, cl, co, off, end, Cluster(vol)) && 2 <= cl < CLUSTER_EOF
  {
    var skip := (off / Cluster(vol)) % U32;
    co := off % Cluster(vol);
    MirrorOk(vol.g, vol.disk[..], vol.v);
    InsideChain(vol.View(), cs, off);
    cl := start;
    var i := 0;
    while i < skip && 2 <= cl < CLUSTER_EOF
      invariant i <= skip < |cs| && cl == cs[i]
    {
      cl := vol.GetNext(cl);
      i := i + 1;
    }
    p := skip;
  }

  lemma InsideChain(v: Vol, cs: seq<nat>, off: nat)
    requires VolOk(v) && Chain(v, cs) && off < U32 && off < |Content(v, cs)|
    ensures (off / v.size) % U32 == off / v.size < |cs|
    ensures Times(off / v.size, v.size) + off % v.size == off
    ensures forall i | 0 <= i < |cs| :: cs[i] < CLUSTER_EOF
  {
    ContentLength(v, cs);
    PositionBelow(off, v.size, |cs|);
  }

  lemma PositionBelow(off: nat, size: nat, n: nat)
    requires size > 0 && off < U32 && off < Times(n, size)
    ensures (off / size) % U32 == off / size < n
    ensures Times(off / size, size) + off % size == off && off % size < size
  {
    TimesOfPosition(off, size);
    SkipIsBelow(off, size, n);
  }
}
