/**
 A FAT32 volume as its cluster links and cluster contents, and files as chains of
 clusters. `Wrote` says everything a call of fat32_file_write does to a volume; the
 lemmas derive from it that chains stay sound and disjoint, that other files keep
 every byte, and that a file reads back as the bytes written to it.
 */
module Fat32Spec {
  import opened Machine

  const CLUSTER_FREE: nat := 0
  const CLUSTER_EOF: nat := 0x0FFF_FFF8

  /** `size` is the number of bytes in a cluster. */
  datatype Vol = Vol(next: seq<nat>, data: seq<seq<Byte>>, size: nat)

  datatype File = File(chain: seq<nat>, size: nat)

  /** The chain-end test of the driver. */
  predicate Ends(n: nat)
  {
    n < 2 || n >= CLUSTER_EOF
  }

  ghost predicate VolOk(v: Vol)
  {
    && v.size > 0
    && |v.next| == |v.data| <= CLUSTER_EOF
    && forall c | 2 <= c < |v.data| :: |v.data[c]| == v.size
  }

  /** `cs` is what following the links from cs[0] visits, without repetition. */
  ghost predicate Chain(v: Vol, cs: seq<nat>)
  {
    && (forall i | 0 <= i < |cs| :: 2 <= cs[i] < |v.next|)
    && (forall i, j | 0 <= i < j < |cs| :: cs[i] != cs[j])
    && (forall i {:trigger v.next[cs[i]]} | 0 <= i < |cs| - 1 :: v.next[cs[i]] == cs[i + 1])
    && (cs != [] ==> Ends(v.next[cs[|cs| - 1]]) && v.next[cs[|cs| - 1]] != CLUSTER_FREE)
  }

  ghost function Content(v: Vol, cs: seq<nat>): seq<Byte>
    requires forall i | 0 <= i < |cs| :: cs[i] < |v.data|
  {
    if cs == [] then [] else v.data[cs[0]] + Content(v, cs[1..])
  }

  /** Replace the bytes from `o` on by `x`. */
  ghost function Splice(s: seq<Byte>, o: nat, x: seq<Byte>): (r: seq<Byte>)
    requires o + |x| <= |s|
    ensures |r| == |s|
  {
    s[..o] + x + s[o + |x|..]
  }

  // ---------------------------------------------------------------- chain contents

  lemma {:induction false} ContentLength(v: Vol, cs: seq<nat>)
    requires VolOk(v) && forall i | 0 <= i < |cs| :: 2 <= cs[i] < |v.data|
    ensures |Content(v, cs)| == Times(|cs|, v.size)
  {
    if cs != [] {
      ContentLength(v, cs[1..]);
      Distribute(|cs| - 1, v.size);
    }
  }

  lemma Distribute(n: nat, m: nat)
    ensures Times(n + 1, m) == Times(n, m) + m
  {
  }

  lemma {:induction false} ContentFrame(v: Vol, v': Vol, cs: seq<nat>)
    requires forall i | 0 <= i < |cs| :: cs[i] < |v.data| && cs[i] < |v'.data| && v.data[cs[i]] == v'.data[cs[i]]
    ensures Content(v, cs) == Content(v', cs)
  {
    if cs != [] {
      ContentFrame(v, v', cs[1..]);
    }
  }

  lemma {:induction false} ContentConcat(v: Vol, cs: seq<nat>, ds: seq<nat>)
    requires forall i | 0 <= i < |cs| :: cs[i] < |v.data|
    requires forall i | 0 <= i < |ds| :: ds[i] < |v.data|
    ensures Content(v, cs + ds) == Content(v, cs) + Content(v, ds)
  {
    if cs == [] {
      assert cs + ds == ds;
    } else {
      assert (cs + ds)[1..] == cs[1..] + ds;
      ContentConcat(v, cs[1..], ds);
    }
  }

  ghost function PatchCluster(v: Vol, c: nat, o: nat, x: seq<Byte>): Vol
    requires c < |v.data| && o + |x| <= |v.data[c]|
  {
    v.(data := v.data[c := Splice(v.data[c], o, x)])
  }

  /** The content of the chain is now the bytes `now` with x at position `at`. */
  ghost predicate PatchedTo(v: Vol, cs: seq<nat>, now: seq<Byte>, at: nat, x: seq<Byte>)
  {
    && (forall i | 0 <= i < |cs| :: cs[i] < |v.data|)
    && at + |x| <= |now| && Content(v, cs) == Splice(now, at, x)
  }

  /** Rewriting part of one cluster rewrites that part of the file. */
  lemma {:induction false} ContentPatch(v: Vol, cs: seq<nat>, p: nat, o: nat, x: seq<Byte>)
    requires VolOk(v) && (forall i | 0 <= i < |cs| :: 2 <= cs[i] < |v.data|)
    requires forall i, j | 0 <= i < j < |cs| :: cs[i] != cs[j]
    requires p < |cs| && o + |x| <= v.size
    ensures PatchedTo(PatchCluster(v, cs[p], o, x), cs, Content(v, cs), Times(p, v.size) + o, x)
  {
    if p == 0 {
      PatchHead(v, cs, o, x);
    } else {
      assert cs[1..][p - 1] == cs[p];
      ContentPatch(v, cs[1..], p - 1, o, x);
      Distribute(p - 1, v.size);
      PatchTail(PatchCluster(v, cs[p], o, x), cs, v.data[cs[0]], Content(v, cs[1..]), Times(p - 1, v.size) + o, x);
    }
  }

  lemma PatchHead(v: Vol, cs: seq<nat>, o: nat, x: seq<Byte>)
    requires cs != [] && (forall i | 0 <= i < |cs| :: cs[i] < |v.data|) && (forall i | 0 < i < |cs| :: cs[i] != cs[0])
    requires o + |x| <= |v.data[cs[0]]|
    ensures PatchedTo(PatchCluster(v, cs[0], o, x), cs, Content(v, cs), o, x)
  {
    ContentFrame(v, PatchCluster(v, cs[0], o, x), cs[1..]);
    SpliceLeft(v.data[cs[0]], Content(v, cs[1..]), o, x);
  }

  lemma PatchTail(v: Vol, cs: seq<nat>, head: seq<Byte>, tail: seq<Byte>, at: nat, x: seq<Byte>)
    requires cs != [] && (forall i | 0 <= i < |cs| :: cs[i] < |v.data|)
    requires v.data[cs[0]] == head && PatchedTo(v, cs[1..], tail, at, x)
    ensures PatchedTo(v, cs, head + tail, |head| + at, x)
  {
    SpliceRight(head, tail, at, x);
  }

  lemma SpliceLeft(a: seq<Byte>, b: seq<Byte>, o: nat, x: seq<Byte>)
    requires o + |x| <= |a|
    ensures Splice(a, o, x) + b == Splice(a + b, o, x)
  {
  }

  lemma SpliceRight(a: seq<Byte>, b: seq<Byte>, o: nat, x: seq<Byte>)
    requires o + |x| <= |b|
    ensures a + Splice(b, o, x) == Splice(a + b, |a| + o, x)
  {
  }

  lemma SpliceNext(s: seq<Byte>, o: nat, x: seq<Byte>, y: seq<Byte>)
    requires o + |x| + |y| <= |s|
    ensures Splice(Splice(s, o, x), o + |x|, y) == Splice(s, o, x + y)
  {
  }

  // ------------------------------------------------------------------ a write call

  /** The content of a chain with n zeroed clusters appended. */
  ghost function Grown(v: Vol, cs: seq<nat>, n: nat): seq<Byte>
    requires forall i | 0 <= i < |cs| :: cs[i] < |v.data|
  {
    Content(v, cs) + Zeros(Times(n, v.size))
  }

  /** The bytes of the chain after `w` bytes of the buffer have been written at `off`;
      nothing is patched before the first byte is. */
  ghost function Patched(base: seq<Byte>, off: nat, x: seq<Byte>): seq<Byte>
    requires x != [] ==> off + |x| <= |base|
  {
    if x == [] then base else Splice(base, off, x)
  }

  /** The chain grew by clusters that were free, and nothing outside it changed. */
  ghost predicate Grew(v: Vol, cs: seq<nat>, v': Vol, cs': seq<nat>)
  {
    && VolOk(v') && v'.size == v.size && |v'.data| == |v.data| == |v.next|
    && cs <= cs'
    && Chain(v, cs) && Chain(v', cs')
    && (forall i {:trigger v.next[cs'[i]]} | |cs| <= i < |cs'| :: v.next[cs'[i]] == CLUSTER_FREE)
    && (forall c | 0 <= c < |v.next| && c !in cs' :: v'.next[c] == v.next[c] && v'.data[c] == v.data[c])
  }

  /** The chain grew, and its content is the old content, zeros for the new clusters,
      and on top of that the first w bytes of the buffer at `off`. */
  ghost predicate Wrote(v: Vol, cs: seq<nat>, v': Vol, cs': seq<nat>, off: nat, buf: seq<Byte>, w: nat)
  {
    && Grew(v, cs, v', cs')
    && w <= |buf|
    && (w > 0 ==> off + w <= |Grown(v, cs, |cs'| - |cs|)|)
    && Content(v', cs') == Patched(Grown(v, cs, |cs'| - |cs|), off, buf[..w])
  }

  // ------------------------------------------------ the steps a write is made of

  ghost function FreeSet(v: Vol): set<nat>
  {
    set c: nat | c < |v.next| && 2 <= c && v.next[c] == CLUSTER_FREE
  }

  ghost predicate IsFree(v: Vol, c: nat)
  {
    2 <= c < |v.next| && v.next[c] == CLUSTER_FREE
  }

  /** What alloc_cluster does with the cluster it found. */
  ghost function Allocate(v: Vol, c: nat): Vol
    requires c < |v.next| && c < |v.data|
  {
    v.(next := v.next[c := CLUSTER_EOF], data := v.data[c := Zeros(v.size)])
  }

  ghost function LinkTo(v: Vol, c: nat, n: nat): Vol
    requires c < |v.next|
  {
    v.(next := v.next[c := n])
  }

  /** The volume after a fresh cluster has been hung on the end of a chain. */
  ghost function Extend(v: Vol, cs: seq<nat>, c: nat): Vol
    requires c < |v.next| && c < |v.data| && (cs != [] ==> cs[|cs| - 1] < |v.next|)
  {
    if cs == [] then Allocate(v, c) else LinkTo(Allocate(v, c), cs[|cs| - 1], c)
  }

  lemma ExtendChain(v: Vol, cs: seq<nat>, c: nat)
    requires VolOk(v) && Chain(v, cs) && IsFree(v, c)
    ensures c !in cs
    ensures var v' := Extend(v, cs, c);
            && VolOk(v') && Chain(v', cs + [c])
            && Content(v', cs + [c]) == Content(v, cs) + Zeros(v.size)
            && FreeSet(v') == FreeSet(v) - {c}
  {
    if c in cs {
      InUse(v, cs, c);
    }
    var v' := Extend(v, cs, c);
    ExtendLinks(v, cs, c);
    ContentFrame(v, v', cs);
    ContentConcat(v', cs, [c]);
    assert Content(v', [c]) == v'.data[c] + [];
    if cs != [] {
      InUse(v, cs, cs[|cs| - 1]);
    }
  }

  lemma ExtendLinks(v: Vol, cs: seq<nat>, c: nat)
    requires VolOk(v) && Chain(v, cs) && IsFree(v, c) && c !in cs
    ensures Chain(Extend(v, cs, c), cs + [c])
  {
    var v' := Extend(v, cs, c);
    var cs' := cs + [c];
    forall i | 0 <= i < |cs'| - 1
      ensures v'.next[cs'[i]] == cs'[i + 1]
    {
      if i < |cs| - 1 {
        assert v.next[cs[i]] == cs[i + 1];
      }
    }
  }

  lemma ZerosGrow(n: nat, m: nat)
    ensures Zeros(Times(n + 1, m)) == Zeros(Times(n, m)) + Zeros(m)
  {
    Distribute(n, m);
  }

  lemma PatchedGrows(base: seq<Byte>, off: nat, x: seq<Byte>, z: seq<Byte>)
    requires x != [] ==> off + |x| <= |base|
    ensures Patched(base, off, x) + z == Patched(base + z, off, x)
  {
    if x != [] {
      SpliceLeft(base, z, off, x);
    }
  }

  lemma PatchedNext(base: seq<Byte>, off: nat, x: seq<Byte>, y: seq<Byte>)
    requires off + |x| + |y| <= |base| && y != []
    ensures Splice(Patched(base, off, x), off + |x|, y) == Patched(base, off, x + y)
  {
    if x == [] {
      assert x + y == y;
    } else {
      SpliceNext(base, off, x, y);
    }
  }

  lemma ExtendGrew(v0: Vol, cs0: seq<nat>, v: Vol, cs: seq<nat>, c: nat)
    requires Grew(v0, cs0, v, cs) && IsFree(v, c)
    ensures Grew(v0, cs0, Extend(v, cs, c), cs + [c])
  {
    ExtendChain(v, cs, c);
  }

  lemma ExtendWrote(v0: Vol, cs0: seq<nat>, v: Vol, cs: seq<nat>, off: nat, buf: seq<Byte>, w: nat, c: nat)
    requires Wrote(v0, cs0, v, cs, off, buf, w) && IsFree(v, c)
    ensures Wrote(v0, cs0, Extend(v, cs, c), cs + [c], off, buf, w)
  {
    ExtendGrew(v0, cs0, v, cs, c);
    ExtendChain(v, cs, c);
    GrownBytes(v0, cs0, |cs| - |cs0|, off, buf[..w], Content(v, cs));
  }

  /** One more zeroed cluster behind the bytes of a chain. */
  lemma GrownBytes(v: Vol, cs: seq<nat>, k: nat, off: nat, x: seq<Byte>, now: seq<Byte>)
    requires forall i | 0 <= i < |cs| :: cs[i] < |v.data|
    requires (x != [] ==> off + |x| <= |Grown(v, cs, k)|) && now == Patched(Grown(v, cs, k), off, x)
    ensures x != [] ==> off + |x| <= |Grown(v, cs, k + 1)|
    ensures now + Zeros(v.size) == Patched(Grown(v, cs, k + 1), off, x)
  {
    ZerosGrow(k, v.size);
    PatchedGrows(Grown(v, cs, k), off, x, Zeros(v.size));
    assert Grown(v, cs, k + 1) == Grown(v, cs, k) + Zeros(v.size);
  }

  lemma PatchGrew(v0: Vol, cs0: seq<nat>, v: Vol, cs: seq<nat>, p: nat, o: nat, x: seq<Byte>)
    requires Grew(v0, cs0, v, cs) && p < |cs| && o + |x| <= v.size
    ensures Grew(v0, cs0, PatchCluster(v, cs[p], o, x), cs)
  {
  }

  lemma PatchWrote(v0: Vol, cs0: seq<nat>, v: Vol, cs: seq<nat>, off: nat, buf: seq<Byte>, w: nat, p: nat, o: nat, n: nat)
    requires Wrote(v0, cs0, v, cs, off, buf, w)
    requires p < |cs| && Times(p, v.size) + o == off + w && 0 < n && o + n <= v.size && w + n <= |buf|
    ensures Wrote(v0, cs0, PatchCluster(v, cs[p], o, buf[w..w + n]), cs, off, buf, w + n)
  {
    var x := buf[w..w + n];
    PatchGrew(v0, cs0, v, cs, p, o, x);
    PatchedContent(v, cs, p, o, off + w, x);
    WroteMore(v0, cs0, v, cs, PatchCluster(v, cs[p], o, x), off, buf, w, n, x);
  }

  lemma PatchedContent(v: Vol, cs: seq<nat>, p: nat, o: nat, at: nat, x: seq<Byte>)
    requires VolOk(v) && Chain(v, cs) && p < |cs| && o + |x| <= v.size && at == Times(p, v.size) + o
    ensures |v.data[cs[p]]| == v.size && PatchedTo(PatchCluster(v, cs[p], o, x), cs, Content(v, cs), at, x)
  {
    ContentPatch(v, cs, p, o, x);
  }

  /** The chain holds n more bytes of the buffer. */
  lemma WroteMore(v0: Vol, cs0: seq<nat>, v: Vol, cs: seq<nat>, v': Vol, off: nat, buf: seq<Byte>, w: nat, n: nat, x: seq<Byte>)
    requires Wrote(v0, cs0, v, cs, off, buf, w) && Grew(v0, cs0, v', cs) && 0 < n <= |buf| - w && x == buf[w..w + n]
    requires PatchedTo(v', cs, Content(v, cs), off + w, x)
    ensures Wrote(v0, cs0, v', cs, off, buf, w + n)
  {
    PatchBytes(Grown(v0, cs0, |cs| - |cs0|), off, buf, w, n, Content(v, cs));
  }

  lemma PatchBytes(base: seq<Byte>, off: nat, buf: seq<Byte>, w: nat, n: nat, now: seq<Byte>)
    requires w + n <= |buf| && n > 0 && (w > 0 ==> off + w <= |base|) && now == Patched(base, off, buf[..w])
    requires off + w + n <= |now|
    ensures off + w + n <= |base|
    ensures Splice(now, off + w, buf[w..w + n]) == Patched(base, off, buf[..w + n])
  {
    PatchedNext(base, off, buf[..w], buf[w..w + n]);
    assert buf[..w] + buf[w..w + n] == buf[..w + n];
  }

  lemma NothingWritten(v: Vol, cs: seq<nat>, off: nat, buf: seq<Byte>)
    requires VolOk(v) && Chain(v, cs)
    ensures Wrote(v, cs, v, cs, off, buf, 0)
  {
    assert Zeros(Times(0, v.size)) == [];
    assert Grown(v, cs, 0) == Content(v, cs);
  }

  // ------------------------------------------------------------ files on a volume

  /** Sound chains with no cluster in common. Sizes fit, and the bytes of the last
      clusters beyond the file size are zero. */
  ghost predicate FilesOk(v: Vol, files: map<nat, File>)
  {
    && VolOk(v)
    && (forall f | f in files :: FileOk(v, files[f]))
    && (forall f, g, c | f in files && g in files && c in files[f].chain && c in files[g].chain :: f == g)
  }

  ghost predicate FileOk(v: Vol, f: File)
  {
    && Chain(v, f.chain) && |v.next| == |v.data|
    && f.size <= |Content(v, f.chain)|
    && forall k | f.size <= k < |Content(v, f.chain)| :: Content(v, f.chain)[k] == 0
  }

  /** What reading the whole file gives. */
  ghost function Bytes(v: Vol, f: File): seq<Byte>
    requires FileOk(v, f)
  {
    Content(v, f.chain)[..f.size]
  }

  /** Writing at `off`, filling any gap before it with zeros. */
  ghost function Overwrite(s: seq<Byte>, off: nat, buf: seq<Byte>): seq<Byte>
  {
    var base := if off + |buf| <= |s| then s else s + Zeros(off + |buf| - |s|);
    Splice(base, off, buf)
  }

  /** A chain of another file is out of reach of a write. */
  lemma OtherChainSafe(v: Vol, cs: seq<nat>, v': Vol, cs': seq<nat>, off: nat, buf: seq<Byte>, w: nat, ds: seq<nat>)
    requires VolOk(v) && Wrote(v, cs, v', cs', off, buf, w)
    requires Chain(v, ds) && forall c | c in ds :: c !in cs
    ensures forall c | c in ds :: c !in cs'
    ensures Chain(v', ds) && Content(v', ds) == Content(v, ds)
  {
    forall c | c in ds
      ensures c !in cs'
    {
      InUse(v, ds, c);
    }
    ContentFrame(v, v', ds);
  }

  /** No cluster of a chain is free. */
  lemma InUse(v: Vol, cs: seq<nat>, c: nat)
    requires Chain(v, cs) && c in cs
    ensures c < |v.next| && v.next[c] != CLUSTER_FREE
  {
    var i :| 0 <= i < |cs| && cs[i] == c;
    if i < |cs| - 1 {
      assert v.next[cs[i]] == cs[i + 1];
    }
  }

  /** A complete write leaves the file holding the overwritten bytes. */
  lemma WriteReadsBack(v: Vol, f: File, v': Vol, cs': seq<nat>, off: nat, buf: seq<Byte>)
    requires VolOk(v) && FileOk(v, f)
    requires Wrote(v, f.chain, v', cs', off, buf, |buf|)
    requires off + |buf| <= |Content(v', cs')|
    ensures var f' := File(cs', Max(f.size, off + |buf|));
            FileOk(v', f') && Bytes(v', f') == Overwrite(Bytes(v, f), off, buf)
  {
    assert buf[..|buf|] == buf;
    PatchedIsOverwrite(Content(v, f.chain), Times(|cs'| - |f.chain|, v.size), f.size, off, buf);
  }

  lemma PatchedIsOverwrite(before: seq<Byte>, z: nat, size: nat, off: nat, buf: seq<Byte>)
    requires size <= |before| && off + |buf| <= |before| + z
    requires forall k | size <= k < |before| :: before[k] == 0
    ensures var now := Patched(before + Zeros(z), off, buf);
            var size' := Max(size, off + |buf|);
            && |now| == |before| + z
            && now[..size'] == Overwrite(before[..size], off, buf)
            && forall k | size' <= k < |now| :: now[k] == 0
  {
    var base := before + Zeros(z);
    if buf == [] {
      assert Splice(base, off, buf) == base;
    }
    SpliceIsOverwrite(base, before, size, off, buf);
  }

  /** Splicing into a zero-padded file is overwriting the file. */
  lemma SpliceIsOverwrite(base: seq<Byte>, before: seq<Byte>, size: nat, off: nat, buf: seq<Byte>)
    requires size <= |before| <= |base| && base[..|before|] == before && off + |buf| <= |base|
    requires forall k | size <= k < |base| :: base[k] == 0
    ensures var size' := Max(size, off + |buf|);
            && Splice(base, off, buf)[..size'] == Overwrite(before[..size], off, buf)
            && forall k | size' <= k < |base| :: Splice(base, off, buf)[k] == 0
  {
    var s := before[..size];
    var size' := Max(size, off + |buf|);
    var padded := if off + |buf| <= size then s else s + Zeros(off + |buf| - size);
    assert padded == base[..size'] by {
      assert forall k | 0 <= k < size :: base[k] == base[..|before|][k];
    }
    assert Splice(base, off, buf)[..size'] == Splice(base[..size'], off, buf);
  }

  /** A write, complete or cut short for lack of space, to one of several files. */
  lemma WriteKeepsFiles(v: Vol, files: map<nat, File>, f: nat, v': Vol, f': File, off: nat, buf: seq<Byte>, w: nat)
    requires FilesOk(v, files) && f in files
    requires Wrote(v, files[f].chain, v', f'.chain, off, buf, w) && FileOk(v', f')
    ensures FilesOk(v', files[f := f'])
    ensures forall g | g in files && g != f ::
              FileOk(v', files[g]) && Bytes(v', files[g]) == Bytes(v, files[g])
  {
    forall g | g in files && g != f
      ensures FileOk(v', files[g]) && Bytes(v', files[g]) == Bytes(v, files[g])
      ensures forall c | c in files[g].chain :: c !in f'.chain
    {
      OtherChainSafe(v, files[f].chain, v', f'.chain, off, buf, w, files[g].chain);
    }
  }
}
