/**
 Every run of writes on a FAT32 volume. Complete writes refine writes on plain byte
 sequences. A write that runs out of space keeps the recorded size, but not the bytes it has
 put behind it; it refines its part inside the file exactly if those bytes are zeros.
 */
module Fat32Runs {
  import opened Machine
  import opened Fat32Spec

  // ------------------------------------------------- a write that runs out of space

  /** The bytes from the offset on that the chain holds once it has taken every free cluster. */
  ghost function Room(v: Vol, cs: seq<nat>, off: nat): nat
  {
    Monus(Times(|cs| + |FreeSet(v)|, v.size), off)
  }

  /** What a write has to hold where it reaches beyond the recorded size, within the clusters of
      the file and the free ones, to leave only zeros there. */
  ghost predicate ZerosBehind(v: Vol, f: File, off: nat, buf: seq<Byte>)
  {
    forall k | 0 <= k < |buf| && f.size <= off + k < Times(|f.chain| + |FreeSet(v)|, v.size) :: buf[k] == 0
  }

  /** What a write cut short after w bytes has put beyond the recorded size is zeros. */
  ghost predicate Harmless(size: nat, off: nat, buf: seq<Byte>, w: nat)
  {
    w <= |buf| && forall k | 0 <= k < w && off + k >= size :: buf[k] == 0
  }

  /** A write that runs out of space has filled the room there was, and keeps the recorded
      size. The file is then sound, with zeros behind its end, exactly if the request holds zeros
      where it reaches beyond the size in that room, which shows before the call; and the bytes
      inside the size are overwritten in any case. */
  lemma CutShortIff(v: Vol, f: File, v': Vol, cs': seq<nat>, off: nat, buf: seq<Byte>)
    requires VolOk(v) && FileOk(v, f) && Wrote(v, f.chain, v', cs', off, buf, Room(v, f.chain, off))
    ensures f.size <= |Content(v', cs')|
    ensures FileOk(v', File(cs', f.size)) <==> ZerosBehind(v, f, off, buf)
    ensures Content(v', cs')[..f.size] == Overwrite(Bytes(v, f), off, buf[..Room(v, f.chain, off)])[..f.size]
  {
    CutAtIff(v, f, v', cs', off, buf, Room(v, f.chain, off));
    HarmlessIff(v, f, off, buf);
  }

  lemma HarmlessIff(v: Vol, f: File, off: nat, buf: seq<Byte>)
    requires Room(v, f.chain, off) <= |buf|
    ensures Harmless(f.size, off, buf, Room(v, f.chain, off)) <==> ZerosBehind(v, f, off, buf)
  {
  }

  /** A write cut short after any number of bytes. */
  lemma CutAtIff(v: Vol, f: File, v': Vol, cs': seq<nat>, off: nat, buf: seq<Byte>, w: nat)
    requires VolOk(v) && FileOk(v, f) && Wrote(v, f.chain, v', cs', off, buf, w)
    ensures f.size <= |Content(v', cs')|
    ensures FileOk(v', File(cs', f.size)) <==> Harmless(f.size, off, buf, w)
    ensures Content(v', cs')[..f.size] == Overwrite(Bytes(v, f), off, buf[..w])[..f.size]
  {
    CutShortBytes(Content(v, f.chain), Times(|cs'| - |f.chain|, v.size), f.size, off, buf, w);
  }

  lemma OverwriteLength(s: seq<Byte>, off: nat, x: seq<Byte>)
    ensures |Overwrite(s, off, x)| == Max(|s|, off + |x|)
  {
  }

  lemma CutShortBytes(before: seq<Byte>, z: nat, size: nat, off: nat, buf: seq<Byte>, w: nat)
    requires size <= |before| && w <= |buf| && (w > 0 ==> off + w <= |before| + z)
    requires forall k | size <= k < |before| :: before[k] == 0
    ensures var now := Patched(before + Zeros(z), off, buf[..w]);
            && |now| == |before| + z
            && ((forall k | size <= k < |now| :: now[k] == 0) <==> Harmless(size, off, buf, w))
            && now[..size] == Overwrite(before[..size], off, buf[..w])[..size]
  {
    var base := before + Zeros(z);
    var now := Patched(base, off, buf[..w]);
    OverwriteLength(before[..size], off, buf[..w]);
    if w == 0 {
      assert now == base;
      OverwriteNothing(before[..size], off);
    } else {
      PatchIsZeroIff(base, size, off, buf, w);
      SpliceIsOverwrite(base, before, size, off, buf[..w]);
      var size' := Max(size, off + w);
      assert now[..size] == now[..size'][..size];
    }
  }

  lemma OverwriteNothing(s: seq<Byte>, off: nat)
    ensures |Overwrite(s, off, [])| >= |s| && Overwrite(s, off, [])[..|s|] == s
  {
  }

  lemma PatchIsZeroIff(base: seq<Byte>, size: nat, off: nat, buf: seq<Byte>, w: nat)
    requires 0 < w <= |buf| && off + w <= |base| && forall k | size <= k < |base| :: base[k] == 0
    ensures (forall k | size <= k < |base| :: Splice(base, off, buf[..w])[k] == 0) <==> Harmless(size, off, buf, w)
  {
    var now := Splice(base, off, buf[..w]);
    assert forall k | 0 <= k < w :: now[off + k] == buf[k];
    if forall k | size <= k < |base| :: now[k] == 0 {
      forall k | 0 <= k < w && off + k >= size
        ensures buf[k] == 0
      {
        assert now[off + k] == buf[k];
      }
    } else {
      var k :| size <= k < |base| && now[k] != 0;
      assert off <= k < off + w;
      assert buf[k - off] != 0;
    }
  }

  /** A byte left behind the recorded size shows up in the gap of a later write beyond it,
      where the file would read as zero. */
  lemma LeftoverExposed(v: Vol, f: File, v1: Vol, cs1: seq<nat>, off: nat, buf: seq<Byte>, w: nat, k: nat,
                        v2: Vol, cs2: seq<nat>, off2: nat, buf2: seq<Byte>)
    requires VolOk(v) && FileOk(v, f) && Wrote(v, f.chain, v1, cs1, off, buf, w)
    requires k < w && off + k >= f.size && off + k < off2
    requires Wrote(v1, cs1, v2, cs2, off2, buf2, |buf2|) && off2 + |buf2| <= |Content(v2, cs2)|
    ensures off + k < |Content(v2, cs2)| && Content(v2, cs2)[off + k] == buf[k]
    ensures off + k < |Overwrite(Content(v1, cs1)[..f.size], off2, buf2)|
    ensures Overwrite(Content(v1, cs1)[..f.size], off2, buf2)[off + k] == 0
  {
    WrittenByte(v, f.chain, v1, cs1, off, buf, w, k);
    EarlierByte(v1, cs1, v2, cs2, off2, buf2, |buf2|, off + k);
    OverwriteGap(Content(v1, cs1)[..f.size], off2, buf2, off + k);
  }

  lemma WrittenByte(v: Vol, cs: seq<nat>, v': Vol, cs': seq<nat>, off: nat, buf: seq<Byte>, w: nat, k: nat)
    requires Wrote(v, cs, v', cs', off, buf, w) && k < w
    ensures off + k < |Content(v', cs')| && Content(v', cs')[off + k] == buf[k]
  {
    SpliceAt(Grown(v, cs, |cs'| - |cs|), off, buf[..w], off + k);
  }

  lemma EarlierByte(v: Vol, cs: seq<nat>, v': Vol, cs': seq<nat>, off: nat, buf: seq<Byte>, w: nat, i: nat)
    requires Wrote(v, cs, v', cs', off, buf, w) && i < |Content(v, cs)| && i < off
    ensures i < |Content(v', cs')| && Content(v', cs')[i] == Content(v, cs)[i]
  {
    if w > 0 {
      SpliceAt(Grown(v, cs, |cs'| - |cs|), off, buf[..w], i);
    }
  }

  lemma SpliceAt(s: seq<Byte>, off: nat, x: seq<Byte>, i: nat)
    requires off + |x| <= |s| && i < |s| && i < off + |x|
    ensures Splice(s, off, x)[i] == if i < off then s[i] else x[i - off]
  {
  }

  lemma OverwriteGap(s: seq<Byte>, off: nat, x: seq<Byte>, i: nat)
    requires |s| <= i < off
    ensures i < |Overwrite(s, off, x)| && Overwrite(s, off, x)[i] == 0
  {
  }

  // ------------------------------------------------------------------- every history

  datatype WriteCall = WriteCall(file: nat, off: nat, buf: seq<Byte>)

  /** A call of which the first w bytes were written; only a complete one moves the size. */
  datatype Attempt = Attempt(call: WriteCall, w: nat, complete: bool)

  datatype Disk = Disk(v: Vol, files: map<nat, File>)

  /** One call, from one disk state to the next: complete, or cut short without leaving
      anything but zeros behind the recorded size. */
  ghost predicate Step(s: Disk, a: Attempt, s': Disk)
  {
    && a.call.file in s.files
    && a.call.file in s'.files
    && var f := s.files[a.call.file];
       var f' := s'.files[a.call.file];
       && s'.files == s.files[a.call.file := f']
       && Wrote(s.v, f.chain, s'.v, f'.chain, a.call.off, a.call.buf, a.w)
       && if a.complete
          then Filled(s'.v, f, f', a.call.off, a.call.buf, a.w)
          else f'.size == f.size && Harmless(f.size, a.call.off, a.call.buf, a.w)
  }

  ghost predicate Filled(v': Vol, f: File, f': File, off: nat, buf: seq<Byte>, w: nat)
    requires forall i | 0 <= i < |f'.chain| :: f'.chain[i] < |v'.data|
  {
    w == |buf| && off + |buf| <= |Content(v', f'.chain)| && f'.size == Max(f.size, off + |buf|)
  }

  /** The files are sound and read as the given byte sequences. */
  ghost predicate Reads(s: Disk, m: map<nat, seq<Byte>>)
  {
    && FilesOk(s.v, s.files)
    && m.Keys == s.files.Keys
    && forall f | f in s.files :: m[f] == Bytes(s.v, s.files[f])
  }

  lemma StepEffect(v: Vol, files: map<nat, File>, f: nat, v': Vol, f': File, off: nat, buf: seq<Byte>)
    requires FilesOk(v, files) && f in files
    requires Wrote(v, files[f].chain, v', f'.chain, off, buf, |buf|)
    requires off + |buf| <= |Content(v', f'.chain)| && f'.size == Max(files[f].size, off + |buf|)
    ensures FilesOk(v', files[f := f'])
    ensures Bytes(v', f') == Overwrite(Bytes(v, files[f]), off, buf)
    ensures forall g | g in files && g != f ::
              FileOk(v', files[g]) && Bytes(v', files[g]) == Bytes(v, files[g])
  {
    WriteReadsBack(v, files[f], v', f'.chain, off, buf);
    assert f' == File(f'.chain, Max(files[f].size, off + |buf|));
    WriteKeepsFiles(v, files, f, v', f', off, buf, |buf|);
  }

  /** What a call does to a byte sequence. */
  ghost function Effect(m: seq<Byte>, a: Attempt): (r: seq<Byte>)
  {
    var r := Overwrite(m, a.call.off, a.call.buf[..Min(a.w, |a.call.buf|)]);
    if a.complete then r else r[..|m|]
  }

  lemma CutShortEffect(v: Vol, files: map<nat, File>, f: nat, v': Vol, f': File, off: nat, buf: seq<Byte>, w: nat)
    requires FilesOk(v, files) && f in files
    requires Wrote(v, files[f].chain, v', f'.chain, off, buf, w)
    requires f'.size == files[f].size && Harmless(f'.size, off, buf, w)
    ensures FilesOk(v', files[f := f'])
    ensures Bytes(v', f') == Overwrite(Bytes(v, files[f]), off, buf[..w])[..files[f].size]
    ensures forall g | g in files && g != f ::
              FileOk(v', files[g]) && Bytes(v', files[g]) == Bytes(v, files[g])
  {
    CutAtIff(v, files[f], v', f'.chain, off, buf, w);
    assert f' == File(f'.chain, files[f].size);
    WriteKeepsFiles(v, files, f, v', f', off, buf, w);
  }

  ghost function Noted(m: map<nat, seq<Byte>>, a: Attempt): map<nat, seq<Byte>>
  {
    if a.call.file in m then m[a.call.file := Effect(m[a.call.file], a)] else m
  }

  lemma StepRefines(s: Disk, a: Attempt, s': Disk, m: map<nat, seq<Byte>>)
    requires Reads(s, m) && Step(s, a, s')
    ensures a.call.file in m && Reads(s', Noted(m, a))
  {
    var f, c := a.call.file, a.call;
    if a.complete {
      assert c.buf[..|c.buf|] == c.buf;
      StepEffect(s.v, s.files, f, s'.v, s'.files[f], c.off, c.buf);
    } else {
      CutShortEffect(s.v, s.files, f, s'.v, s'.files[f], c.off, c.buf, a.w);
    }
    NowReads(s, f, s', m, Effect(m[f], a));
  }

  lemma NowReads(s: Disk, f: nat, s': Disk, m: map<nat, seq<Byte>>, bytes: seq<Byte>)
    requires Reads(s, m) && FilesOk(s'.v, s'.files)
    requires f in s.files && f in s'.files && s'.files == s.files[f := s'.files[f]]
    requires Bytes(s'.v, s'.files[f]) == bytes
    requires forall g | g in s.files && g != f ::
               FileOk(s'.v, s.files[g]) && Bytes(s'.v, s.files[g]) == Bytes(s.v, s.files[g])
    ensures Reads(s', m[f := bytes])
  {
    forall g | g in s'.files
      ensures m[f := bytes][g] == Bytes(s'.v, s'.files[g])
    {
      assert FileOk(s'.v, s'.files[g]);
      assert g != f ==> s'.files[g] == s.files[g] && m[g] == Bytes(s.v, s.files[g]);
    }
  }

  /** The byte sequences after a list of writes. */
  ghost function Replay(m: map<nat, seq<Byte>>, calls: seq<Attempt>): map<nat, seq<Byte>>
    decreases |calls|
  {
    if calls == [] then m else Replay(Noted(m, calls[0]), calls[1..])
  }

  ghost predicate Steps(states: seq<Disk>, calls: seq<Attempt>)
    decreases |calls|
  {
    |states| == |calls| + 1
    && (calls == [] || (Step(states[0], calls[0], states[1]) && Steps(states[1..], calls[1..])))
  }

  /** Every run of writes, complete or cut short with nothing but zeros left behind, keeps all
      chains sound and disjoint and reads back as the writes replayed on plain byte
      sequences. */
  lemma {:induction false} RunRefines(states: seq<Disk>, calls: seq<Attempt>, m: map<nat, seq<Byte>>)
    requires Steps(states, calls) && Reads(states[0], m)
    ensures Reads(states[|calls|], Replay(m, calls))
    decreases |calls|
  {
    if calls != [] {
      StepRefines(states[0], calls[0], states[1], m);
      RunRefines(states[1..], calls[1..], Noted(m, calls[0]));
    }
  }

  // ------------------------------------------------------ chains under every write

  /** Sound chains with no cluster in common, whatever their bytes. */
  ghost predicate ChainsOk(v: Vol, chains: map<nat, seq<nat>>)
  {
    && VolOk(v)
    && (forall f | f in chains :: Chain(v, chains[f]))
    && (forall f, g, c | f in chains && g in chains && c in chains[f] && c in chains[g] :: f == g)
  }

  datatype Layout = Layout(v: Vol, chains: map<nat, seq<nat>>)

  ghost predicate Attempted(s: Layout, a: Attempt, s': Layout)
  {
    && a.call.file in s.chains
    && a.call.file in s'.chains
    && s'.chains == s.chains[a.call.file := s'.chains[a.call.file]]
    && Wrote(s.v, s.chains[a.call.file], s'.v, s'.chains[a.call.file], a.call.off, a.call.buf, a.w)
  }

  lemma AttemptKeepsChains(s: Layout, a: Attempt, s': Layout)
    requires ChainsOk(s.v, s.chains) && Attempted(s, a, s')
    ensures ChainsOk(s'.v, s'.chains)
    ensures forall g | g in s.chains && g != a.call.file ::
              g in s'.chains && s'.chains[g] == s.chains[g] && Content(s'.v, s.chains[g]) == Content(s.v, s.chains[g])
  {
    forall g | g in s.chains && g != a.call.file
      ensures Chain(s'.v, s.chains[g]) && Content(s'.v, s.chains[g]) == Content(s.v, s.chains[g])
      ensures forall c | c in s.chains[g] :: c !in s'.chains[a.call.file]
    {
      OtherSafe(s, a, s', g);
    }
  }

  lemma OtherSafe(s: Layout, a: Attempt, s': Layout, g: nat)
    requires ChainsOk(s.v, s.chains) && Attempted(s, a, s') && g in s.chains && g != a.call.file
    ensures Chain(s'.v, s.chains[g]) && Content(s'.v, s.chains[g]) == Content(s.v, s.chains[g])
    ensures forall c | c in s.chains[g] :: c !in s'.chains[a.call.file]
  {
    var f := a.call.file;
    OtherChainSafe(s.v, s.chains[f], s'.v, s'.chains[f], a.call.off, a.call.buf, a.w, s.chains[g]);
  }

  /** Every run of writes, complete or cut short at any byte, keeps all chains acyclic
      and disjoint, and leaves alone every byte of the files it does not name. */
  lemma {:induction false} EveryRunKeepsChains(states: seq<Layout>, calls: seq<Attempt>, g: nat)
    requires |states| == |calls| + 1
    requires ChainsOk(states[0].v, states[0].chains) && g in states[0].chains
    requires forall i | 0 <= i < |calls| :: Attempted(states[i], calls[i], states[i + 1])
    ensures ChainsOk(states[|calls|].v, states[|calls|].chains)
    ensures g in states[|calls|].chains
    ensures (forall i | 0 <= i < |calls| :: calls[i].call.file != g) ==>
              && states[|calls|].chains[g] == states[0].chains[g]
              && Content(states[|calls|].v, states[|calls|].chains[g]) == Content(states[0].v, states[0].chains[g])
    decreases |calls|
  {
    if calls != [] {
      var n := |calls| - 1;
      EveryRunKeepsChains(states[..n + 1], calls[..n], g);
      assert Attempted(states[n], calls[n], states[n + 1]);
      AttemptKeepsChains(states[n], calls[n], states[n + 1]);
    }
  }
}
