/**
 The FAT and cluster primitives of fs/fat32.c on a disk of 512-byte sectors. A FAT
 entry is four little-endian bytes of which the low 28 bits are the link; a cluster is
 a run of sectors. Each method is a read-modify-write of whole sectors and is proved to
 do one thing to the abstract volume.
 */
module Fat32Volume {
  import opened Machine
  import opened Fat32Spec

  const SECTOR: nat := 512
  const ENTRIES: nat := 128       // FAT entries in a sector
  const LINK_BITS: nat := 0x1000_0000

  type Sector = seq<Byte>

  // -------------------------------------------------------------------- FAT entries

  /** The 32-bit little-endian word at entry i of a FAT sector. */
  function Word(s: Sector, i: nat): (w: nat)
    requires |s| == SECTOR && i < ENTRIES
    ensures w < U32
  {
    var b0: int, b1: int, b2: int, b3: int := s[4 * i], s[4 * i + 1], s[4 * i + 2], s[4 * i + 3];
    b0 + 0x100 * b1 + 0x1_0000 * b2 + 0x100_0000 * b3
  }

  function SetWord(s: Sector, i: nat, w: nat): (t: Sector)
    requires |s| == SECTOR && i < ENTRIES && w < U32
    ensures |t| == SECTOR
  {
    s[4 * i := w % 0x100]
     [4 * i + 1 := w / 0x100 % 0x100]
     [4 * i + 2 := w / 0x1_0000 % 0x100]
     [4 * i + 3 := w / 0x100_0000]
  }

  lemma WordRoundTrip(s: Sector, i: nat, w: nat, k: nat)
    requires |s| == SECTOR && i < ENTRIES && k < ENTRIES && w < U32
    ensures Word(SetWord(s, i, w), k) == if k == i then w else Word(s, k)
  {
    var t := SetWord(s, i, w);
    if k == i {
      assert t[4 * i] == w % 0x100 && t[4 * i + 1] == w / 0x100 % 0x100;
      assert t[4 * i + 2] == w / 0x1_0000 % 0x100 && t[4 * i + 3] == w / 0x100_0000;
      FourBytes(w);
    } else {
      assert t[4 * k] == s[4 * k] && t[4 * k + 1] == s[4 * k + 1];
      assert t[4 * k + 2] == s[4 * k + 2] && t[4 * k + 3] == s[4 * k + 3];
    }
  }

  lemma FourBytes(w: nat)
    ensures w == w % 0x100 + 0x100 * (w / 0x100 % 0x100) + 0x1_0000 * (w / 0x1_0000 % 0x100) + 0x100_0000 * (w / 0x100_0000)
  {
    var a := w / 0x100;
    var b := a / 0x100;
    assert b == w / 0x1_0000 && b / 0x100 == w / 0x100_0000;
  }

  /** The link in an entry; the top four bits are reserved. */
  function LinkOf(s: Sector, i: nat): nat
    requires |s| == SECTOR && i < ENTRIES
  {
    Word(s, i) % LINK_BITS
  }

  /** A new link under the reserved bits of the old word. */
  function Relink(w: nat, link: nat): (r: nat)
    requires w < U32
    ensures r < U32 && r % LINK_BITS == link % LINK_BITS && r / LINK_BITS == w / LINK_BITS
  {
    w / LINK_BITS * LINK_BITS + link % LINK_BITS
  }

  // ----------------------------------------------------------------- geometry, view

  /** The bytes in a number of sectors, and the FAT entries in them. */
  function BytesIn(sectors: nat): nat
  {
    512 * sectors
  }

  function EntriesIn(sectors: nat): nat
  {
    128 * sectors
  }

  /** `fatSectors` is one copy of the FAT; the data area starts `areaSectors` behind
      the first FAT sector, after all copies. */
  datatype Geometry = Geometry(firstFat: nat, fatSectors: nat, areaSectors: nat, perCluster: nat)

  function Clusters(g: Geometry): nat
  {
    EntriesIn(g.fatSectors)
  }

  function FirstData(g: Geometry): nat
  {
    g.firstFat + g.areaSectors
  }

  /** The first sector of a cluster. */
  function Lba(g: Geometry, c: nat): nat
  {
    if c < 2 then FirstData(g) else FirstData(g) + Times(c - 2, g.perCluster)
  }

  ghost predicate Fits(g: Geometry, d: seq<Sector>)
  {
    && 0 < g.fatSectors <= g.areaSectors
    && 0 < g.perCluster
    && Clusters(g) <= CLUSTER_EOF
    && (forall c {:trigger Lba(g, c)} | 2 <= c < Clusters(g) :: Lba(g, c) + g.perCluster <= |d|)
    && FirstData(g) <= |d|
    && (forall i | 0 <= i < |d| :: |d[i]| == SECTOR)
  }

  ghost function Flat(ss: seq<Sector>): seq<Byte>
  {
    if ss == [] then [] else ss[0] + Flat(ss[1..])
  }

  ghost function NextAt(g: Geometry, d: seq<Sector>, c: nat): nat
    requires Fits(g, d) && c < Clusters(g)
  {
    LinkOf(d[g.firstFat + c / 128], c % 128)
  }

  ghost function SectorsAt(g: Geometry, d: seq<Sector>, c: nat): (ss: seq<Sector>)
    requires Fits(g, d) && 2 <= c < Clusters(g)
    ensures |ss| == g.perCluster && forall i | 0 <= i < |ss| :: |ss[i]| == SECTOR
  {
    d[Lba(g, c)..Lba(g, c) + g.perCluster]
  }

  ghost function DataAt(g: Geometry, d: seq<Sector>, c: nat): seq<Byte>
    requires Fits(g, d) && c < Clusters(g)
  {
    if c < 2 then [] else Flat(SectorsAt(g, d, c))
  }

  /** The disk holds this volume. */
  ghost predicate Mirrors(g: Geometry, d: seq<Sector>, v: Vol)
  {
    && Fits(g, d)
    && |v.next| == |v.data| == Clusters(g) && v.size == BytesIn(g.perCluster)
    && (forall c {:trigger NextAt(g, d, c)} | 0 <= c < Clusters(g) :: v.next[c] == NextAt(g, d, c))
    && (forall c {:trigger DataAt(g, d, c)} | 0 <= c < Clusters(g) :: v.data[c] == DataAt(g, d, c))
  }

  lemma {:induction false} FlatLength(ss: seq<Sector>)
    requires forall i | 0 <= i < |ss| :: |ss[i]| == SECTOR
    ensures |Flat(ss)| == BytesIn(|ss|)
  {
    if ss != [] {
      FlatLength(ss[1..]);
    }
  }

  lemma MirrorLength(g: Geometry, d: seq<Sector>, v: Vol, c: nat)
    requires Mirrors(g, d, v) && 2 <= c < Clusters(g)
    ensures |v.data[c]| == v.size == BytesIn(g.perCluster)
  {
    assert v.data[c] == DataAt(g, d, c);
    FlatLength(SectorsAt(g, d, c));
  }

  lemma MirrorOk(g: Geometry, d: seq<Sector>, v: Vol)
    requires Mirrors(g, d, v)
    ensures VolOk(v)
  {
    forall c | 2 <= c < |v.data|
      ensures |v.data[c]| == v.size
    {
      MirrorLength(g, d, v, c);
    }
  }

  /** Different clusters have no sector in common, and none in the FAT. */
  lemma ClustersApart(g: Geometry, b: nat, c: nat)
    requires 2 <= b < c
    ensures FirstData(g) <= Lba(g, b) && Lba(g, b) + g.perCluster <= Lba(g, c)
  {
    TimesOrder(g.perCluster, b - 2, c - 2);
  }

  // ------------------------------------------------------------------ writing sectors

  lemma StillFits(g: Geometry, d: seq<Sector>, at: nat, t: Sector)
    requires Fits(g, d) && at < |d| && |t| == SECTOR
    ensures Fits(g, d[at := t])
  {
  }

  /** A write before the data area leaves every cluster's bytes. */
  lemma DataAway(g: Geometry, d: seq<Sector>, at: nat, t: Sector, c: nat)
    requires Fits(g, d) && at < FirstData(g) && |t| == SECTOR && c < Clusters(g) && Fits(g, d[at := t])
    ensures DataAt(g, d[at := t], c) == DataAt(g, d, c)
  {
    if c >= 2 {
      assert SectorsAt(g, d[at := t], c) == SectorsAt(g, d, c);
    }
  }

  /** Writing one entry of a FAT sector sets one link. */
  lemma EntryWritten(g: Geometry, d: seq<Sector>, v: Vol, c: nat, w: nat)
    requires Mirrors(g, d, v) && c < Clusters(g) && w < U32
    ensures var i := g.firstFat + c / 128;
            Mirrors(g, d[i := SetWord(d[i], c % 128, w)], LinkTo(v, c, w % LINK_BITS))
  {
    var i := g.firstFat + c / 128;
    var t := SetWord(d[i], c % 128, w);
    var d', v' := d[i := t], LinkTo(v, c, w % LINK_BITS);
    StillFits(g, d, i, t);
    forall b | 0 <= b < Clusters(g)
      ensures v'.next[b] == NextAt(g, d', b)
    {
      LinkWritten(g, d, c, w, b);
      assert v.next[b] == NextAt(g, d, b);
    }
    forall b | 0 <= b < Clusters(g)
      ensures v'.data[b] == DataAt(g, d', b)
    {
      DataAway(g, d, i, t, b);
      assert v.data[b] == DataAt(g, d, b);
    }
  }

  lemma LinkWritten(g: Geometry, d: seq<Sector>, c: nat, w: nat, b: nat)
    requires Fits(g, d) && c < Clusters(g) && w < U32 && b < Clusters(g)
    requires Fits(g, d[g.firstFat + c / 128 := SetWord(d[g.firstFat + c / 128], c % 128, w)])
    ensures NextAt(g, d[g.firstFat + c / 128 := SetWord(d[g.firstFat + c / 128], c % 128, w)], b)
            == if b == c then w % LINK_BITS else NextAt(g, d, b)
  {
    WordRoundTrip(d[g.firstFat + c / 128], c % 128, w, b % 128);
  }

  lemma {:induction false} FlatPatch(ss: seq<Sector>, s: nat, t: Sector)
    requires s < |ss| && |t| == SECTOR && forall i | 0 <= i < |ss| :: |ss[i]| == SECTOR
    ensures BytesIn(s) + SECTOR <= |Flat(ss)|
    ensures Flat(ss[s := t]) == Splice(Flat(ss), BytesIn(s), t)
  {
    FlatLength(ss);
    FlatLength(ss[1..]);
    if s == 0 {
      assert ss[0 := t][1..] == ss[1..];
      SpliceLeft(ss[0], Flat(ss[1..]), 0, t);
      assert Splice(ss[0], 0, t) == t;
    } else {
      assert ss[s := t][1..] == ss[1..][s - 1 := t];
      FlatPatch(ss[1..], s - 1, t);
      SpliceRight(ss[0], Flat(ss[1..]), BytesIn(s - 1), t);
    }
  }

  lemma {:induction false} FlatSector(ss: seq<Sector>, s: nat)
    requires s < |ss| && forall i | 0 <= i < |ss| :: |ss[i]| == SECTOR
    ensures BytesIn(s) + SECTOR <= |Flat(ss)|
    ensures Flat(ss)[BytesIn(s)..BytesIn(s) + SECTOR] == ss[s]
  {
    FlatLength(ss);
    FlatLength(ss[1..]);
    var tail := Flat(ss[1..]);
    if s == 0 {
      assert (ss[0] + tail)[0..SECTOR] == ss[0];
    } else {
      FlatSector(ss[1..], s - 1);
      SliceRight(ss[0], tail, BytesIn(s - 1), SECTOR);
    }
  }

  lemma SliceRight(a: seq<Byte>, b: seq<Byte>, o: nat, n: nat)
    requires o + n <= |b|
    ensures (a + b)[|a| + o..|a| + o + n] == b[o..o + n]
  {
  }

  /** Writing a data sector leaves the links and every other cluster alone. */
  lemma OthersKept(g: Geometry, d: seq<Sector>, c: nat, s: nat, t: Sector, b: nat)
    requires Fits(g, d) && 2 <= c < Clusters(g) && s < g.perCluster && |t| == SECTOR && b < Clusters(g)
    requires Lba(g, c) + s < |d| && Fits(g, d[Lba(g, c) + s := t])
    ensures NextAt(g, d[Lba(g, c) + s := t], b) == NextAt(g, d, b)
    ensures b != c ==> DataAt(g, d[Lba(g, c) + s := t], b) == DataAt(g, d, b)
  {
    assert g.firstFat + b / 128 < Lba(g, c);
    if b >= 2 && b != c {
      if b < c {
        ClustersApart(g, b, c);
      } else {
        ClustersApart(g, c, b);
      }
      assert SectorsAt(g, d[Lba(g, c) + s := t], b) == SectorsAt(g, d, b);
    }
  }

  /** Writing a data sector rewrites that part of one cluster. */
  lemma DataSectorWritten(g: Geometry, d: seq<Sector>, v: Vol, c: nat, s: nat, t: Sector)
    requires Mirrors(g, d, v) && 2 <= c < Clusters(g) && s < g.perCluster && |t| == SECTOR
    ensures Lba(g, c) + s < |d| && BytesIn(s) + SECTOR <= |v.data[c]|
    ensures Mirrors(g, d[Lba(g, c) + s := t], v.(data := v.data[c := Splice(v.data[c], BytesIn(s), t)]))
  {
    var at := Lba(g, c) + s;
    var d' := d[at := t];
    StillFits(g, d, at, t);
    assert v.data[c] == DataAt(g, d, c);
    FlatPatch(SectorsAt(g, d, c), s, t);
    assert SectorsAt(g, d', c) == SectorsAt(g, d, c)[s := t];
    var v' := v.(data := v.data[c := Splice(v.data[c], BytesIn(s), t)]);
    forall b | 0 <= b < Clusters(g)
      ensures v'.next[b] == NextAt(g, d', b) && v'.data[b] == DataAt(g, d', b)
    {
      OthersKept(g, d, c, s, t, b);
      assert v.next[b] == NextAt(g, d, b) && v.data[b] == DataAt(g, d, b);
    }
  }

  /** A sector of a cluster is the corresponding part of its bytes. */
  lemma SectorOf(g: Geometry, d: seq<Sector>, v: Vol, c: nat, s: nat)
    requires Mirrors(g, d, v) && 2 <= c < Clusters(g) && s < g.perCluster
    ensures Lba(g, c) + s < |d| && BytesIn(s) + SECTOR <= |v.data[c]|
    ensures d[Lba(g, c) + s] == v.data[c][BytesIn(s)..BytesIn(s) + SECTOR]
  {
    assert v.data[c] == DataAt(g, d, c);
    assert SectorsAt(g, d, c)[s] == d[Lba(g, c) + s];
    FlatSector(SectorsAt(g, d, c), s);
  }

  /** Patching part of a sector in place is patching that part of the cluster. */
  lemma SectorPatch(d: seq<Byte>, a: nat, b: nat, y: seq<Byte>)
    requires a + SECTOR <= |d| && b + |y| <= SECTOR
    ensures Splice(d, a, Splice(d[a..a + SECTOR], b, y)) == Splice(d, a + b, y)
  {
  }

  /** Writing into one sector is writing into the cluster at that place. */
  lemma SectorPatched(g: Geometry, d: seq<Sector>, v: Vol, c: nat, s: nat, b: nat, y: seq<Byte>)
    requires Mirrors(g, d, v) && 2 <= c < Clusters(g) && s < g.perCluster && b + |y| <= SECTOR
    ensures Lba(g, c) + s < |d| && |d[Lba(g, c) + s]| == SECTOR && BytesIn(s) + b + |y| <= |v.data[c]|
    ensures Mirrors(g, d[Lba(g, c) + s := Splice(d[Lba(g, c) + s], b, y)], PatchCluster(v, c, BytesIn(s) + b, y))
  {
    SectorOf(g, d, v, c, s);
    SectorWritten(g, d, v, c, s, b, y, d[Lba(g, c) + s]);
  }

  lemma SectorWritten(g: Geometry, d: seq<Sector>, v: Vol, c: nat, s: nat, b: nat, y: seq<Byte>, x: Sector)
    requires Mirrors(g, d, v) && 2 <= c < Clusters(g) && s < g.perCluster && b + |y| <= SECTOR
    requires BytesIn(s) + SECTOR <= |v.data[c]| && x == v.data[c][BytesIn(s)..BytesIn(s) + SECTOR]
    ensures Lba(g, c) + s < |d|
    ensures Mirrors(g, d[Lba(g, c) + s := Splice(x, b, y)], PatchCluster(v, c, BytesIn(s) + b, y))
  {
    var v' := v.(data := v.data[c := Splice(v.data[c], BytesIn(s), Splice(x, b, y))]);
    assert PatchCluster(v, c, BytesIn(s) + b, y) == v' by {
      PatchedAs(v, c, BytesIn(s), b, y, x);
    }
    DataSectorWritten(g, d, v, c, s, Splice(x, b, y));
  }

  lemma PatchedAs(v: Vol, c: nat, a: nat, b: nat, y: seq<Byte>, x: seq<Byte>)
    requires c < |v.data| && a + SECTOR <= |v.data[c]| && b + |y| <= SECTOR && x == v.data[c][a..a + SECTOR]
    ensures PatchCluster(v, c, a + b, y) == v.(data := v.data[c := Splice(v.data[c], a, Splice(x, b, y))])
  {
    SectorPatch(v.data[c], a, b, y);
  }

  lemma MaskLink(w: nat)
    ensures BitAnd(w, 0x0FFF_FFFF) == w % LINK_BITS
  {
    TwoTo28();
    MaskIsMod(w, 28);
  }

  lemma TwoTo28()
    ensures Pow2(28) == LINK_BITS
  {
    assert Pow2(7) == 128;
    assert Pow2(14) == 16384 by {
      assert Pow2(14) == 128 * Pow2(7);
    }
    assert Pow2(21) == 128 * Pow2(14);
    assert Pow2(28) == 128 * Pow2(21);
  }

  /** Where the driver finds the entry of a cluster. */
  lemma EntryPosition(c: nat)
    ensures c * 4 / 512 == c / 128 && c * 4 % 512 / 4 == c % 128
  {
  }

  // ---------------------------------------------------------------------- the disk

  class Volume {
    const disk: array<Sector>
    const g: Geometry
    ghost var v: Vol          // what the disk holds

    ghost predicate Valid()
      reads this, disk
    {
      Mirrors(g, disk[..], v)
    }

    ghost function View(): Vol
      reads this
    {
      v
    }

    constructor (disk: array<Sector>, g: Geometry, ghost v: Vol)
      requires Mirrors(g, disk[..], v)
      ensures Valid() && this.disk == disk && View() == v
    {
      this.disk, this.g, this.v := disk, g, v;
    }

    /** get_next_cluster. */
    method GetNext(c: nat) returns (next: nat)
      requires Valid() && c < Clusters(g)
      ensures next == View().next[c]
    {
      var fatOffset := c * 4;
      EntryPosition(c);
      var sector := disk[g.firstFat + fatOffset / SECTOR];
      var word := Word(sector, fatOffset % SECTOR / 4);
      MaskLink(word);
      next := BitAnd(word, 0x0FFF_FFFF);
      assert v.next[c] == NextAt(g, disk[..], c);
    }

    /** set_next_cluster. */
    method SetNext(c: nat, next: nat)
      requires Valid() && c < Clusters(g) && next < LINK_BITS
      modifies this`v, disk
      ensures Valid() && View() == LinkTo(old(View()), c, next)
    {
      var fatOffset := c * 4;
      EntryPosition(c);
      PutLink(c, g.firstFat + fatOffset / SECTOR, fatOffset % SECTOR / 4, next);
    }

    /** Rewrite the sector with one link replaced, keeping the entry's reserved bits. */
    method PutLink(c: nat, at: nat, entry: nat, next: nat)
      requires Valid() && c < Clusters(g) && next < LINK_BITS
      requires at == g.firstFat + c / 128 && entry == c % 128
      modifies this`v, disk
      ensures Valid() && View() == LinkTo(old(View()), c, next)
    {
      ghost var d := disk[..];
      var word := Relink(Word(disk[at], entry), next);
      EntryWritten(g, d, v, c, word);
      disk[at] := SetWord(disk[at], entry, word);
      v := LinkTo(v, c, next);
      assert disk[..] == d[at := SetWord(d[at], entry, word)];
    }

    /** Write one sector of a cluster. */
    method PutSector(c: nat, s: nat, t: Sector)
      requires Valid() && 2 <= c < Clusters(g) && s < g.perCluster && |t| == SECTOR
      modifies this`v, disk
      ensures Valid() && BytesIn(s) + SECTOR <= |old(View()).data[c]|
      ensures View() == old(View()).(data := old(View()).data[c := Splice(old(View()).data[c], BytesIn(s), t)])
    {
      ghost var d := disk[..];
      DataSectorWritten(g, d, v, c, s, t);
      disk[Lba(g, c) + s] := t;
      v := v.(data := v.data[c := Splice(v.data[c], BytesIn(s), t)]);
      assert disk[..] == d[Lba(g, c) + s := t];
    }

    /** Zero every sector of a cluster. */
    method ZeroCluster(c: nat)
      requires Valid() && 2 <= c < Clusters(g)
      modifies this`v, disk
      ensures Valid()
      ensures View() == old(View()).(data := old(View()).data[c := Zeros(old(View()).size)])
    {
      MirrorLength(g, disk[..], v, c);
      ghost var v0, x := v, v.data[c];
      assert v0.data[c := x] == v0.data;
      var sc := 0;
      while sc < g.perCluster
        invariant 0 <= sc <= g.perCluster && |x| == v0.size == BytesIn(g.perCluster)
        invariant Valid() && View() == v0.(data := v0.data[c := x])
        invariant forall k | 0 <= k < BytesIn(sc) :: x[k] == 0
      {
        PutSector(c, sc, Zeros(SECTOR));
        x := Splice(x, BytesIn(sc), Zeros(SECTOR));
        assert v.data == v0.data[c := x];
        sc := sc + 1;
      }
      assert x == Zeros(v0.size);
    }

    /** alloc_cluster: the lowest free cluster, marked as the end of a chain and zeroed;
        0 when there is none. The scan runs over every copy of the FAT, so a free entry
        in the first copy, or a single copy, is needed for it to mean a cluster. */
    method AllocCluster() returns (c: nat)
      requires Valid()
      requires g.areaSectors == g.fatSectors || FreeSet(View()) != {}
      modifies this`v, disk
      ensures Valid()
      ensures c == 0 <==> FreeSet(old(View())) == {}
      ensures c == 0 ==> View() == old(View())
      ensures c != 0 ==>
                && IsFree(old(View()), c) && (forall b | 2 <= b < c :: !IsFree(old(View()), b))
                && View() == Allocate(old(View()), c)
    {
      c := FindFree();
      if c != 0 {
        EntryPosition(c);
        PutLink(c, g.firstFat + c / 128, c % 128, CLUSTER_EOF);
        ZeroCluster(c);
      }
    }

    /** The scan of alloc_cluster. */
    method FindFree() returns (c: nat)
      requires Valid()
      requires g.areaSectors == g.fatSectors || FreeSet(View()) != {}
      ensures c == 0 <==> FreeSet(View()) == {}
      ensures c != 0 ==> c < Clusters(g) && IsFree(View(), c) && forall b | 2 <= b < c :: !IsFree(View(), b)
    {
      var s := 0;
      while s < g.areaSectors
        invariant 0 <= s <= g.fatSectors
        invariant forall b | 2 <= b < EntriesIn(s) :: !IsFree(View(), b)
      {
        NoneLeft(View(), EntriesIn(s));
        var i := FirstFreeEntry(disk[g.firstFat + s], s);
        ScannedSector(g, disk[..], v, s, i);
        if i < ENTRIES {
          c := EntriesIn(s) + i;
          FreeHas(View(), c);
          return;
        }
        s := s + 1;
      }
      NoneLeft(View(), EntriesIn(s));
      return 0;
    }

    /** The inner scan of alloc_cluster over one FAT sector. */
    static method FirstFreeEntry(sector: Sector, s: nat) returns (i: nat)
      requires |sector| == SECTOR
      ensures ScanStops(sector, s, i)
    {
      i := 0;
      while i < ENTRIES
        invariant 0 <= i <= ENTRIES
        invariant forall k | 0 <= k < i :: EntriesIn(s) + k < 2 || LinkOf(sector, k) != CLUSTER_FREE
      {
        if EntriesIn(s) + i >= 2 {
          MaskLink(Word(sector, i));
          if BitAnd(Word(sector, i), 0x0FFF_FFFF) == CLUSTER_FREE {
            return;
          }
        }
        i := i + 1;
      }
    }

    /** The sector loop of fat32_file_write: patch the bytes from `o` on, reading a
        sector first unless it is overwritten whole. */
    method WriteCluster(c: nat, o: nat, x: seq<Byte>)
      requires Valid() && 2 <= c < Clusters(g) && o + |x| <= BytesIn(g.perCluster)
      modifies this`v, disk
      ensures Valid()
      ensures |old(View()).data[c]| == BytesIn(g.perCluster) && View() == PatchCluster(old(View()), c, o, x)
    {
      ghost var v0 := v;
      MirrorLength(g, disk[..], v, c);
      var s: nat, secOffset: nat, written: nat := o / SECTOR, o % SECTOR, 0;
      PatchNothing(v, c, o, x);
      while s < g.perCluster && written < |x|
        invariant InSector(s, secOffset, o, written, |x|)
        invariant Valid() && View() == PatchCluster(v0, c, o, x[..written])
        decreases g.perCluster - s
      {
        var toCopy := SECTOR - secOffset;
        if toCopy > |x| - written {
          toCopy := |x| - written;
        }
        PatchMore(v0, c, o, x, written, toCopy);
        PatchSector(c, s, secOffset, x[written..written + toCopy], |x| - written);
        s, secOffset, written := s + 1, 0, written + toCopy;
      }
      assert x[..written] == x;
    }

    /** Put bytes into one sector of a cluster. `remaining` bytes of the request are left,
        these included; a sector that they fill is not read first. */
    method PatchSector(c: nat, s: nat, secOffset: nat, y: seq<Byte>, remaining: nat)
      requires Valid() && 2 <= c < Clusters(g) && s < g.perCluster && secOffset + |y| <= SECTOR
      requires |y| == Min(SECTOR - secOffset, remaining)
      modifies this`v, disk
      ensures Valid() && BytesIn(s) + secOffset + |y| <= |old(View()).data[c]|
      ensures View() == PatchCluster(old(View()), c, BytesIn(s) + secOffset, y)
    {
      ghost var d := disk[..];
      SectorPatched(g, d, v, c, s, secOffset, y);
      var at := Lba(g, c) + s;
      var sector := y;
      if secOffset > 0 || remaining < SECTOR {
        sector := disk[at][..secOffset] + y + disk[at][secOffset + |y|..];
      }
      assert sector == Splice(d[at], secOffset, y);
      disk[at] := sector;
      v := PatchCluster(v, c, BytesIn(s) + secOffset, y);
      assert disk[..] == d[at := sector];
    }

    /** The sector loop of fat32_file_read. */
    method ReadCluster(c: nat, o: nat, n: nat) returns (bytes: seq<Byte>)
      requires Valid() && 2 <= c < Clusters(g) && o + n <= BytesIn(g.perCluster)
      ensures |View().data[c]| == BytesIn(g.perCluster) && bytes == View().data[c][o..o + n]
    {
      MirrorLength(g, disk[..], v, c);
      ghost var data := v.data[c];
      var s: nat, secOffset: nat := o / SECTOR, o % SECTOR;
      bytes := [];
      while s < g.perCluster && |bytes| < n
        invariant InSector(s, secOffset, o, |bytes|, n)
        invariant bytes == data[o..o + |bytes|]
        decreases g.perCluster - s
      {
        var toCopy := SECTOR - secOffset;
        if toCopy > n - |bytes| {
          toCopy := n - |bytes|;
        }
        var more := ReadSector(c, s, secOffset, toCopy);
        SliceJoin(data, o, o + |bytes|, o + |bytes| + toCopy);
        bytes := bytes + more;
        s, secOffset := s + 1, 0;
      }
    }

    /** Part of sector s of a cluster. */
    method ReadSector(c: nat, s: nat, secOffset: nat, n: nat) returns (bytes: seq<Byte>)
      requires Valid() && 2 <= c < Clusters(g) && s < g.perCluster && secOffset + n <= SECTOR
      ensures BytesIn(s) + secOffset + n <= |View().data[c]| && |bytes| == n
      ensures bytes == View().data[c][BytesIn(s) + secOffset..BytesIn(s) + secOffset + n]
    {
      SectorOf(g, disk[..], v, c, s);
      bytes := disk[Lba(g, c) + s][secOffset..secOffset + n];
      SliceOfSlice(v.data[c], BytesIn(s), SECTOR, secOffset, n);
    }
  }

  /** While bytes are left, the next one is in sector s at this offset. */
  predicate InSector(s: nat, secOffset: nat, o: nat, done: nat, n: nat)
  {
    done <= n && secOffset < SECTOR && (done < n ==> BytesIn(s) + secOffset == o + done)
  }

  /** The scan of FAT sector s stops at the first entry that is free, or at the end. */
  ghost predicate ScanStops(sector: Sector, s: nat, i: nat)
    requires |sector| == SECTOR
  {
    && i <= ENTRIES
    && (i < ENTRIES ==> EntriesIn(s) + i >= 2 && LinkOf(sector, i) == CLUSTER_FREE)
    && (forall k | 0 <= k < i :: EntriesIn(s) + k < 2 || LinkOf(sector, k) != CLUSTER_FREE)
  }

  lemma ScannedSector(g: Geometry, d: seq<Sector>, v: Vol, s: nat, i: nat)
    requires Mirrors(g, d, v) && s < g.fatSectors && ScanStops(d[g.firstFat + s], s, i)
    requires forall b | 2 <= b < EntriesIn(s) :: !IsFree(v, b)
    ensures i < ENTRIES ==> IsFree(v, EntriesIn(s) + i)
    ensures forall b | 2 <= b < EntriesIn(s) + i :: !IsFree(v, b)
  {
    if i < ENTRIES {
      LinkInSector(g, d, v, s, i);
    }
    forall b | 2 <= b < EntriesIn(s) + i
      ensures !IsFree(v, b)
    {
      if b >= EntriesIn(s) {
        LinkInSector(g, d, v, s, b - EntriesIn(s));
      }
    }
  }

  lemma LinkInSector(g: Geometry, d: seq<Sector>, v: Vol, s: nat, k: nat)
    requires Mirrors(g, d, v) && s < g.fatSectors && k < ENTRIES
    ensures EntriesIn(s) + k < Clusters(g) && v.next[EntriesIn(s) + k] == LinkOf(d[g.firstFat + s], k)
  {
    var c := EntriesIn(s) + k;
    assert c / 128 == s && c % 128 == k;
    assert v.next[c] == NextAt(g, d, c);
  }

  lemma PatchNothing(v: Vol, c: nat, o: nat, x: seq<Byte>)
    requires c < |v.data| && o <= |v.data[c]|
    ensures PatchCluster(v, c, o, x[..0]) == v
  {
    assert Splice(v.data[c], o, x[..0]) == v.data[c];
    assert v.data[c := v.data[c]] == v.data;
  }

  lemma PatchMore(v: Vol, c: nat, o: nat, x: seq<Byte>, written: nat, n: nat)
    requires c < |v.data| && o + |x| <= |v.data[c]| && written + n <= |x|
    ensures var w := PatchCluster(v, c, o, x[..written]);
            && |w.data[c]| == |v.data[c]|
            && PatchCluster(w, c, o + written, x[written..written + n]) == PatchCluster(v, c, o, x[..written + n])
  {
    SpliceNext(v.data[c], o, x[..written], x[written..written + n]);
    assert x[..written] + x[written..written + n] == x[..written + n];
  }

  lemma SliceOfSlice(s: seq<Byte>, i: nat, m: nat, j: nat, n: nat)
    requires i + m <= |s| && j + n <= m
    ensures s[i..i + m][j..j + n] == s[i + j..i + j + n]
  {
    var a, b := s[i..i + m][j..j + n], s[i + j..i + j + n];
    assert |a| == |b| == n && forall k | 0 <= k < n :: a[k] == s[i + j + k] == b[k];
  }

  lemma NoneLeft(v: Vol, n: nat)
    requires forall b | 2 <= b < n :: !IsFree(v, b)
    ensures n >= |v.next| ==> FreeSet(v) == {}
  {
    assert forall c | c in FreeSet(v) :: IsFree(v, c);
  }

  lemma FreeHas(v: Vol, c: nat)
    requires IsFree(v, c)
    ensures FreeSet(v) != {}
  {
    assert c in FreeSet(v);
  }
}
