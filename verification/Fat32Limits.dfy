/**
 Where the guarantees of the FAT32 data path end, each shown by a run of the driver on a
 disk: a write that runs out of space leaves bytes that a later write makes readable, and a
 write that ends at 4 GiB leaves a size of zero.
 */
module Fat32Limits {
  import opened Machine
  import opened Fat32Spec
  import opened Fat32Runs
  import opened Fat32Volume
  import opened Fat32File

  // ------------------------------------------------------------- disks with given links

  ghost predicate Sensible(g: Geometry)
  {
    0 < g.fatSectors <= g.areaSectors && 0 < g.perCluster && Clusters(g) <= CLUSTER_EOF
  }

  /** A volume with these links and nothing but zeros in its clusters. */
  ghost function ZeroVol(g: Geometry, next: seq<nat>): Vol
  {
    Vol(next, seq(Clusters(g), c requires 0 <= c < Clusters(g) => if c < 2 then [] else Zeros(BytesIn(g.perCluster))),
        BytesIn(g.perCluster))
  }

  ghost function Unlinked(n: nat): seq<nat>
  {
    seq(n, _ => CLUSTER_FREE)
  }

  ghost function BlankDisk(g: Geometry): seq<Sector>
    requires Sensible(g)
  {
    seq(FirstData(g) + Times(Clusters(g) - 2, g.perCluster), _ => Zeros(SECTOR))
  }

  lemma BlankFits(g: Geometry)
    requires Sensible(g)
    ensures Fits(g, BlankDisk(g))
  {
    forall c | 2 <= c < Clusters(g)
      ensures Lba(g, c) + g.perCluster <= |BlankDisk(g)|
    {
      TimesOrder(g.perCluster, c - 2, Clusters(g) - 2);
    }
  }

  lemma {:induction false} FlatZeros(ss: seq<Sector>)
    requires forall i | 0 <= i < |ss| :: ss[i] == Zeros(SECTOR)
    ensures Flat(ss) == Zeros(BytesIn(|ss|))
  {
    if ss != [] {
      FlatZeros(ss[1..]);
    }
  }

  lemma ZeroLink(i: nat)
    requires i < ENTRIES
    ensures LinkOf(Zeros(SECTOR), i) == CLUSTER_FREE
  {
  }

  lemma BlankMirrors(g: Geometry)
    requires Sensible(g)
    ensures Mirrors(g, BlankDisk(g), ZeroVol(g, Unlinked(Clusters(g))))
  {
    var d, v := BlankDisk(g), ZeroVol(g, Unlinked(Clusters(g)));
    BlankFits(g);
    forall c | 0 <= c < Clusters(g)
      ensures v.next[c] == NextAt(g, d, c)
    {
      ZeroLink(c % 128);
    }
    forall c | 0 <= c < Clusters(g)
      ensures v.data[c] == DataAt(g, d, c)
    {
      if c >= 2 {
        FlatZeros(SectorsAt(g, d, c));
      }
    }
  }

  lemma EntryPut(g: Geometry, d: seq<Sector>, links: seq<nat>, i: nat, x: nat) returns (d': seq<Sector>)
    requires Mirrors(g, d, ZeroVol(g, links)) && i < |links| == Clusters(g) && x < LINK_BITS
    ensures Mirrors(g, d', ZeroVol(g, links[i := x]))
  {
    EntryWritten(g, d, ZeroVol(g, links), i, x);
    d' := d[g.firstFat + i / 128 := SetWord(d[g.firstFat + i / 128], i % 128, x)];
  }

  lemma ZeroVolOk(g: Geometry, next: seq<nat>)
    requires Sensible(g) && |next| == Clusters(g)
    ensures VolOk(ZeroVol(g, next))
  {
    var v := ZeroVol(g, next);
    forall c | 2 <= c < |v.data|
      ensures |v.data[c]| == v.size
    {
      assert v.data[c] == Zeros(BytesIn(g.perCluster));
    }
  }

  /** Every FAT can be on a disk: its entries are written one after the other. */
  lemma {:induction false} LinkedDisk(g: Geometry, next: seq<nat>, k: nat) returns (d: seq<Sector>)
    requires Sensible(g) && |next| == Clusters(g) && k <= |next|
    requires forall c | 0 <= c < |next| :: next[c] < LINK_BITS
    ensures Mirrors(g, d, ZeroVol(g, next[..k] + Unlinked(|next| - k)))
    decreases k
  {
    if k == 0 {
      d := BlankDisk(g);
      BlankMirrors(g);
      assert next[..0] + Unlinked(|next|) == Unlinked(|next|);
    } else {
      var d1 := LinkedDisk(g, next, k - 1);
      var links := next[..k - 1] + Unlinked(|next| - (k - 1));
      d := EntryPut(g, d1, links, k - 1, next[k - 1]);
      assert links[k - 1 := next[k - 1]] == next[..k] + Unlinked(|next| - k);
    }
  }

  lemma DiskExists(g: Geometry, next: seq<nat>) returns (d: seq<Sector>)
    requires Sensible(g) && |next| == Clusters(g) && forall c | 0 <= c < |next| :: next[c] < LINK_BITS
    ensures Mirrors(g, d, ZeroVol(g, next))
  {
    d := LinkedDisk(g, next, |next|);
    assert next[..|next|] + Unlinked(0) == next;
  }

  // ---------------------------------------------------------------- out of space

  /** One FAT sector behind a boot sector, clusters of one sector. */
  const SMALL: Geometry := Geometry(1, 1, 1, 1)

  /** Every cluster but cluster 2 is in use. */
  ghost function OneFree(): Vol
  {
    ZeroVol(SMALL, seq(128, c => if c == 2 then CLUSTER_FREE else CLUSTER_EOF))
  }

  lemma OneFreeDisk() returns (d: seq<Sector>)
    ensures Mirrors(SMALL, d, OneFree())
  {
    d := DiskExists(SMALL, seq(128, c => if c == 2 then CLUSTER_FREE else CLUSTER_EOF));
  }

  lemma OneIsFree()
    ensures VolOk(OneFree()) && FreeSet(OneFree()) == {2} && OneFree().size == 512
    ensures FileOk(OneFree(), File([], 0)) && Room(OneFree(), [], 0) == 512
  {
    ZeroVolOk(SMALL, OneFree().next);
    assert FreeSet(OneFree()) == {2};
  }

  /** A write of 513 ones to an empty file fills the one free cluster, and leaves the file
      empty. Writing one byte at 511 then makes the file 512 bytes long, of which 511 were never
      part of a write that succeeded. The first of them reads as one, where a gap reads as zero. */
  method GapRun(vol: Volume) returns (first: WriteResult, empty: nat, second: WriteResult, size: nat, bytes: seq<Byte>)
    requires vol.Valid() && vol.g == SMALL && vol.View() == OneFree()
    modifies vol`v, vol.disk
    ensures first == Written(512) && empty == 0 && second == Written(1) && size == 512
    ensures bytes == [1] && Overwrite([], 511, [7])[..1] == [0]
  {
    var ones: seq<Byte> := seq(513, _ => 1);
    OneIsFree();
    ghost var v0 := vol.View();
    var start;
    ghost var cs1, w1, done1;
    first, start, empty, cs1, w1, done1 := WriteFile(vol, 0, 0, 0, ones, [], 2);
    ghost var v1 := vol.View();
    WrittenByte(v0, [], v1, cs1, 0, ones, 512, 0);
    second, size, bytes := WriteBehind(vol, start, cs1);
  }

  /** One byte written at 511 of an empty file with one cluster, and the first byte read. */
  method WriteBehind(vol: Volume, start0: nat, ghost cs1: seq<nat>) returns (second: WriteResult, size: nat, bytes: seq<Byte>)
    requires vol.Valid() && vol.g == SMALL && Chain(vol.View(), cs1) && StartsAt(start0, cs1) && cs1 != []
    requires Content(vol.View(), cs1) != []
    modifies vol`v, vol.disk
    ensures second == Written(1) && size == 512 && bytes == [Content(old(vol.View()), cs1)[0]]
  {
    ghost var v1 := vol.View();
    var start;
    ghost var cs2, w2, done2;
    second, start, size, cs2, w2, done2 := WriteFile(vol, start0, 0, 511, [7], cs1, 1);
    EarlierByte(v1, cs1, vol.View(), cs2, 511, [7], 1, 0);
    WrittenByte(v1, cs1, vol.View(), cs2, 511, [7], 1, 0);
    bytes := ReadFile(vol, start, size, 0, 1, cs2);
  }

  // ------------------------------------------------------------------------- 4 GiB

  /** Clusters of 64 KiB, and more than 65536 of them. */
  const LARGE: Geometry := Geometry(32, 513, 513, 128)

  ghost function BigNext(): seq<nat>
  {
    seq(65664, c => if 2 <= c < 65537 then c + 1 else CLUSTER_EOF)
  }

  /** One file has clusters 2 to 65537, which are 4 GiB. */
  ghost function BigVol(): Vol
  {
    ZeroVol(LARGE, BigNext())
  }

  ghost function BigChain(): seq<nat>
  {
    seq(65536, i => i + 2)
  }

  lemma {:induction false} ZeroContent(v: Vol, cs: seq<nat>)
    requires forall i | 0 <= i < |cs| :: cs[i] < |v.data| && v.data[cs[i]] == Zeros(|v.data[cs[i]]|)
    ensures Content(v, cs) == Zeros(|Content(v, cs)|)
  {
    if cs != [] {
      ZeroContent(v, cs[1..]);
    }
  }

  lemma BigChainOk()
    ensures VolOk(BigVol()) && Chain(BigVol(), BigChain()) && BigVol().size == 65536
    ensures forall i | 0 <= i < 65536 :: var c := BigChain()[i]; c < |BigVol().data| && BigVol().data[c] == Zeros(65536)
  {
    ZeroVolOk(LARGE, BigNext());
  }

  /** A disk with a file of 4 GiB less one byte. */
  lemma BigFile() returns (d: seq<Sector>)
    ensures Mirrors(LARGE, d, BigVol()) && FileOk(BigVol(), File(BigChain(), 0xFFFF_FFFF))
  {
    d := DiskExists(LARGE, BigNext());
    BigChainOk();
    ContentLength(BigVol(), BigChain());
    TimesIsProduct(65536, 65536);
    ZeroContent(BigVol(), BigChain());
  }

  lemma BigTarget()
    ensures Target(65536, 0xFFFF_FFFF, 1, 65536) && 0xFFFF_FFFF / 65536 < U32
  {
    TimesIsProduct(65536, 65536);
    TimesIsProduct(65535, 65536);
  }

  /** Appending one byte to it succeeds, and leaves a size of zero. */
  method FourGigRun(vol: Volume, start: nat, ghost cs: seq<nat>) returns (ret: WriteResult, size: nat)
    requires vol.Valid() && vol.g == LARGE && Chain(vol.View(), cs) && |cs| == 65536 && start == cs[0]
    modifies vol`v, vol.disk
    ensures ret == Written(1) && size == 0
  {
    BigTarget();
    var start';
    ghost var cs', w, done;
    ret, start', size, cs', w, done := WriteFile(vol, start, 0xFFFF_FFFF, 0xFFFF_FFFF, [7], cs, 65536);
  }
}
