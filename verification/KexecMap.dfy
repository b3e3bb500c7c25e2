/**
 The forged memory map of kexec_execute: the staged frames are coalesced into runs,
 every reserved range is carved out of the usable entries in place, and the surviving
 entries are copied out. The usable addresses that remain are exactly the original
 ones minus the reserved ones.
 */
module KexecMap {
  import opened Machine
  import opened KexecSort

  const PAGE_SIZE: nat := 4096

  datatype Kind = Usable | Other(code: nat)

  datatype Region = Region(base: nat, len: nat, kind: Kind)

  ghost predicate Inside(r: Region, x: nat)
  {
    r.base <= x < r.base + r.len
  }

  ghost predicate UsableAt(w: seq<Region>, x: nat)
  {
    exists i :: 0 <= i < |w| && w[i].kind == Usable && Inside(w[i], x)
  }

  ghost predicate CoveredAt(w: seq<Region>, x: nat)
  {
    exists i :: 0 <= i < |w| && Inside(w[i], x)
  }

  /** Ends of ranges are representable, so no end computation wraps. */
  ghost predicate Bounded(w: seq<Region>)
  {
    forall i | 0 <= i < |w| :: w[i].base + w[i].len < U64
  }

  /** No address is in two usable entries. */
  ghost predicate Disjoint(w: seq<Region>)
  {
    forall i, j, x | 0 <= i < |w| && 0 <= j < |w| && i != j
      && w[i].kind == Usable && w[j].kind == Usable && Inside(w[i], x) :: !Inside(w[j], x)
  }

  // ----------------------------------------------------------- one entry, one cut

  predicate Overlaps(e: Region, c: Region)
  {
    e.kind == Usable && e.len != 0 && c.base < e.base + e.len && e.base < c.base + c.len
  }

  predicate HasBefore(e: Region, c: Region)
  {
    e.base < c.base
  }

  predicate HasAfter(e: Region, c: Region)
  {
    c.base + c.len < e.base + e.len
  }

  predicate Splits(e: Region, c: Region)
  {
    Overlaps(e, c) && HasBefore(e, c) && HasAfter(e, c)
  }

  /** What stays in the entry's own slot. */
  function Kept(e: Region, c: Region): Region
  {
    if !Overlaps(e, c) then e
    else if HasBefore(e, c) then e.(len := c.base - e.base)
    else if HasAfter(e, c) then e.(base := c.base + c.len, len := e.base + e.len - (c.base + c.len))
    else e.(len := 0)
  }

  /** What is split off behind the cut. */
  function SplitOff(e: Region, c: Region): Region
    requires HasAfter(e, c)
  {
    Region(c.base + c.len, e.base + e.len - (c.base + c.len), Usable)
  }

  lemma CutExact(e: Region, c: Region, x: nat)
    requires e.kind == Usable && c.len > 0
    ensures Inside(Kept(e, c), x) || (Splits(e, c) && Inside(SplitOff(e, c), x))
            <==> Inside(e, x) && !Inside(c, x)
    ensures Kept(e, c).kind == Usable
    ensures Splits(e, c) && Inside(SplitOff(e, c), x) ==> !Inside(Kept(e, c), x)
  {
  }

  // -------------------------------------------------------------- the whole array

  function KeptAll(w: seq<Region>, c: Region): (r: seq<Region>)
    ensures |r| == |w| && forall i | 0 <= i < |w| :: r[i] == Kept(w[i], c)
  {
    seq(|w|, i requires 0 <= i < |w| => Kept(w[i], c))
  }

  /** The split-off parts, in the order their entries are visited. */
  function Splinters(w: seq<Region>, c: Region): seq<Region>
  {
    if w == [] then []
    else
      var e := w[|w| - 1];
      Splinters(w[..|w| - 1], c) + (if Splits(e, c) then [SplitOff(e, c)] else [])
  }

  /** The map after a cut when `room` slots are free behind it. */
  function Carved(w: seq<Region>, c: Region, room: nat): seq<Region>
  {
    if c.len == 0 then w
    else KeptAll(w, c) + Splinters(w, c)[..Min(room, |Splinters(w, c)|)]
  }

  /** kexec_carve: work[..count] is edited in place and split-off parts are appended
      while there is room. */
  method Carve(work: array<Region>, count: nat, c: Region) returns (n: nat)
    requires count <= work.Length
    requires Bounded(work[..count]) && c.base + c.len < U64
    modifies work
    ensures count <= n <= work.Length
    ensures work[..n] == Carved(old(work[..count]), c, work.Length - count)
  {
    if c.len == 0 {
      return count;
    }
    var cutEnd := (c.base + c.len) % U64;
    n := count;
    ghost var w := work[..count];
    var i := 0;
    while i < count
      invariant 0 <= i <= count
      invariant Appended(work[..], count, n, Splinters(w[..i], c))
      invariant forall k | 0 <= k < i :: work[k] == Kept(w[k], c)
      invariant forall k | i <= k < count :: work[k] == w[k]
    {
      assert w[..i + 1][..i] == w[..i];
      assert work[i] == w[i];
      n := CarveEntry(work, count, i, n, c, cutEnd, Splinters(w[..i], c));
      i := i + 1;
    }
    assert w[..count] == w;
    assert work[..n] == work[..count] + work[..][count..n];
    assert work[..count] == KeptAll(w, c);
  }

  /** The loop body of kexec_carve. */
  method CarveEntry(work: array<Region>, count: nat, i: nat, n0: nat, c: Region, cutEnd: nat,
                    ghost sofar: seq<Region>)
    returns (n: nat)
    requires i < count <= n0 <= work.Length
    requires cutEnd == c.base + c.len && c.len > 0
    requires work[i].base + work[i].len < U64
    requires Appended(work[..], count, n0, sofar)
    modifies work
    ensures work[i] == Kept(old(work[i]), c)
    ensures forall k | 0 <= k < count && k != i :: work[k] == old(work[k])
    ensures Appended(work[..], count, n,
                     sofar + (if Splits(old(work[i]), c) then [SplitOff(old(work[i]), c)] else []))
  {
    n := n0;
    var e := work[i];
    assert sofar + [] == sofar;
    if e.kind != Usable || e.len == 0 {
      return;
    }
    var eEnd := (e.base + e.len) % U64;
    if cutEnd <= e.base || c.base >= eEnd {
      return;
    }
    var ovStart := if c.base > e.base then c.base else e.base;
    var ovEnd := if cutEnd < eEnd then cutEnd else eEnd;
    var hasBefore := ovStart > e.base;
    var hasAfter := ovEnd < eEnd;
    if hasBefore {
      work[i] := e.(len := ovStart - e.base);
    } else if hasAfter {
      work[i] := e.(base := ovEnd, len := eEnd - ovEnd);
    } else {
      work[i] := e.(len := 0);
    }
    assert work[i] == Kept(e, c);
    assert Splits(e, c) <==> hasBefore && hasAfter;
    assert Appended(work[..], count, n0, sofar);
    if hasBefore && hasAfter {
      n := AppendRegion(work, count, n0, Region(ovEnd, eEnd - ovEnd, Usable), sofar);
    }
  }

  /** The slots from `count` to `n` hold as much of `parts` as fits. */
  ghost predicate Appended(w: seq<Region>, count: nat, n: nat, parts: seq<Region>)
  {
    && count <= n <= |w|
    && n == count + Min(|w| - count, |parts|)
    && w[count..n] == parts[..n - count]
  }

  method AppendRegion(work: array<Region>, count: nat, n0: nat, r: Region, ghost parts: seq<Region>)
    returns (n: nat)
    requires Appended(work[..], count, n0, parts)
    modifies work
    ensures Appended(work[..], count, n, parts + [r])
    ensures forall k | 0 <= k < count :: work[k] == old(work[k])
  {
    n := n0;
    if n >= work.Length {
      return;
    }
    ghost var w := work[..];
    work[n] := r;
    n := n + 1;
    assert work[..][count..n] == w[count..n0] + [r];
  }

  // ---------------------------------------------------- what a cut does to the map

  lemma {:induction false} SplintersFrom(w: seq<Region>, c: Region, x: nat)
    ensures (exists k :: 0 <= k < |Splinters(w, c)| && Inside(Splinters(w, c)[k], x))
            <==> (exists i :: 0 <= i < |w| && SplitsAt(w[i], c, x))
    ensures forall k | 0 <= k < |Splinters(w, c)| :: Splinters(w, c)[k].kind == Usable
  {
    if w != [] {
      var front, e := w[..|w| - 1], w[|w| - 1];
      SplintersFrom(front, c, x);
      assert forall i | 0 <= i < |front| :: front[i] == w[i];
      if Splits(e, c) {
        assert Splinters(w, c)[|Splinters(front, c)|] == SplitOff(e, c);
      }
      assert forall k | 0 <= k < |Splinters(front, c)| :: Splinters(w, c)[k] == Splinters(front, c)[k];
    }
  }

  ghost predicate SplitsAt(e: Region, c: Region, x: nat)
  {
    Splits(e, c) && Inside(SplitOff(e, c), x)
  }

  /** However little room there is, a carved map never offers an address of the cut
      and never offers an address that was not usable before. */
  lemma CarveSafe(w: seq<Region>, c: Region, room: nat, x: nat)
    requires UsableAt(Carved(w, c, room), x)
    ensures UsableAt(w, x) && !Inside(c, x)
  {
    if c.len > 0 {
      var r := Carved(w, c, room);
      var i :| 0 <= i < |r| && r[i].kind == Usable && Inside(r[i], x);
      if i < |w| {
        assert r[i] == Kept(w[i], c);
        CutExact(w[i], c, x);
      } else {
        SplintersFrom(w, c, x);
        assert Inside(Splinters(w, c)[i - |w|], x);
        var k :| 0 <= k < |w| && SplitsAt(w[k], c, x);
        CutExact(w[k], c, x);
      }
    }
  }

  /** With room for every split-off part, nothing else is lost. */
  lemma CarveComplete(w: seq<Region>, c: Region, room: nat, x: nat)
    requires c.len > 0 ==> |Splinters(w, c)| <= room
    requires UsableAt(w, x) && !Inside(c, x)
    ensures UsableAt(Carved(w, c, room), x)
  {
    if c.len > 0 {
      var r := Carved(w, c, room);
      var i :| 0 <= i < |w| && w[i].kind == Usable && Inside(w[i], x);
      CutExact(w[i], c, x);
      if Inside(Kept(w[i], c), x) {
        assert r[i] == Kept(w[i], c);
      } else {
        assert SplitsAt(w[i], c, x);
        SplintersFrom(w, c, x);
        var k :| 0 <= k < |Splinters(w, c)| && Inside(Splinters(w, c)[k], x);
        assert r[|w| + k] == Splinters(w, c)[k];
      }
    }
  }

  /** A cut splits at most one of several disjoint entries. */
  lemma {:induction false} AtMostOneSplinter(w: seq<Region>, c: Region)
    requires Disjoint(w) && c.len > 0
    ensures |Splinters(w, c)| <= 1
    ensures |Splinters(w, c)| == 1 ==>
              exists i :: 0 <= i < |w| && Splits(w[i], c) && Splinters(w, c) == [SplitOff(w[i], c)]
  {
    if w != [] {
      var front, e := w[..|w| - 1], w[|w| - 1];
      assert forall i | 0 <= i < |front| :: front[i] == w[i];
      AtMostOneSplinter(front, c);
      if Splits(e, c) && |Splinters(front, c)| == 1 {
        var i :| 0 <= i < |front| && Splits(front[i], c);
        assert Inside(w[i], c.base) && Inside(w[|w| - 1], c.base);
        assert false;
      }
    }
  }

  /** Every entry of a carved map is part of an entry of the map before, a different
      one for different entries unless the two are the two halves of a split. */
  lemma CarveDisjoint(w: seq<Region>, c: Region, room: nat)
    requires Disjoint(w)
    ensures Disjoint(Carved(w, c, room))
  {
    if c.len > 0 {
      var r := Carved(w, c, room);
      AtMostOneSplinter(w, c);
      forall i, j, x | 0 <= i < |r| && 0 <= j < |r| && i != j
        && r[i].kind == Usable && r[j].kind == Usable && Inside(r[i], x)
        ensures !Inside(r[j], x)
      {
        if Inside(r[j], x) {
          HalvesApart(w, c, room, i, j, x);
        }
      }
    }
  }

  lemma Origin(w: seq<Region>, c: Region, room: nat, i: nat, x: nat) returns (o: nat)
    requires Disjoint(w) && c.len > 0 && i < |Carved(w, c, room)|
    requires Carved(w, c, room)[i].kind == Usable && Inside(Carved(w, c, room)[i], x)
    ensures o < |w| && w[o].kind == Usable && Inside(w[o], x)
    ensures i < |w| ==> o == i
    ensures i >= |w| ==> Splits(w[o], c) && Carved(w, c, room)[i] == SplitOff(w[o], c) && i == |w|
  {
    AtMostOneSplinter(w, c);
    if i < |w| {
      o := i;
      CutExact(w[i], c, x);
    } else {
      o :| 0 <= o < |w| && Splits(w[o], c) && Splinters(w, c) == [SplitOff(w[o], c)];
      CutExact(w[o], c, x);
    }
  }

  lemma HalvesApart(w: seq<Region>, c: Region, room: nat, i: nat, j: nat, x: nat)
    requires Disjoint(w) && c.len > 0
    requires i < |Carved(w, c, room)| && j < |Carved(w, c, room)|
    requires var r := Carved(w, c, room);
             && r[i].kind == Usable && r[j].kind == Usable && Inside(r[i], x) && Inside(r[j], x)
    ensures i == j
  {
    var a := Origin(w, c, room, i, x);
    var b := Origin(w, c, room, j, x);
    assert a == b;
    CutExact(w[a], c, x);
  }

  lemma {:induction false} SplintersBounded(w: seq<Region>, c: Region)
    requires Bounded(w)
    ensures Bounded(Splinters(w, c))
  {
    if w != [] {
      assert forall i | 0 <= i < |w| - 1 :: w[..|w| - 1][i] == w[i];
      SplintersBounded(w[..|w| - 1], c);
    }
  }

  lemma CarveBounded(w: seq<Region>, c: Region, room: nat)
    requires Bounded(w)
    ensures Bounded(Carved(w, c, room))
  {
    SplintersBounded(w, c);
  }

  /** The entries that are not usable and not empty, in order. */
  function Others(w: seq<Region>): seq<Region>
  {
    if w == [] then []
    else Others(w[..|w| - 1]) + (var e := w[|w| - 1]; if e.kind != Usable && e.len > 0 then [e] else [])
  }

  lemma {:induction false} OthersConcat(v: seq<Region>, w: seq<Region>)
    ensures Others(v + w) == Others(v) + Others(w)
  {
    if w == [] {
      assert v + w == v;
    } else {
      assert (v + w)[..|v + w| - 1] == v + w[..|w| - 1];
      OthersConcat(v, w[..|w| - 1]);
    }
  }

  lemma {:induction false} OthersKept(w: seq<Region>, c: Region)
    ensures Others(KeptAll(w, c)) == Others(w)
  {
    if w != [] {
      var front := w[..|w| - 1];
      OthersKept(front, c);
      assert KeptAll(w, c)[..|w| - 1] == KeptAll(front, c);
    }
  }

  lemma {:induction false} NoOthers(w: seq<Region>)
    requires forall i | 0 <= i < |w| :: w[i].kind == Usable
    ensures Others(w) == []
  {
    if w != [] {
      NoOthers(w[..|w| - 1]);
    }
  }

  /** A cut leaves the entries that are not usable alone. */
  lemma CarveOthers(w: seq<Region>, c: Region, room: nat)
    ensures Others(Carved(w, c, room)) == Others(w)
  {
    if c.len > 0 {
      var parts := Splinters(w, c)[..Min(room, |Splinters(w, c)|)];
      SplintersFrom(w, c, 0);
      NoOthers(parts);
      OthersConcat(KeptAll(w, c), parts);
      OthersKept(w, c);
    }
  }

  // ----------------------------------------------------------- all cuts, then copy

  /** The usable addresses of `w` are those of `base` outside the reserved ranges. */
  ghost predicate ExactlyMinus(w: seq<Region>, base: seq<Region>, reserved: seq<Region>)
  {
    forall x :: UsableAt(w, x) <==> UsableAt(base, x) && !CoveredAt(reserved, x)
  }

  lemma NextCut(w: seq<Region>, base: seq<Region>, reserved: seq<Region>, i: nat, room: nat)
    requires i < |reserved| && Disjoint(w) && room >= 1 && ExactlyMinus(w, base, reserved[..i])
    ensures ExactlyMinus(Carved(w, reserved[i], room), base, reserved[..i + 1])
  {
    var c := reserved[i];
    var r := Carved(w, c, room);
    if c.len > 0 {
      AtMostOneSplinter(w, c);
    }
    forall x
      ensures UsableAt(r, x) <==> UsableAt(base, x) && !CoveredAt(reserved[..i + 1], x)
    {
      MoreCovered(reserved, i, x);
      if UsableAt(r, x) {
        CarveSafe(w, c, room, x);
      } else if UsableAt(w, x) && !Inside(c, x) {
        CarveComplete(w, c, room, x);
      }
    }
  }

  lemma MoreCovered(reserved: seq<Region>, i: nat, x: nat)
    requires i < |reserved|
    ensures CoveredAt(reserved[..i + 1], x) <==> CoveredAt(reserved[..i], x) || Inside(reserved[i], x)
  {
    if CoveredAt(reserved[..i], x) {
      var k :| 0 <= k < i && Inside(reserved[..i][k], x);
      assert Inside(reserved[..i + 1][k], x);
    }
    if Inside(reserved[i], x) {
      assert Inside(reserved[..i + 1][i], x);
    }
    if CoveredAt(reserved[..i + 1], x) {
      var k :| 0 <= k < i + 1 && Inside(reserved[..i + 1][k], x);
      assert k < i ==> Inside(reserved[..i][k], x);
    }
  }

  lemma CarvedSize(w: seq<Region>, c: Region, room: nat)
    requires Disjoint(w)
    ensures |Carved(w, c, room)| <= |w| + 1
  {
    if c.len > 0 {
      AtMostOneSplinter(w, c);
    }
  }

  /** The carve loop of kexec_execute: with disjoint input entries the array of
      base_count + nres + 8 slots never fills up. */
  method CarveAll(work: array<Region>, baseCount: nat, reserved: seq<Region>) returns (wc: nat)
    requires work.Length == baseCount + |reserved| + 8
    requires Bounded(work[..baseCount]) && Bounded(reserved) && Disjoint(work[..baseCount])
    modifies work
    ensures wc <= baseCount + |reserved| < work.Length
    ensures Disjoint(work[..wc])
    ensures Others(work[..wc]) == Others(old(work[..baseCount]))
    ensures ExactlyMinus(work[..wc], old(work[..baseCount]), reserved)
  {
    ghost var base := work[..baseCount];
    wc := baseCount;
    var i := 0;
    while i < |reserved|
      invariant 0 <= i <= |reserved| && wc <= baseCount + i
      invariant Bounded(work[..wc]) && Disjoint(work[..wc])
      invariant Others(work[..wc]) == Others(base)
      invariant ExactlyMinus(work[..wc], base, reserved[..i])
    {
      ghost var w := work[..wc];
      ghost var room := work.Length - wc;
      CarvedSize(w, reserved[i], room);
      CarveBounded(w, reserved[i], room);
      CarveDisjoint(w, reserved[i], room);
      CarveOthers(w, reserved[i], room);
      NextCut(w, base, reserved, i, room);
      wc := Carve(work, wc, reserved[i]);
      i := i + 1;
    }
    assert reserved[..|reserved|] == reserved;
  }

  function NonEmpty(w: seq<Region>): seq<Region>
  {
    if w == [] then []
    else NonEmpty(w[..|w| - 1]) + (if w[|w| - 1].len > 0 then [w[|w| - 1]] else [])
  }

  /** The copy loop: entries of length zero are dropped. */
  method CopyOut(w: seq<Region>) returns (entries: seq<Region>)
    ensures entries == NonEmpty(w)
  {
    entries := [];
    var i := 0;
    while i < |w|
      invariant 0 <= i <= |w| && entries == NonEmpty(w[..i])
    {
      assert w[..i + 1][..i] == w[..i];
      if w[i].len > 0 {
        entries := entries + [w[i]];
      }
      i := i + 1;
    }
    assert w[..|w|] == w;
  }

  lemma LastUsable(w: seq<Region>, e: Region, x: nat)
    ensures UsableAt(w + [e], x) <==> UsableAt(w, x) || (e.kind == Usable && Inside(e, x))
  {
    var all := w + [e];
    if UsableAt(w, x) {
      var k :| 0 <= k < |w| && w[k].kind == Usable && Inside(w[k], x);
      assert all[k] == w[k];
    }
    if e.kind == Usable && Inside(e, x) {
      assert all[|w|] == e;
    }
    if UsableAt(all, x) {
      var k :| 0 <= k < |all| && all[k].kind == Usable && Inside(all[k], x);
      assert k < |w| ==> all[k] == w[k];
    }
  }

  /** Dropping empty entries loses no address and no other entry. */
  lemma {:induction false} NonEmptySame(w: seq<Region>)
    ensures forall i | 0 <= i < |NonEmpty(w)| :: NonEmpty(w)[i].len > 0
    ensures forall x :: UsableAt(NonEmpty(w), x) <==> UsableAt(w, x)
    ensures Others(NonEmpty(w)) == Others(w)
  {
    if w != [] {
      var front, e := w[..|w| - 1], w[|w| - 1];
      NonEmptySame(front);
      assert w == front + [e];
      assert NonEmpty(w) == if e.len > 0 then NonEmpty(front) + [e] else NonEmpty(front);
      forall x
        ensures UsableAt(NonEmpty(w), x) <==> UsableAt(w, x)
      {
        LastUsable(front, e, x);
        LastUsable(NonEmpty(front), e, x);
      }
      if e.len > 0 {
        assert (NonEmpty(front) + [e])[..|NonEmpty(front)|] == NonEmpty(front);
      } else {
        assert Others(w) == Others(front);
      }
    }
  }

  lemma {:induction false} NonEmptyDisjoint(w: seq<Region>)
    requires Disjoint(w)
    ensures Disjoint(NonEmpty(w))
  {
    if w != [] {
      var front, e := w[..|w| - 1], w[|w| - 1];
      assert forall k | 0 <= k < |front| :: front[k] == w[k];
      NonEmptyDisjoint(front);
      NonEmptySame(front);
      assert w == front + [e];
      if e.len > 0 {
        DisjointExtends(NonEmpty(front), front, e);
      }
    }
  }

  lemma DisjointExtends(v: seq<Region>, front: seq<Region>, e: Region)
    requires Disjoint(v) && Disjoint(front + [e])
    requires forall x :: UsableAt(v, x) <==> UsableAt(front, x)
    ensures Disjoint(v + [e])
  {
    var r := v + [e];
    forall k, x | 0 <= k < |v| && v[k].kind == Usable && e.kind == Usable && Inside(v[k], x)
      ensures !Inside(e, x)
    {
      assert UsableAt(v, x);
      var m :| 0 <= m < |front| && front[m].kind == Usable && Inside(front[m], x);
      assert (front + [e])[m] == front[m] && (front + [e])[|front|] == e;
    }
  }

  // ------------------------------------------------------------- staged frames

  ghost predicate InPages(pages: seq<nat>, x: nat)
  {
    exists i :: 0 <= i < |pages| && pages[i] <= x < pages[i] + PAGE_SIZE
  }

  /** Distinct page frames in ascending order. */
  ghost predicate Ascending(pages: seq<nat>)
  {
    forall i, j | 0 <= i < j < |pages| :: pages[i] + PAGE_SIZE <= pages[j]
  }

  ghost predicate Separated(runs: seq<Region>)
  {
    forall i, j | 0 <= i < j < |runs| :: runs[i].base + runs[i].len < runs[j].base
  }

  /** The coalescing loops of kexec_execute: the runs cover exactly the frames, and
      distinct sorted frames give runs that do not even touch. */
  method Coalesce(pages: seq<nat>) returns (runs: seq<Region>)
    requires forall i | 0 <= i < |pages| :: pages[i] + PAGE_SIZE < U64
    ensures forall x :: CoveredAt(runs, x) <==> InPages(pages, x)
    ensures |runs| <= |pages| && Bounded(runs)
    ensures Ascending(pages) ==> Separated(runs)
  {
    runs := [];
    var i := 0;
    while i < |pages|
      invariant 0 <= i <= |pages| && |runs| <= i && Bounded(runs)
      invariant forall x :: CoveredAt(runs, x) <==> InPages(pages[..i], x)
      invariant forall k | 0 <= k < |runs| :: RunEndsBefore(runs[k], pages, i)
      invariant Ascending(pages) ==> Separated(runs)
    {
      var j := RunEnd(pages, i);
      var run := Region(pages[i], (j - i) * PAGE_SIZE, Other(1));
      RunCovers(pages, i, j, runs, run);
      RunSeparate(pages, i, j, runs, run);
      runs := runs + [run];
      i := j;
    }
    assert pages[..|pages|] == pages;
  }

  /** Pages i..j are consecutive. */
  ghost predicate Consecutive(pages: seq<nat>, i: nat, j: nat)
  {
    && i < j <= |pages|
    && forall k | i <= k < j :: pages[k] == pages[i] + (k - i) * PAGE_SIZE
  }

  method RunEnd(pages: seq<nat>, i: nat) returns (j: nat)
    requires i < |pages|
    ensures Consecutive(pages, i, j)
    ensures j < |pages| ==> pages[j] != pages[i] + (j - i) * PAGE_SIZE
  {
    var runEnd := pages[i] + PAGE_SIZE;
    j := i + 1;
    while j < |pages| && pages[j] == runEnd
      invariant Consecutive(pages, i, j) && runEnd == pages[i] + (j - i) * PAGE_SIZE
    {
      runEnd := runEnd + PAGE_SIZE;
      j := j + 1;
    }
  }

  lemma RunCovers(pages: seq<nat>, i: nat, j: nat, runs: seq<Region>, run: Region)
    requires Consecutive(pages, i, j) && run == Region(pages[i], (j - i) * PAGE_SIZE, Other(1))
    requires forall x :: CoveredAt(runs, x) <==> InPages(pages[..i], x)
    requires Bounded(runs) && forall k | 0 <= k < |pages| :: pages[k] + PAGE_SIZE < U64
    ensures forall x :: CoveredAt(runs + [run], x) <==> InPages(pages[..j], x)
    ensures Bounded(runs + [run])
  {
    assert pages[j - 1] == pages[i] + (j - 1 - i) * PAGE_SIZE;
    forall x
      ensures CoveredAt(runs + [run], x) <==> InPages(pages[..j], x)
    {
      LastCovered(runs, run, x);
      PagesOfRun(pages, i, j, x);
    }
  }

  lemma LastCovered(runs: seq<Region>, run: Region, x: nat)
    ensures CoveredAt(runs + [run], x) <==> CoveredAt(runs, x) || Inside(run, x)
  {
    var all := runs + [run];
    if CoveredAt(runs, x) {
      var k :| 0 <= k < |runs| && Inside(runs[k], x);
      assert Inside(all[k], x);
    }
    if Inside(run, x) {
      assert Inside(all[|runs|], x);
    }
    if CoveredAt(all, x) {
      var k :| 0 <= k < |all| && Inside(all[k], x);
      assert k < |runs| ==> Inside(runs[k], x);
    }
  }

  lemma PagesOfRun(pages: seq<nat>, i: nat, j: nat, x: nat)
    requires Consecutive(pages, i, j)
    ensures InPages(pages[..j], x)
            <==> InPages(pages[..i], x) || pages[i] <= x < pages[i] + (j - i) * PAGE_SIZE
  {
    if InPages(pages[..i], x) {
      var k :| 0 <= k < i && pages[..i][k] <= x < pages[..i][k] + PAGE_SIZE;
      assert pages[..j][k] == pages[..i][k];
    }
    if pages[i] <= x < pages[i] + (j - i) * PAGE_SIZE {
      var k := i + (x - pages[i]) / PAGE_SIZE;
      assert pages[..j][k] == pages[i] + (k - i) * PAGE_SIZE;
    }
    if InPages(pages[..j], x) {
      var k :| 0 <= k < j && pages[..j][k] <= x < pages[..j][k] + PAGE_SIZE;
      if k < i {
        assert pages[..i][k] == pages[..j][k];
      } else {
        assert pages[k] == pages[i] + (k - i) * PAGE_SIZE;
      }
    }
  }

  /** A run ends strictly below every later page, if the pages ascend. */
  ghost predicate RunEndsBefore(run: Region, pages: seq<nat>, i: nat)
  {
    Ascending(pages) ==> forall k | i <= k < |pages| :: run.base + run.len < pages[k]
  }

  lemma RunSeparate(pages: seq<nat>, i: nat, j: nat, runs: seq<Region>, run: Region)
    requires Consecutive(pages, i, j) && run == Region(pages[i], (j - i) * PAGE_SIZE, Other(1))
    requires j < |pages| ==> pages[j] != pages[i] + (j - i) * PAGE_SIZE
    requires forall k | 0 <= k < |runs| :: RunEndsBefore(runs[k], pages, i)
    requires Ascending(pages) ==> Separated(runs)
    ensures forall k | 0 <= k < |runs + [run]| :: RunEndsBefore((runs + [run])[k], pages, j)
    ensures Ascending(pages) ==> Separated(runs + [run])
  {
    assert pages[j - 1] == pages[i] + (j - 1 - i) * PAGE_SIZE;
    assert RunEndsBefore(run, pages, j) by {
      if Ascending(pages) && j < |pages| {
        assert pages[j - 1] + PAGE_SIZE <= pages[j];
      }
    }
  }

  // --------------------------------------------------------------- the forged map

  /** The memory-map part of kexec_execute. `others` are the reserved ranges that are
      not staged frames. None is the ENXIO of a map with no entry left. */
  method ForgeMemoryMap(frames: seq<nat>, others: seq<Region>, base: seq<Region>)
    returns (ok: bool, entries: seq<Region>)
    requires forall i | 0 <= i < |frames| :: frames[i] + PAGE_SIZE < U64
    requires Bounded(others) && Bounded(base) && Disjoint(base)
    ensures forall x :: UsableAt(entries, x)
              <==> UsableAt(base, x) && !InPages(frames, x) && !CoveredAt(others, x)
    ensures Others(entries) == Others(base)
    ensures Disjoint(entries) && forall i | 0 <= i < |entries| :: entries[i].len > 0
    ensures ok <==> entries != []
  {
    var sorted := new nat[|frames|](i requires 0 <= i < |frames| => frames[i]);
    assert sorted[..] == frames;
    ghost var depth := Sort(sorted, 0, |frames| - 1);
    SamePages(sorted[..], frames);
    var pages := sorted[..];
    var runs := Coalesce(pages);
    var reserved := runs + others;
    var work := new Region[|base| + |reserved| + 8](i => if 0 <= i < |base| then base[i] else Region(0, 0, Usable));
    assert work[..|base|] == base;
    var wc := CarveAll(work, |base|, reserved);
    entries := CopyOut(work[..wc]);
    NonEmptySame(work[..wc]);
    NonEmptyDisjoint(work[..wc]);
    ok := entries != [];
    forall x
      ensures CoveredAt(reserved, x) <==> InPages(frames, x) || CoveredAt(others, x)
    {
      CoveredConcat(runs, others, x);
    }
  }

  lemma CoveredConcat(v: seq<Region>, w: seq<Region>, x: nat)
    ensures CoveredAt(v + w, x) <==> CoveredAt(v, x) || CoveredAt(w, x)
  {
    if CoveredAt(v, x) {
      var k :| 0 <= k < |v| && Inside(v[k], x);
      assert Inside((v + w)[k], x);
    }
    if CoveredAt(w, x) {
      var k :| 0 <= k < |w| && Inside(w[k], x);
      assert Inside((v + w)[|v| + k], x);
    }
    if CoveredAt(v + w, x) {
      var k :| 0 <= k < |v + w| && Inside((v + w)[k], x);
      assert if k < |v| then Inside(v[k], x) else Inside(w[k - |v|], x);
    }
  }

  /** Sorting does not change which addresses are staged. */
  lemma SamePages(s: seq<nat>, frames: seq<nat>)
    requires Shuffled(s, frames, 0, |frames| - 1)
    ensures forall i | 0 <= i < |s| :: s[i] in frames
    ensures forall i | 0 <= i < |frames| :: frames[i] in s
  {
    assert s[0..|s|] == s && frames[0..|frames|] == frames;
    forall i | 0 <= i < |s|
      ensures s[i] in frames && frames[i] in s
    {
      assert s[i] in multiset(s) && frames[i] in multiset(frames);
    }
  }
}
