/**
 kexec_sort_phys: the in-place quicksort over the physical addresses of the staged
 pages (Hoare partition, recursion into the smaller half, iteration over the larger).
 */
module KexecSort {
  import opened Machine

  /** Indices lo..hi of `s` hold a rearrangement of what they hold in `t`; the rest
      of the two sequences is the same. */
  ghost predicate Shuffled(s: seq<nat>, t: seq<nat>, lo: int, hi: int)
  {
    && |s| == |t|
    && 0 <= lo <= hi + 1 <= |s|
    && s[..lo] == t[..lo]
    && s[hi + 1..] == t[hi + 1..]
    && multiset(s[lo..hi + 1]) == multiset(t[lo..hi + 1])
  }

  ghost predicate Sorted(s: seq<nat>, lo: int, hi: int)
  {
    forall i, j | 0 <= lo <= i < j <= hi < |s| :: s[i] <= s[j]
  }

  /** Every element at lo..hi is at most b. */
  ghost predicate AtMost(s: seq<nat>, lo: int, hi: int, b: nat)
  {
    forall k | 0 <= lo <= k <= hi < |s| :: s[k] <= b
  }

  ghost predicate AtLeast(s: seq<nat>, lo: int, hi: int, b: nat)
  {
    forall k | 0 <= lo <= k <= hi < |s| :: b <= s[k]
  }

  lemma ShuffledTrans(s: seq<nat>, t: seq<nat>, u: seq<nat>, lo: int, hi: int)
    requires Shuffled(s, t, lo, hi) && Shuffled(t, u, lo, hi)
    ensures Shuffled(s, u, lo, hi)
  {
  }

  /** A rearrangement of a part is a rearrangement of the whole. */
  lemma ShuffledWiden(s: seq<nat>, t: seq<nat>, lo: int, hi: int, lo': int, hi': int)
    requires Shuffled(s, t, lo, hi) && 0 <= lo' <= lo <= hi + 1 <= hi' + 1 <= |s|
    ensures Shuffled(s, t, lo', hi')
  {
    assert s[..lo'] == s[..lo][..lo'] && t[..lo'] == t[..lo][..lo'];
    assert s[hi' + 1..] == s[hi + 1..][hi' - hi..] && t[hi' + 1..] == t[hi + 1..][hi' - hi..];
    assert s[lo'..lo] == s[..lo][lo'..] && t[lo'..lo] == t[..lo][lo'..];
    assert s[hi + 1..hi' + 1] == s[hi + 1..][..hi' - hi] && t[hi + 1..hi' + 1] == t[hi + 1..][..hi' - hi];
    assert s[lo'..hi' + 1] == s[lo'..lo] + s[lo..hi + 1] + s[hi + 1..hi' + 1];
    assert t[lo'..hi' + 1] == t[lo'..lo] + t[lo..hi + 1] + t[hi + 1..hi' + 1];
  }

  lemma ShuffledBounds(s: seq<nat>, t: seq<nat>, lo: int, hi: int, b: nat)
    requires Shuffled(s, t, lo, hi)
    ensures AtMost(t, lo, hi, b) ==> AtMost(s, lo, hi, b)
    ensures AtLeast(t, lo, hi, b) ==> AtLeast(s, lo, hi, b)
  {
    forall k | lo <= k <= hi
      ensures exists m | lo <= m <= hi :: t[m] == s[k]
    {
      assert s[lo..hi + 1][k - lo] in multiset(t[lo..hi + 1]);
      var m :| 0 <= m < hi + 1 - lo && t[lo..hi + 1][m] == s[k];
      assert t[lo + m] == s[k];
    }
  }

  /** What is outside the range is untouched. */
  lemma ShuffledOutside(s: seq<nat>, t: seq<nat>, lo: int, hi: int, k: int)
    requires Shuffled(s, t, lo, hi) && 0 <= k < |s| && !(lo <= k <= hi)
    ensures s[k] == t[k]
  {
    if k < lo {
      assert s[..lo][k] == t[..lo][k];
    } else {
      assert s[hi + 1..][k - hi - 1] == t[hi + 1..][k - hi - 1];
    }
  }

  method Swap(a: array<nat>, i: int, j: int, ghost lo: int, ghost hi: int)
    requires 0 <= lo <= i <= j <= hi < a.Length
    modifies a
    ensures a[..] == old(a[..])[i := old(a[j])][j := old(a[i])]
    ensures Shuffled(a[..], old(a[..]), lo, hi)
  {
    ghost var s := a[..];
    a[i], a[j] := a[j], a[i];
    SwapShuffles(s, i, j, lo, hi);
  }

  lemma SwapShuffles(s: seq<nat>, i: int, j: int, lo: int, hi: int)
    requires 0 <= lo <= i <= j <= hi < |s|
    ensures Shuffled(s[i := s[j]][j := s[i]], s, lo, hi)
  {
    var t := s[i := s[j]][j := s[i]];
    assert t[lo..hi + 1] == s[lo..hi + 1][i - lo := s[j]][j - lo := s[i]];
  }

  /** Skip elements below the pivot; `stop` is an element that is not. */
  method ScanUp(a: array<nat>, i0: int, p: nat, ghost stop: nat) returns (i: int)
    requires 0 <= i0 <= stop < a.Length && a[stop] >= p
    ensures i0 <= i <= stop && a[i] >= p
    ensures AtMost(a[..], i0, i - 1, p)
  {
    i := i0;
    while a[i] < p
      invariant i0 <= i <= stop && AtMost(a[..], i0, i - 1, p)
      decreases stop - i
    {
      i := i + 1;
    }
  }

  method ScanDown(a: array<nat>, j0: int, p: nat, ghost stop: nat) returns (j: int)
    requires 0 <= stop <= j0 < a.Length && a[stop] <= p
    ensures stop <= j <= j0 && a[j] <= p
    ensures AtLeast(a[..], j + 1, j0, p)
  {
    j := j0;
    while a[j] > p
      invariant stop <= j <= j0 && AtLeast(a[..], j + 1, j0, p)
      decreases j
    {
      j := j - 1;
    }
  }

  /** The partition loop: everything up to j is at most the pivot, everything from i
      on is at least the pivot, and both sides are smaller than the range. */
  method Partition(a: array<nat>, lo: int, hi: int) returns (i: int, j: int, ghost pivot: nat)
    requires 0 <= lo < hi < a.Length
    modifies a
    ensures lo - 1 <= j < i <= hi + 1 && lo < i && j < hi
    ensures AtMost(a[..], lo, i - 1, pivot) && AtLeast(a[..], j + 1, hi, pivot)
    ensures Shuffled(a[..], old(a[..]), lo, hi)
  {
    var mid := (lo + hi) / 2;
    var p := a[mid];
    pivot := p;
    i, j := lo, hi;
    ghost var upper, lower := mid, mid;
    while i <= j
      invariant lo <= i <= hi + 1 && lo - 1 <= j <= hi
      invariant i <= j ==> i <= upper <= hi && lo <= lower <= j && a[upper] >= p && a[lower] <= p
      invariant (i == lo && j == hi) || (lo < i && j < hi)
      invariant AtMost(a[..], lo, i - 1, p) && AtLeast(a[..], j + 1, hi, p)
      invariant Shuffled(a[..], old(a[..]), lo, hi)
      decreases j - i
    {
      ghost var i0, j0 := i, j;
      i := ScanUp(a, i, p, upper);
      j := ScanDown(a, j, p, lower);
      AtMostJoin(a[..], lo, i0, i, p);
      AtLeastJoin(a[..], j, j0, hi, p);
      if i <= j {
        ghost var s := a[..];
        Swap(a, i, j, lo, hi);
        SwapKeeps(s, lo, hi, i, j, p);
        ShuffledTrans(a[..], s, old(a[..]), lo, hi);
        upper, lower := j, i;
        i := i + 1;
        j := j - 1;
      }
    }
  }

  lemma AtMostJoin(s: seq<nat>, lo: int, i0: int, i: int, p: nat)
    requires AtMost(s, lo, i0 - 1, p) && AtMost(s, i0, i - 1, p) && 0 <= lo <= i0 <= i <= |s|
    ensures AtMost(s, lo, i - 1, p)
  {
  }

  lemma AtLeastJoin(s: seq<nat>, j: int, j0: int, hi: int, p: nat)
    requires AtLeast(s, j + 1, j0, p) && AtLeast(s, j0 + 1, hi, p) && -1 <= j <= j0 <= hi < |s|
    ensures AtLeast(s, j + 1, hi, p)
  {
  }

  lemma SwapKeeps(s: seq<nat>, lo: int, hi: int, i: int, j: int, p: nat)
    requires 0 <= lo <= i <= j <= hi < |s| && s[i] >= p && s[j] <= p
    requires AtMost(s, lo, i - 1, p) && AtLeast(s, j + 1, hi, p)
    ensures var t := s[i := s[j]][j := s[i]];
            AtMost(t, lo, i, p) && AtLeast(t, j, hi, p)
  {
  }

  /** One level above a part of at most half the size. */
  lemma Deeper(depth: nat, d: nat, n: nat, m: int) returns (r: nat)
    requires 2 <= n && 2 * m <= n && (Pow2(depth) <= 1 || Pow2(depth) <= n) && (Pow2(d) <= 1 || Pow2(d) <= m)
    ensures r >= depth && r >= d + 1 && (r == depth || r == d + 1) && Pow2(r) <= n
  {
    r := if depth > d + 1 then depth else d + 1;
  }

  /** kexec_sort_phys. The recursion into the smaller part is never deeper than the logarithm
      of the number of addresses. */
  method Sort(a: array<nat>, lo0: int, hi0: int) returns (ghost depth: nat)
    requires 0 <= lo0 <= hi0 + 1 <= a.Length
    modifies a
    ensures Pow2(depth) <= 1 || Pow2(depth) <= hi0 + 1 - lo0
    ensures Sorted(a[..], lo0, hi0)
    ensures Shuffled(a[..], old(a[..]), lo0, hi0)
    decreases hi0 + 1 - lo0
  {
    var lo, hi := lo0, hi0;
    depth := 0;
    while lo < hi
      invariant lo0 <= lo <= hi + 1 <= hi0 + 1
      invariant Pow2(depth) <= 1 || Pow2(depth) <= hi0 + 1 - lo0
      invariant Shuffled(a[..], old(a[..]), lo0, hi0)
      invariant Framed(a[..], lo0, hi0, lo, hi)
      decreases hi - lo
    {
      ghost var s0 := a[..];
      var i, j, pivot := Partition(a, lo, hi);
      ghost var s1 := a[..];
      FramedShuffle(s1, s0, lo0, hi0, lo, hi);
      Widened(s1, s0, old(a[..]), lo0, hi0, lo, hi);
      if j - lo < hi - i {
        ghost var d := Sort(a, lo, j);
        depth := Deeper(depth, d, hi0 + 1 - lo0, j + 1 - lo);
        FramedLeft(a[..], s1, lo0, hi0, lo, hi, i, j, pivot);
        Widened(a[..], s1, old(a[..]), lo0, hi0, lo, j);
        lo := i;
      } else {
        ghost var d := Sort(a, i, hi);
        depth := Deeper(depth, d, hi0 + 1 - lo0, hi + 1 - i);
        FramedRight(a[..], s1, lo0, hi0, lo, hi, i, j, pivot);
        Widened(a[..], s1, old(a[..]), lo0, hi0, i, hi);
        hi := j;
      }
    }
  }

  /** Within lo0..hi0, what lies outside lo..hi is in its final place. */
  ghost predicate Framed(s: seq<nat>, lo0: int, hi0: int, lo: int, hi: int)
  {
    && 0 <= lo0 <= lo <= hi + 1 <= hi0 + 1 <= |s|
    && (forall x, y | lo0 <= x < y <= hi0 && (x < lo || hi < y) :: s[x] <= s[y])
  }

  lemma Widened(s: seq<nat>, t: seq<nat>, u: seq<nat>, lo0: int, hi0: int, lo: int, hi: int)
    requires Shuffled(s, t, lo, hi) && Shuffled(t, u, lo0, hi0)
    requires lo0 <= lo <= hi + 1 <= hi0 + 1
    ensures Shuffled(s, u, lo0, hi0)
  {
    ShuffledWiden(s, t, lo, hi, lo0, hi0);
    ShuffledTrans(s, t, u, lo0, hi0);
  }

  /** Rearranging the unfinished part keeps the rest in place. */
  lemma FramedShuffle(s: seq<nat>, t: seq<nat>, lo0: int, hi0: int, lo: int, hi: int)
    requires Framed(t, lo0, hi0, lo, hi) && Shuffled(s, t, lo, hi)
    ensures Framed(s, lo0, hi0, lo, hi)
  {
    forall x, y | lo0 <= x < y <= hi0 && (x < lo || hi < y)
      ensures s[x] <= s[y]
    {
      if x < lo {
        ShuffledOutside(s, t, lo, hi, x);
        assert AtLeast(t, lo, hi, t[x]);
        ShuffledBounds(s, t, lo, hi, t[x]);
        if !(lo <= y <= hi) {
          ShuffledOutside(s, t, lo, hi, y);
        }
      } else {
        ShuffledOutside(s, t, lo, hi, y);
        assert AtMost(t, lo, hi, t[y]);
        ShuffledBounds(s, t, lo, hi, t[y]);
        if !(lo <= x <= hi) {
          ShuffledOutside(s, t, lo, hi, x);
        }
      }
    }
  }

  /** After sorting the left side, only the right side is unfinished. */
  lemma FramedLeft(s: seq<nat>, t: seq<nat>, lo0: int, hi0: int, lo: int, hi: int, i: int, j: int, pivot: nat)
    requires Framed(t, lo0, hi0, lo, hi) && lo - 1 <= j < i <= hi + 1 && lo < i && j < hi
    requires AtMost(t, lo, i - 1, pivot) && AtLeast(t, j + 1, hi, pivot)
    requires Shuffled(s, t, lo, j) && Sorted(s, lo, j)
    ensures Framed(s, lo0, hi0, i, hi)
  {
    ShuffledWiden(s, t, lo, j, lo, hi);
    FramedShuffle(s, t, lo0, hi0, lo, hi);
    ShuffledBounds(s, t, lo, j, pivot);
    forall k | lo <= k <= hi
      ensures k <= i - 1 ==> s[k] <= pivot
      ensures k > j ==> pivot <= s[k]
    {
      if k > j {
        ShuffledOutside(s, t, lo, j, k);
      }
    }
  }

  /** After sorting the right side, only the left side is unfinished. */
  lemma FramedRight(s: seq<nat>, t: seq<nat>, lo0: int, hi0: int, lo: int, hi: int, i: int, j: int, pivot: nat)
    requires Framed(t, lo0, hi0, lo, hi) && lo - 1 <= j < i <= hi + 1 && lo < i && j < hi
    requires AtMost(t, lo, i - 1, pivot) && AtLeast(t, j + 1, hi, pivot)
    requires Shuffled(s, t, i, hi) && Sorted(s, i, hi)
    ensures Framed(s, lo0, hi0, lo, j)
  {
    ShuffledWiden(s, t, i, hi, lo, hi);
    FramedShuffle(s, t, lo0, hi0, lo, hi);
    ShuffledBounds(s, t, i, hi, pivot);
    forall k | lo <= k <= hi
      ensures k < i ==> s[k] <= pivot
      ensures k > j ==> pivot <= s[k]
    {
      if k < i {
        ShuffledOutside(s, t, i, hi, k);
      }
    }
  }
}
