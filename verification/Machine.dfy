/**
 Machine-level vocabulary shared by the other modules: bytes, the moduli of the
 fixed-width integers the kernel uses, and the bitwise AND of two naturals.
 */
module Machine {
  type Byte = b: int | 0 <= b < 256

  const U16: nat := 0x1_0000
  const U32: nat := 0x1_0000_0000
  const U64: nat := 0x1_0000_0000_0000_0000

  datatype Option<T> = None | Some(value: T)

  function Zeros(n: nat): (z: seq<Byte>)
    ensures |z| == n && forall i | 0 <= i < n :: z[i] == 0
  {
    seq(n, _ => 0)
  }

  function Min(a: nat, b: nat): (m: nat)
  {
    if a < b then a else b
  }

  /** The product as repeated addition, for proofs about positions in units. */
  function Times(n: nat, unit: nat): (p: nat)
    decreases n
  {
    if n == 0 then 0 else Times(n - 1, unit) + unit
  }

  lemma {:induction false} TimesIsProduct(n: nat, unit: nat)
    ensures Times(n, unit) == n * unit
    decreases n
  {
    if n > 0 {
      TimesIsProduct(n - 1, unit);
    }
  }

  lemma {:induction false} TimesOrder(unit: nat, a: nat, b: nat)
    requires a <= b
    ensures Times(a, unit) <= Times(b, unit)
    ensures a < b ==> Times(a, unit) + unit <= Times(b, unit)
    decreases b
  {
    if a < b {
      TimesOrder(unit, a, b - 1);
    }
  }

  /** A position is a number of whole units and a rest. */
  lemma TimesOfPosition(pos: nat, unit: nat)
    requires unit > 0
    ensures Times(pos / unit, unit) + pos % unit == pos && pos % unit < unit && pos / unit <= pos
  {
    DivMod(pos, unit);
    TimesIsProduct(pos / unit, unit);
    MulOrder(pos / unit, 1, unit);
  }

  lemma SliceJoin(s: seq<Byte>, i: nat, j: nat, k: nat)
    requires i <= j <= k <= |s|
    ensures s[i..j] + s[j..k] == s[i..k]
  {
  }

  /** Subtraction that stops at zero. */
  function Monus(a: nat, b: nat): (m: nat)
  {
    if a < b then 0 else a - b
  }

  function Max(a: nat, b: nat): (m: nat)
  {
    if a < b then b else a
  }

  /** Bitwise AND of two naturals, bit by bit from the right. */
  function BitAnd(x: nat, y: nat): (r: nat)
    ensures r <= x && r <= y
    decreases x
  {
    if x == 0 || y == 0 then 0
    else 2 * BitAnd(x / 2, y / 2) + (x % 2) * (y % 2)
  }

  function Pow2(k: nat): (p: nat)
    ensures p > 0
  {
    if k == 0 then 1 else 2 * Pow2(k - 1)
  }

  /** Masking with 2^k - 1 is the remainder modulo 2^k. */
  lemma {:induction false} MaskIsMod(x: nat, k: nat)
    ensures BitAnd(x, Pow2(k) - 1) == x % Pow2(k)
    decreases k
  {
    if k == 0 {
      MaskNothing(x);
    } else if x == 0 {
      ZeroMod(Pow2(k));
    } else {
      MaskIsMod(x / 2, k - 1);
      MaskStep(x, Pow2(k - 1), Pow2(k));
    }
  }

  lemma MaskNothing(x: nat)
    ensures Pow2(0) == 1 && BitAnd(x, 0) == 0 == x % 1
  {
  }

  lemma MaskStep(x: nat, m: nat, mm: nat)
    requires x > 0 && m > 0 && mm == 2 * m && BitAnd(x / 2, m - 1) == x / 2 % m
    ensures BitAnd(x, mm - 1) == x % mm
  {
    HalveMod(x, m, mm);
    OddMask(x, mm - 1, m - 1);
  }

  lemma ZeroMod(m: nat)
    requires m > 0
    ensures 0 % m == 0
  {
  }

  lemma OddMask(x: nat, y: nat, h: nat)
    requires x > 0 && y == 2 * h + 1
    ensures BitAnd(x, y) == 2 * BitAnd(x / 2, h) + x % 2
  {
    assert y / 2 == h && y % 2 == 1;
  }

  lemma HalveMod(x: nat, m: nat, mm: nat)
    requires m > 0 && mm == 2 * m
    ensures x % mm == 2 * ((x / 2) % m) + x % 2
  {
    var h := x / 2;
    var q, r := h / m, h % m;
    DivMod(h, m);
    assert mm * q == 2 * (m * q);
    ModUnique(x, mm, q, 2 * r + x % 2);
  }

  lemma DivMod(x: nat, m: nat)
    requires m > 0
    ensures x == m * (x / m) + x % m && x % m < m
  {
  }

  lemma ModUnique(x: nat, m: nat, q: nat, r: nat)
    requires m > 0 && r < m && x == m * q + r
    ensures x % m == r && x / m == q
  {
    if x / m < q {
      MulOrder(m, x / m + 1, q);
    } else if x / m > q {
      MulOrder(m, q + 1, x / m);
    }
  }

  lemma MulOrder(m: nat, a: nat, b: nat)
    requires a <= b
    ensures m * a <= m * b
  {
  }

  /** Reducing first modulo a multiple of m changes nothing modulo m. */
  lemma ModOfMod(x: nat, m: nat, k: nat)
    requires m > 0 && k > 0
    ensures (x % (m * k)) % m == x % m
  {
    var q, r := x / (m * k), x % (m * k);
    var a, b := r / m, r % m;
    Regroup(m, k, q, a);
    ModUnique(x, m, k * q + a, b);
  }

  lemma Regroup(m: nat, k: nat, q: nat, a: nat)
    ensures (m * k) * q + m * a == m * (k * q + a)
  {
    assert (m * k) * q == m * (k * q);
  }
}
