/** Machine words as natural numbers.  Shifts and masks by constants are written with `*`, `/` and `%`;
    the bitwise operators that combine two variables are defined here, one bit at a time. */
module Bits {

  type byte = b: nat | b < 256

  const WORD32: nat := 0x1_0000_0000
  const WORD64: nat := 0x1_0000_0000_0000_0000

  function Pow2(n: nat): (p: nat)
    ensures p >= 1
  {
    if n == 0 then 1 else 2 * Pow2(n - 1)
  }

  /** `v << n` */
  function Shl(v: nat, n: nat): nat {
    if n == 0 then v else 2 * Shl(v, n - 1)
  }

  /** `v >> n` */
  function Shr(v: nat, n: nat): (r: nat)
    ensures r <= v
    decreases n
  {
    if n == 0 then v else Shr(v / 2, n - 1)
  }

  /** The `n` lowest bits of `v`. */
  function Low(v: nat, n: nat): nat
    decreases n
  {
    if n == 0 then 0 else v % 2 + 2 * Low(v / 2, n - 1)
  }

  /** A number is its high bits and its low bits. */
  lemma {:induction false} ShlShr(v: nat, n: nat)
    ensures Shl(Shr(v, n), n) + Low(v, n) == v
    decreases n
  {
    if n > 0 {
      ShlShr(v / 2, n - 1);
    }
  }

  lemma {:induction false} ShlIsMul(v: nat, n: nat)
    ensures Shl(v, n) == v * Pow2(n)
  {
    if n > 0 {
      ShlIsMul(v, n - 1);
    }
  }

  lemma {:induction false} LowTwoMore(v: nat, n: nat)
    ensures Low(v, n + 2) == Low(v, n) + Shl(Shr(v, n) % 4, n)
    decreases n
  {
    if n == 0 {
      assert Low(v / 2, 1) == v / 2 % 2 + 2 * Low(v / 2 / 2, 0);
    } else {
      LowTwoMore(v / 2, n - 1);
    }
  }

  lemma {:induction false} ShrAdd(v: nat, m: nat, n: nat)
    ensures Shr(Shr(v, m), n) == Shr(v, m + n)
    decreases m
  {
    if m > 0 {
      ShrAdd(v / 2, m - 1, n);
    }
  }

  function BitOr(a: nat, b: nat): nat
    decreases a + b
  {
    if a == 0 then b
    else if b == 0 then a
    else (if a % 2 == 1 || b % 2 == 1 then 1 else 0) + 2 * BitOr(a / 2, b / 2)
  }

  function BitXor(a: nat, b: nat): nat
    decreases a + b
  {
    if a == 0 then b
    else if b == 0 then a
    else (if a % 2 != b % 2 then 1 else 0) + 2 * BitXor(a / 2, b / 2)
  }

  function BitAnd(a: nat, b: nat): nat
    decreases a
  {
    if a == 0 then 0 else (if a % 2 == 1 && b % 2 == 1 then 1 else 0) + 2 * BitAnd(a / 2, b / 2)
  }

  /** The number of zero bits below the lowest one bit. */
  function TrailingZeros(v: nat): nat
    requires v != 0
  {
    if v % 2 == 1 then 0 else 1 + TrailingZeros(v / 2)
  }

  /** Operands whose bits do not overlap are combined by `|` as by `+`. */
  lemma {:induction false} OrDisjoint(high: nat, low: nat, k: nat)
    requires low < Pow2(k)
    ensures BitOr(high * Pow2(k), low) == high * Pow2(k) + low
    ensures BitOr(low, high * Pow2(k)) == high * Pow2(k) + low
    decreases k
  {
    if k > 0 && low != 0 && high != 0 {
      var h := high * Pow2(k - 1);
      assert high * Pow2(k) == 2 * h;
      OrDisjoint(high, low / 2, k - 1);
    }
  }

  lemma {:induction false} LowIsMod(v: nat, n: nat)
    ensures Low(v, n) == v % Pow2(n)
    decreases n
  {
    if n > 0 {
      LowIsMod(v / 2, n - 1);
      ModHalf(v, Pow2(n - 1));
    }
  }

  lemma ModHalf(m: nat, p: nat)
    requires p >= 1
    ensures m % (2 * p) == m % 2 + 2 * (m / 2 % p)
  {
    var q, r := m / 2 / p, m / 2 % p;
    assert m / 2 == q * p + r;
    ModUnique(m, 2 * p, q, m % 2 + 2 * r);
  }

  lemma ModUnique(m: nat, p: nat, q: nat, r: nat)
    requires r < p && m == q * p + r
    ensures m % p == r && m / p == q
  {
    var q', r' := m / p, m % p;
    if q > q' {
      assert p * (q - q') == r' - r;
      MulGrows(p, q - q');
    } else if q < q' {
      assert p * (q' - q) == r - r';
      MulGrows(p, q' - q);
    }
  }

  lemma MulMonotone(a: nat, b: nat, t: nat)
    requires a <= b
    ensures t * a <= t * b && a * t <= b * t
    ensures t * (a + 1) == t * a + t && (a + 1) * t == a * t + t
  {
    assert t * b == t * a + t * (b - a);
  }

  lemma MulGrows(a: nat, b: nat)
    requires b >= 1
    ensures a * b >= a
  {
  }

  lemma {:induction false} Pow2Add(a: nat, b: nat)
    ensures Pow2(a + b) == Pow2(a) * Pow2(b)
  {
    if a > 0 {
      Pow2Add(a - 1, b);
      assert 2 * (Pow2(a - 1) * Pow2(b)) == (2 * Pow2(a - 1)) * Pow2(b);
    }
  }
}
