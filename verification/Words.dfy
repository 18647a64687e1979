/** Machine words as natural numbers below a power of two.

    The bitwise operators are defined bit by bit, so that the facts at the end of the
    module (masking with `!(align - 1)` is rounding down, the wrapped sum rounds up) are
    theorems about the masks and not a definition of them. */
module Words {

  type Width = n: nat | n >= 8 witness 32

  /** The width of usize, 32 on Cortex-M. Nothing depends on its value, so it is left open. */
  const BITS: Width

  const USIZE_MAX: nat := Pow2(BITS) - 1

  function Pow2(k: nat): (p: nat)
    ensures p >= 1
  {
    if k == 0 then 1 else 2 * Pow2(k - 1)
  }

  // ----- bitwise operators on words of `w` bits -----

  function And(w: nat, a: nat, b: nat): nat {
    if w == 0 then 0
    else (if a % 2 == 1 && b % 2 == 1 then 1 else 0) + 2 * And(w - 1, a / 2, b / 2)
  }

  function Not(w: nat, a: nat): nat {
    if w == 0 then 0
    else (if a % 2 == 1 then 0 else 1) + 2 * Not(w - 1, a / 2)
  }

  function CountOnes(w: nat, a: nat): nat {
    if w == 0 then 0 else a % 2 + CountOnes(w - 1, a / 2)
  }

  /** Rust's `is_power_of_two` on usize. */
  predicate IsPowerOfTwo(a: nat) {
    CountOnes(BITS, a) == 1
  }

  function WrappingAdd(w: nat, a: int, b: int): nat {
    (a + b) % Pow2(w)
  }

  function WrappingSub(w: nat, a: int, b: int): nat {
    (a - b) % Pow2(w)
  }

  // ----- multiples -----

  ghost predicate Multiple(a: int, n: nat)
    requires n > 0
  {
    a % n == 0
  }

  /** `a` rounded up to the next multiple of `n`. */
  function RoundUp(a: nat, n: nat): nat
    requires n > 0
  {
    a + (n - a % n) % n
  }

  lemma {:induction false} MulMod(q: int, n: nat)
    requires n > 0
    ensures (q * n) % n == 0
  {
    DivModUnique(q * n, n, q, 0);
  }

  /** Quotient and remainder are unique. */
  lemma {:induction false} DivModUnique(a: int, n: nat, q: int, r: int)
    requires n > 0 && a == q * n + r && 0 <= r < n
    ensures a / n == q && a % n == r
  {
    var q', r' := a / n, a % n;
    assert a == q' * n + r' && 0 <= r' < n;
    assert (q - q') * n == r' - r;
    NonzeroProduct(q - q', n);
  }

  /** A nonzero multiple of `n` is at least `n` away from zero. */
  lemma {:induction false} NonzeroProduct(d: int, n: int)
    requires n > 0
    ensures d >= 1 ==> d * n >= n
    ensures d <= -1 ==> d * n <= -n
  {
    if d >= 1 {
      assert d * n == (d - 1) * n + n;
    } else if d <= -1 {
      assert d * n == (d + 1) * n - n;
      assert (d + 1) * n <= 0;
    }
  }

  /** Multiples of `n` are closed under sum and difference. */
  lemma {:induction false} MultipleSum(a: int, b: int, n: nat)
    requires n > 0 && Multiple(a, n) && Multiple(b, n)
    ensures Multiple(a + b, n) && Multiple(a - b, n)
  {
    var p, q := a / n, b / n;
    assert a == p * n && b == q * n;
    assert a + b == (p + q) * n && a - b == (p - q) * n;
    MulMod(p + q, n);
    MulMod(p - q, n);
  }

  /** Being a multiple is transitive. */
  lemma {:induction false} MultipleTrans(a: int, m: nat, n: nat)
    requires m > 0 && n > 0 && Multiple(a, m) && Multiple(m, n)
    ensures Multiple(a, n)
  {
    var p, q := a / m, m / n;
    assert a == p * m && m == q * n;
    assert a == (p * q) * n by { assert p * (q * n) == (p * q) * n; }
    MulMod(p * q, n);
  }

  /** A multiple of `n` strictly between -n and n is zero. */
  lemma {:induction false} SmallMultiple(a: int, n: int)
    requires n > 0 && Multiple(a, n) && -n < a < n
    ensures a == 0
  {
    if a < 0 {
      DivModUnique(a, n, -1, a + n);
    } else {
      DivModUnique(a, n, 0, a);
    }
  }

  /** Two different multiples are at least `n` apart. */
  lemma {:induction false} MultipleGap(a: int, b: int, n: int)
    requires n > 0 && Multiple(a, n) && Multiple(b, n) && a < b
    ensures a + n <= b
  {
    MultipleSum(b, a, n);
    if b - a < n {
      SmallMultiple(b - a, n);
    }
  }

  lemma {:induction false} MultiplesMeet(a: int, b: int, n: int)
    requires n > 0 && Multiple(a, n) && Multiple(b, n) && -n < a - b < n
    ensures a == b
  {
    MultipleSum(a, b, n);
    SmallMultiple(a - b, n);
  }

  /** Dropping the remainder gives the greatest multiple at or below. */
  lemma {:induction false} FloorBounds(a: nat, n: nat)
    requires n > 0
    ensures Multiple(a - a % n, n) && a - n < a - a % n <= a
  {
    assert a - a % n == (a / n) * n;
    MulMod(a / n, n);
  }

  lemma {:induction false} FloorGreatest(a: nat, n: nat, m: int)
    requires n > 0 && m <= a && Multiple(m, n)
    ensures m <= a - a % n
  {
    FloorBounds(a, n);
    if m > a - a % n {
      MultipleGap(a - a % n, m, n);
    }
  }

  /** `RoundUp` is a multiple at or above its argument, less than `n` away. */
  lemma {:induction false} RoundUpBounds(a: nat, n: nat)
    requires n > 0
    ensures Multiple(RoundUp(a, n), n) && a <= RoundUp(a, n) < a + n
  {
    var rem := a % n;
    assert a == (a / n) * n + rem;
    if rem == 0 {
      DivModUnique(n, n, 1, 0);
    } else {
      DivModUnique(n - rem, n, 0, n - rem);
      assert RoundUp(a, n) == (a / n) * n + n == (a / n + 1) * n;
      MulMod(a / n + 1, n);
    }
  }

  /** `RoundUp` is the least such multiple. */
  lemma {:induction false} RoundUpLeast(a: nat, n: nat, m: int)
    requires n > 0 && m >= a && Multiple(m, n)
    ensures RoundUp(a, n) <= m
  {
    RoundUpBounds(a, n);
    var r := RoundUp(a, n);
    if m < r {
      MultipleGap(m, r, n);
    }
  }

  lemma {:induction false} RoundUpFixed(a: nat, n: nat)
    requires n > 0 && Multiple(a, n)
    ensures RoundUp(a, n) == a
  {
    RoundUpBounds(a, n);
    RoundUpLeast(a, n, a);
  }

  lemma {:induction false} RoundUpSame(a: nat, n: nat)
    requires n > 0
    ensures RoundUp(a, n) == a <==> Multiple(a, n)
  {
    RoundUpBounds(a, n);
    if Multiple(a, n) {
      RoundUpFixed(a, n);
    }
  }

  // ----- powers of two -----

  lemma {:induction false} Pow2Multiple(j: nat, k: nat)
    requires j <= k
    ensures Multiple(Pow2(k), Pow2(j))
    decreases k
  {
    if j == k {
      DivModUnique(Pow2(k), Pow2(k), 1, 0);
    } else {
      Pow2Multiple(j, k - 1);
      MultipleSum(Pow2(k - 1), Pow2(k - 1), Pow2(j));
    }
  }

  lemma {:induction false} Pow2Monotone(j: nat, k: nat)
    requires j <= k
    ensures Pow2(j) <= Pow2(k)
    decreases k
  {
    if j < k {
      Pow2Monotone(j, k - 1);
    }
  }

  lemma {:induction false} ZeroHasNoOnes(w: nat)
    ensures CountOnes(w, 0) == 0
  {
    if w > 0 {
      ZeroHasNoOnes(w - 1);
    }
  }

  lemma {:induction false} NoOnesIsZero(w: nat, a: nat)
    requires a < Pow2(w) && CountOnes(w, a) == 0
    ensures a == 0
  {
    if w > 0 {
      NoOnesIsZero(w - 1, a / 2);
    }
  }

  lemma {:induction false} Pow2HasOneOne(w: nat, k: nat)
    requires k < w
    ensures CountOnes(w, Pow2(k)) == 1
  {
    if k == 0 {
      ZeroHasNoOnes(w - 1);
    } else {
      Pow2HasOneOne(w - 1, k - 1);
    }
  }

  lemma {:induction false} OneOneIsPow2(w: nat, a: nat) returns (k: nat)
    requires a < Pow2(w) && CountOnes(w, a) == 1
    ensures k < w && a == Pow2(k)
  {
    if a % 2 == 1 {
      NoOnesIsZero(w - 1, a / 2);
      k := 0;
    } else {
      k := OneOneIsPow2(w - 1, a / 2);
      k := k + 1;
    }
  }

  /** `is_power_of_two` counts ones; that count is one exactly for the powers of two. */
  lemma {:induction false} PowerOfTwoMeaning(a: nat)
    requires a <= USIZE_MAX
    ensures IsPowerOfTwo(a) <==> exists k: nat :: k < BITS && a == Pow2(k)
  {
    if IsPowerOfTwo(a) {
      var k := OneOneIsPow2(BITS, a);
    }
    if k: nat :| k < BITS && a == Pow2(k) {
      Pow2HasOneOne(BITS, k);
    }
  }

  /** The exponent of a power of two. */
  lemma {:induction false} Exponent(a: nat) returns (k: nat)
    requires a <= USIZE_MAX && IsPowerOfTwo(a)
    ensures k < BITS && a == Pow2(k)
  {
    k := OneOneIsPow2(BITS, a);
  }

  // ----- masks -----

  lemma {:induction false} AndZero(w: nat, a: nat)
    ensures And(w, a, 0) == 0
  {
    if w > 0 {
      AndZero(w - 1, a / 2);
    }
  }

  lemma {:induction false} AndAll(w: nat, a: nat)
    requires a < Pow2(w)
    ensures And(w, a, Not(w, 0)) == a
  {
    if w > 0 {
      AndAll(w - 1, a / 2);
    }
  }

  /** Halving commutes with taking the remainder by a doubled modulus. */
  lemma {:induction false} ModDouble(a: nat, n: nat)
    requires n > 0
    ensures a % (2 * n) == a % 2 + 2 * ((a / 2) % n)
  {
    var q, r := (a / 2) / n, (a / 2) % n;
    assert a / 2 == q * n + r;
    assert a == 2 * (a / 2) + a % 2;
    assert a == q * (2 * n) + (a % 2 + 2 * r) by { assert 2 * (q * n) == q * (2 * n); }
    DivModUnique(a, 2 * n, q, a % 2 + 2 * r);
  }

  lemma {:induction false} AndEven(w: nat, a: nat, x: nat)
    requires w > 0
    ensures And(w, a, 2 * x) == 2 * And(w - 1, a / 2, x)
  {
    assert (2 * x) % 2 == 0 && (2 * x) / 2 == x;
  }

  /** The mask of k low zeros is twice the mask of k - 1 low zeros. */
  lemma {:induction false} MaskEven(w: nat, k: nat)
    requires 0 < k && w > 0
    ensures Not(w, Pow2(k) - 1) == 2 * Not(w - 1, Pow2(k - 1) - 1)
  {
    assert (Pow2(k) - 1) % 2 == 1 && (Pow2(k) - 1) / 2 == Pow2(k - 1) - 1;
  }

  lemma {:induction false} FloorDouble(a: nat, n: nat)
    requires n > 0
    ensures a - a % (2 * n) == 2 * (a / 2 - (a / 2) % n)
  {
    ModDouble(a, n);
    assert a == 2 * (a / 2) + a % 2;
  }

  lemma {:induction false} MaskStep(w: nat, a: nat, k: nat)
    requires 0 < k && w > 0
    requires And(w - 1, a / 2, Not(w - 1, Pow2(k - 1) - 1)) == a / 2 - (a / 2) % Pow2(k - 1)
    ensures And(w, a, Not(w, Pow2(k) - 1)) == a - a % Pow2(k)
  {
    var low := Not(w - 1, Pow2(k - 1) - 1);
    calc {
      And(w, a, Not(w, Pow2(k) - 1));
      { MaskEven(w, k); }
      And(w, a, 2 * low);
      { AndEven(w, a, low); }
      2 * And(w - 1, a / 2, low);
      2 * (a / 2 - (a / 2) % Pow2(k - 1));
      { FloorDouble(a, Pow2(k - 1)); }
      a - a % Pow2(k);
    }
  }

  /** Masking with the complement of `align - 1` clears exactly the remainder. */
  lemma {:induction false} MaskClears(w: nat, a: nat, k: nat)
    requires a < Pow2(w) && k <= w
    ensures And(w, a, Not(w, Pow2(k) - 1)) == a - a % Pow2(k)
  {
    if k == 0 {
      AndAll(w, a);
    } else {
      MaskClears(w - 1, a / 2, k - 1);
      MaskStep(w, a, k);
    }
  }

  lemma {:induction false} AndBounded(w: nat, a: nat, b: nat)
    ensures And(w, a, b) < Pow2(w)
  {
    if w > 0 {
      AndBounded(w - 1, a / 2, b / 2);
    }
  }
}
