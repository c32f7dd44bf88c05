/**
 * Unsigned 64-bit arithmetic and the bit helpers the translator relies on:
 * `champsim::lg2`, `champsim::bitmask` and `champsim::splice_bits`.
 */
module Bits {
  const TWO_TO_64: int := 0x1_0000_0000_0000_0000
  const U64_MAX: int := TWO_TO_64 - 1

  /** `uint64_t` */
  type u64 = x: int | 0 <= x < TWO_TO_64
  /** `uint32_t` */
  type u32 = x: int | 0 <= x < 0x1_0000_0000

  function Pow2(n: nat): (r: nat)
    ensures r >= 1
  {
    if n == 0 then 1 else 2 * Pow2(n - 1)
  }

  /** `a + b` on `uint64_t`: wraps around modulo 2^64. */
  function Add64(a: u64, b: u64): (r: u64)
    ensures a + b < TWO_TO_64 ==> r == a + b
    ensures a + b >= TWO_TO_64 ==> r == a + b - TWO_TO_64
  {
    (a + b) % TWO_TO_64
  }

  /** `a - b` on `uint64_t`: wraps around modulo 2^64. */
  function Sub64(a: u64, b: u64): (r: u64)
    ensures a >= b ==> r == a - b
    ensures a < b ==> r == a - b + TWO_TO_64
  {
    (a - b) % TWO_TO_64
  }

  /** `x >> n`, taken as the mathematical shift for every `n` (C++ leaves n >= 64 undefined). */
  function Shr(x: u64, n: nat): (r: u64)
    ensures r <= x
    ensures r * Pow2(n) <= x < (r + 1) * Pow2(n)
  {
    Quotient(x, Pow2(n))
  }

  /** `x / p` for a positive divisor, kept apart from `Pow2` so that the solver sees plain numbers. */
  function Quotient(x: u64, p: nat): (r: u64)
    requires p >= 1
    ensures r <= x
    ensures r * p <= x < (r + 1) * p
  {
    QuotientAtMost(x, p);
    QuotientBracket(x, p);
    x / p
  }

  /** `x / p` is the largest multiplier of `p` that stays at or below `x`. */
  lemma QuotientBracket(x: nat, p: nat)
    requires p >= 1
    ensures (x / p) * p <= x < (x / p + 1) * p
  {
    var q, m := x / p, x % p;
    assert x == q * p + m;
    assert (q + 1) * p == q * p + p;
  }

  /** `x << n` on `uint64_t`: the bits shifted past bit 63 are lost. */
  function Shl64(x: u64, n: nat): (r: u64)
    ensures x * Pow2(n) < TWO_TO_64 ==> r == x * Pow2(n)
  {
    (x * Pow2(n)) % TWO_TO_64
  }

  /** `champsim::lg2`: the floor of the base-2 logarithm, 0 for 0 and 1. */
  function Lg2(n: nat): (r: nat)
    ensures n <= 1 ==> r == 0
    ensures n >= 1 ==> Pow2(r) <= n < 2 * Pow2(r)
    decreases n
  {
    if n < 2 then 0 else 1 + Lg2(n / 2)
  }

  /** `champsim::bitmask(n)`: the low `n` bits set, and no bit above them. */
  function Bitmask(n: nat): (r: nat)
    ensures r < Pow2(n)
    ensures forall k :: 0 <= k <= n ==> r % Pow2(k) + 1 == Pow2(k)
  {
    assert forall k :: 0 <= k <= n ==> (Pow2(n) - 1) % Pow2(k) + 1 == Pow2(k) by {
      forall k | 0 <= k <= n {
        LowBitsOfAllOnes(n, k);
      }
    }
    Pow2(n) - 1
  }

  /** Every low part of `2^n - 1` is all ones: `(2^n - 1) mod 2^k == 2^k - 1` for `k <= n`. */
  lemma LowBitsOfAllOnes(n: nat, k: nat)
    requires k <= n
    ensures (Pow2(n) - 1) % Pow2(k) + 1 == Pow2(k)
  {
    Pow2Add(k, n - k);
    AllOnesMod(Pow2(k), Pow2(n - k));
  }

  /** `low * high - 1` leaves `low - 1` modulo `low`. */
  lemma AllOnesMod(low: nat, high: nat)
    requires low >= 1 && high >= 1
    ensures (low * high - 1) % low + 1 == low
  {
    assert low * high - 1 == (high - 1) * low + (low - 1);
    DivModOfSum(high - 1, low - 1, low);
  }

  /** `x & champsim::bitmask(n)`: the low `n` bits of `x`. */
  function LowBits(x: nat, n: nat): (r: nat)
    ensures r < Pow2(n)
    ensures x < Pow2(n) ==> r == x
    ensures (x / Pow2(n)) * Pow2(n) + r == x
  {
    var p := Bitmask(n) + 1;
    assert p == Pow2(n);
    QuotientAndRemainder(x, p);
    if x < p then DivModOfSum(0, x, p); x % p else x % p
  }

  lemma QuotientAndRemainder(x: nat, p: nat)
    requires p >= 1
    ensures (x / p) * p + x % p == x && x % p < p
  {
  }

  ghost predicate IsPowerOfTwo(x: int)
  {
    exists k: nat :: x == Pow2(k)
  }

  lemma {:induction false} Pow2Add(a: nat, b: nat)
    ensures Pow2(a + b) == Pow2(a) * Pow2(b)
    decreases a
  {
    if a > 0 {
      Pow2Add(a - 1, b);
      assert Pow2(a + b) == 2 * Pow2(a - 1 + b);
    }
  }

  lemma {:induction false} Pow2Monotone(a: nat, b: nat)
    requires a <= b
    ensures Pow2(a) <= Pow2(b)
    ensures a < b ==> 2 * Pow2(a) <= Pow2(b)
    decreases b
  {
    if a < b {
      Pow2Monotone(a, b - 1);
    }
  }

  lemma Pow2At16()
    ensures Pow2(4) == 0x10 && Pow2(8) == 0x100 && Pow2(16) == 0x1_0000
  {
    assert Pow2(2) == 4;
    Pow2Add(2, 2);
    Pow2Add(4, 4);
    Pow2Add(8, 8);
  }

  lemma Pow2At64()
    ensures Pow2(64) == TWO_TO_64
  {
    Pow2At16();
    Pow2Add(16, 16);
    Pow2Add(32, 32);
  }

  /** `lg2` recovers the exponent of a power of two. */
  lemma {:induction false} Lg2OfPow2(k: nat)
    ensures Lg2(Pow2(k)) == k
    decreases k
  {
    if k > 0 {
      Lg2OfPow2(k - 1);
      assert Pow2(k) / 2 == Pow2(k - 1);
    }
  }

  /** The exponent `lg2` yields for a 64-bit value is at most 63. */
  lemma Lg2Below64(x: u64)
    ensures Lg2(x) < 64
  {
    if x >= 1 && Lg2(x) >= 64 {
      Pow2Monotone(64, Lg2(x));
      Pow2At64();
    }
  }

  /** `x == 1ull << lg2(x)` holds exactly of the powers of two. */
  lemma PowerOfTwoTest(x: u64)
    ensures x == Shl64(1, Lg2(x)) <==> IsPowerOfTwo(x)
  {
    if x == 0 {
      assert Shl64(1, Lg2(x)) == 1;
    } else {
      Lg2Below64(x);
      assert Pow2(Lg2(x)) <= x;
      assert Shl64(1, Lg2(x)) == Pow2(Lg2(x));
      if IsPowerOfTwo(x) {
        var k: nat :| x == Pow2(k);
        Lg2OfPow2(k);
      }
    }
  }

  /** Division and remainder by `p` undo `q * p + s` for `s < p`. */
  lemma DivModOfSum(q: nat, s: nat, p: nat)
    requires s < p
    ensures (q * p + s) / p == q
    ensures (q * p + s) % p == s
  {
    var x := q * p + s;
    var d, m := x / p, x % p;
    assert x == d * p + m;
    MulMonotone(q + 1, d, p);
    MulMonotone(d + 1, q, p);
  }

  lemma QuotientAtMost(x: nat, p: nat)
    requires p >= 1
    ensures x / p <= x
  {
    var q := x / p;
    assert q * p <= x;
    MulMonotone(1, p, q);
  }

  lemma MulMonotone(a: nat, b: nat, p: nat)
    ensures a <= b ==> a * p <= b * p
  {
  }

  lemma QuotientRoom(u: nat, p: nat, k: nat, t: nat)
    requires p >= 1 && p * k == t && u < t
    ensures (u / p + 1) * p <= t
  {
    var q := u / p;
    assert q * p <= u;
    MulMonotone(k, q, p);
    MulMonotone(q + 1, k, p);
  }

  /** 2^n * 2^(64 - n) == 2^64 */
  lemma Pow2Split64(n: nat)
    requires n <= 64
    ensures Pow2(n) * Pow2(64 - n) == TWO_TO_64
  {
    Pow2Add(n, 64 - n);
    Pow2At64();
  }

  /** The bits above position `n` of a 64-bit value, put back in place, leave room for `n` low bits. */
  lemma HighPartBound(upper: u64, n: nat)
    requires n < 64
    ensures (upper / Pow2(n) + 1) * Pow2(n) <= TWO_TO_64
  {
    Pow2Split64(n);
    QuotientRoom(upper, Pow2(n), Pow2(64 - n), TWO_TO_64);
  }

  lemma MultipleModMultiple(x: nat, p: nat, k: nat, t: nat)
    requires p >= 1 && k >= 1 && p * k == t
    ensures ((x * p) % t) % p == 0
  {
    var c, m := (x * p) / t, (x * p) % t;
    assert x * p == c * t + m;
    assert c * t == (c * k) * p;
    var d := x - c * k;
    assert m == d * p;
    DivModOfSum(d, 0, p);
  }

  /** A value shifted left by `n` bits in 64-bit arithmetic has its low `n` bits clear. */
  lemma {:induction false} Shl64LowBitsClear(x: u64, n: nat)
    requires n <= 64
    ensures Shl64(x, n) % Pow2(n) == 0
  {
    Pow2Split64(n);
    MulMonotone(1, Pow2(64 - n), Pow2(n));
    MultipleModMultiple(x, Pow2(n), Pow2(64 - n), TWO_TO_64);
  }

  /** `champsim::splice_bits(upper, lower, n)`: the low `n` bits of `lower`
      under the remaining bits of `upper`. */
  function SpliceBits(upper: u64, lower: u64, n: nat): (r: u64)
    requires n < 64
    ensures r % Pow2(n) == lower % Pow2(n)
    ensures r / Pow2(n) == upper / Pow2(n)
  {
    var p := Pow2(n);
    var q := upper / p;
    var s := lower % p;
    HighPartBound(upper, n);
    DivModOfSum(q, s, p);
    q * p + s
  }
}
