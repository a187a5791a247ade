/** Bit-level rounding shared by the arena's `Align` and the D3D12 plugin's `AlignTo`.
    Both compute `(n + a - 1) & ~(a - 1)` for a power-of-two `a`; the mask
    `~(a - 1)` clears every bit of its operand below the single set bit of `a`. */
module BitMath {

  /** The smaller and the larger of two integers (`std::min`, `std::max`). */
  function Min(a: int, b: int): int { if a <= b then a else b }
  function Max(a: int, b: int): int { if a <= b then b else a }

  /** `a` is 1, 2, 4, 8, ... */
  predicate IsPow2(a: nat)
    decreases a
  {
    a == 1 || (a >= 2 && a % 2 == 0 && IsPow2(a / 2))
  }

  /** `x & ~(a - 1)` for a power of two `a`, taken bit by bit: when `a` is not 1,
      the lowest bit of `x` is below the set bit of `a`, so it is dropped,
      the rest is masked with `a / 2`, and the result is shifted back. */
  function ClearLowBits(x: nat, a: nat): nat
    requires IsPow2(a)
    decreases a
  {
    if a == 1 then x else 2 * ClearLowBits(x / 2, a / 2)
  }

  /** Division is unique: a quotient/remainder pair pins down `x / d`. */
  lemma DivUnique(x: nat, d: nat, q: nat, r: nat)
    requires d > 0 && r < d && x == q * d + r
    ensures x / d == q && x % d == r
  {
    var q', r' := x / d, x % d;
    assert x == q' * d + r';
    if q' < q {
      assert q' * d + d <= q * d by { MulMono(q' + 1, q, d); }
    } else if q' > q {
      assert q * d + d <= q' * d by { MulMono(q + 1, q', d); }
    }
  }

  lemma MulMono(i: nat, j: nat, d: nat)
    requires i <= j
    ensures i * d <= j * d
  {
  }

  /** Halving twice is dividing by four, and in general `x / (2b) == (x / 2) / b`. */
  lemma DivTwice(x: nat, b: nat)
    requires b > 0
    ensures x / (2 * b) == (x / 2) / b
  {
    var h := x / 2;
    var q, r := h / b, h % b;
    assert h == q * b + r;
    assert x == q * (2 * b) + (2 * r + x % 2);
    DivUnique(x, 2 * b, q, 2 * r + x % 2);
  }

  /** The mask rounds down to a multiple of `a`. */
  lemma {:induction false} ClearLowBitsRoundsDown(x: nat, a: nat)
    requires IsPow2(a)
    ensures ClearLowBits(x, a) == (x / a) * a
    decreases a
  {
    if a != 1 {
      var b := a / 2;
      ClearLowBitsRoundsDown(x / 2, b);
      DivTwice(x, b);
      var q := (x / 2) / b;
      assert a == 2 * b && x / a == q;
      assert ClearLowBits(x, a) == 2 * (q * b);
      assert q * (2 * b) == 2 * (q * b);
    }
  }

  /** The mask leaves a multiple of `a` no larger than `x`. */
  lemma ClearLowBitsAlignedBelow(x: nat, a: nat)
    requires IsPow2(a)
    ensures ClearLowBits(x, a) % a == 0 && ClearLowBits(x, a) <= x
  {
    ClearLowBitsRoundsDown(x, a);
    DivUnique((x / a) * a, a, x / a, 0);
  }

  /** Two multiples of `a` less than `a` apart, the higher one first, are equal or ordered. */
  lemma MultiplesApart(q: nat, k: nat, a: nat)
    requires a > 0 && k * a + a > q * a
    ensures q * a <= k * a
  {
    if k < q {
      MulMono(k + 1, q, a);
    }
  }

  /** Rounding `v + d - 1` down to a multiple of `d` gives the least multiple of `d` at or above `v`. */
  lemma RoundedUpFacts(v: nat, d: nat, q: nat)
    requires d > 0 && q == (v + d - 1) / d
    ensures (q * d) % d == 0 && v <= q * d < v + d
    ensures forall m: nat :: m % d == 0 && v <= m ==> q * d <= m
  {
    var n := v + d - 1;
    assert n == q * d + n % d;
    DivUnique(q * d, d, q, 0);
    forall m: nat | m % d == 0 && v <= m
      ensures q * d <= m
    {
      var k := m / d;
      assert m == k * d + 0;
      MultiplesApart(q, k, d);
    }
  }

  /** `(v + a - 1) & ~(a - 1)`, computed without wrap-around, is the least multiple
      of `a` that is at least `v`, and it is `v` itself when `v` is already aligned. */
  lemma RoundUpIsLeastMultiple(v: nat, a: nat)
    requires IsPow2(a)
    ensures var r := ClearLowBits(v + a - 1, a);
      && r % a == 0 && v <= r < v + a
      && (forall m: nat :: m % a == 0 && v <= m ==> r <= m)
      && (v % a == 0 ==> r == v)
  {
    ClearLowBitsRoundsDown(v + a - 1, a);
    RoundedUpFacts(v, a, (v + a - 1) / a);
  }
}
