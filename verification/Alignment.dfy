/** Powers of two and rounding up to them: the arithmetic behind every layout
    and every aligned cursor of the library. */
module Alignment {

  /** The check made by the scalar constructors before they accept an alignment. */
  predicate IsPow2(a: nat) {
    a == 1 || (a > 1 && a % 2 == 0 && IsPow2(a / 2))
  }

  type Pow2 = a: nat | a > 0 && IsPow2(a) witness 1

  function Max(x: nat, y: nat): nat {
    if x < y then y else x
  }

  function MaxPow2(x: Pow2, y: Pow2): (r: Pow2)
    ensures r == Max(x, y)
  {
    if x < y then y else x
  }

  /** The bytes that `n` consecutive elements of `x` bytes take. */
  function Span(n: nat, x: nat): nat {
    if n == 0 then 0 else x + Span(n - 1, x)
  }

  lemma {:induction false} SpanIsProduct(n: nat, x: nat)
    ensures Span(n, x) == n * x
    decreases n
  {
    if n > 0 { SpanIsProduct(n - 1, x); }
  }

  lemma SpanSucc(n: nat, x: nat)
    ensures Span(0, x) == 0 && Span(1, x) == x
    ensures Span(n + 1, x) == x + Span(n, x)
  {
  }

  lemma SpanMonotone(m: nat, n: nat, x: nat, y: nat)
    requires m <= n && x <= y
    ensures Span(m, x) <= Span(n, y)
  {
    SpanIsProduct(m, x);
    SpanIsProduct(n, y);
    assert m * x <= n * x;
    assert n * x <= n * y;
  }

  lemma SpanAdd(m: nat, n: nat, x: nat)
    ensures Span(m, x) + Span(n, x) == Span(m + n, x)
  {
    SpanIsProduct(m, x);
    SpanIsProduct(n, x);
    SpanIsProduct(m + n, x);
  }

  /** The remainder of a division, by repeated subtraction. */
  function Remainder(x: nat, a: nat): (r: nat)
    requires a > 0
    ensures r < a
    decreases x
  {
    if x < a then x else Remainder(x - a, a)
  }

  predicate Aligned(x: nat, a: Pow2) {
    Remainder(x, a) == 0
  }

  /** What every layout loop adds to get to the next aligned offset. */
  function Padding(x: nat, a: Pow2): nat {
    if Remainder(x, a) == 0 then 0 else a - Remainder(x, a)
  }

  function AlignUp(x: nat, a: Pow2): nat {
    x + Padding(x, a)
  }

  /** Euclidean division is determined by its quotient and remainder. */
  lemma DivModUnique(x: int, a: int, q: int, r: int)
    requires a > 0 && x == q * a + r && 0 <= r < a
    ensures x / a == q && x % a == r
  {
    var q', r' := x / a, x % a;
    assert x == q' * a + r';
    assert (q - q') * a == r' - r;
    assert q - q' >= 1 ==> (q - q') * a >= a;
    assert q - q' <= -1 ==> (q - q') * a <= -a;
  }

  lemma {:induction false} RemainderIsMod(x: nat, a: nat)
    requires a > 0
    ensures Remainder(x, a) == x % a
    decreases x
  {
    if x < a {
      DivModUnique(x, a, 0, x);
    } else {
      RemainderIsMod(x - a, a);
      DivModUnique(x, a, (x - a) / a + 1, (x - a) % a);
    }
  }

  /** The idiom of the layout loops. */
  lemma PaddingIsIdiom(x: nat, a: Pow2)
    ensures Padding(x, a) == (a - x % a) % a
  {
    RemainderIsMod(x, a);
    if x % a == 0 {
      DivModUnique(a, a, 1, 0);
    } else {
      DivModUnique(a - x % a, a, 0, a - x % a);
    }
  }

  lemma MultipleMod(k: int, a: int)
    requires a > 0
    ensures (k * a) % a == 0
  {
    DivModUnique(k * a, a, k, 0);
  }

  /** Adding a multiple of `a` leaves the residue alone. */
  lemma ModAddMultiple(x: int, y: int, a: int)
    requires a > 0 && x % a == 0
    ensures (x + y) % a == y % a && (y + x) % a == y % a
  {
    assert x + y == (x / a + y / a) * a + y % a;
    DivModUnique(x + y, a, x / a + y / a, y % a);
  }

  lemma MultipleOfMultiple(n: nat, x: nat, a: nat)
    requires a > 0 && x % a == 0
    ensures (n * x) % a == 0
  {
    var q := x / a;
    assert x == q * a;
    assert n * x == (n * q) * a;
    MultipleMod(n * q, a);
  }

  /** A smaller power of two divides a larger one. */
  lemma {:induction false} Pow2Divides(p: Pow2, q: Pow2)
    requires p <= q
    ensures q % p == 0
    decreases p
  {
    assert IsPow2(p) && IsPow2(q);
    if p > 1 {
      Pow2Divides(p / 2, q / 2);
      var k := (q / 2) / (p / 2);
      assert q / 2 == k * (p / 2);
      assert q == k * p;
      MultipleMod(k, p);
    }
  }

  /** Being aligned to `q` is being aligned to every smaller power of two. */
  lemma AlignedWeaken(x: nat, p: Pow2, q: Pow2)
    requires p <= q && Aligned(x, q)
    ensures Aligned(x, p)
  {
    RemainderIsMod(x, p);
    RemainderIsMod(x, q);
    Pow2Divides(p, q);
    MultipleOfMultiple(x / q, q, p);
    assert x == (x / q) * q;
  }

  lemma AlignedAdd(x: nat, y: nat, a: Pow2)
    requires Aligned(x, a)
    ensures Aligned(x + y, a) == Aligned(y, a)
  {
    RemainderIsMod(x, a);
    RemainderIsMod(y, a);
    RemainderIsMod(x + y, a);
    ModAddMultiple(x, y, a);
  }

  lemma AlignedSpan(n: nat, x: nat, a: Pow2)
    requires Aligned(x, a)
    ensures Aligned(Span(n, x), a)
  {
    RemainderIsMod(x, a);
    SpanIsProduct(n, x);
    RemainderIsMod(Span(n, x), a);
    MultipleOfMultiple(n, x, a);
  }

  lemma AlignedSelf(a: Pow2)
    ensures Aligned(a, a)
  {
  }

  lemma AlignUpForm(x: nat, a: Pow2)
    ensures AlignUp(x, a) == if x % a == 0 then x else (x / a + 1) * a
  {
    RemainderIsMod(x, a);
    assert x == (x / a) * a + x % a;
  }

  lemma NextMultiple(q: int, r: int, d: int, a: int)
    requires 0 < r < a && q * a + r <= d * a
    ensures (q + 1) * a <= d * a
  {
    assert d <= q ==> d * a <= q * a;
    assert d >= q + 1 ==> d * a >= (q + 1) * a;
  }

  /** `AlignUp` gives an aligned number, less than `a` above `x`. */
  lemma AlignUpBounds(x: nat, a: Pow2)
    ensures Aligned(AlignUp(x, a), a) && x <= AlignUp(x, a) < x + a
  {
    AlignUpForm(x, a);
    RemainderIsMod(x, a);
    RemainderIsMod(AlignUp(x, a), a);
    MultipleMod(x / a + 1, a);
    assert x == (x / a) * a + x % a;
  }

  /** No aligned number lies between `x` and `AlignUp(x, a)`. */
  lemma AlignUpLeast(x: nat, a: Pow2, y: nat)
    requires x <= y && Aligned(y, a)
    ensures AlignUp(x, a) <= y
  {
    AlignUpForm(x, a);
    RemainderIsMod(y, a);
    if x % a != 0 {
      NextMultiple(x / a, x % a, y / a, a);
    }
  }

  lemma AlignUpIdle(x: nat, a: Pow2)
    requires Aligned(x, a)
    ensures AlignUp(x, a) == x
  {
  }

  lemma AlignUpZero(a: Pow2)
    ensures Aligned(0, a) && AlignUp(0, a) == 0
  {
  }

  lemma AlignUpMonotone(x: nat, y: nat, a: Pow2)
    requires x <= y
    ensures AlignUp(x, a) <= AlignUp(y, a)
  {
    AlignUpBounds(y, a);
    AlignUpLeast(x, a, AlignUp(y, a));
  }

  /** Rounding an absolute address up is rounding the offset up, when the base is aligned. */
  lemma AlignUpShift(base: nat, x: nat, a: Pow2)
    requires Aligned(base, a)
    ensures AlignUp(base + x, a) == base + AlignUp(x, a)
  {
    RemainderIsMod(base, a);
    RemainderIsMod(x, a);
    RemainderIsMod(base + x, a);
    ModAddMultiple(base, x, a);
  }
}
