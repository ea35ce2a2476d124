/** Powers of two and multiples. */
module Arith {

  function Pow2(n: nat): (r: nat)
    ensures r >= 1
  {
    if n == 0 then 1 else 2 * Pow2(n - 1)
  }

  lemma MaskIsMultiple(v: nat, size: nat)
    requires size > 0
    ensures v - v % size >= 0 && (v - v % size) % size == 0
  {
    assert v - v % size == size * (v / size);
    MulMod(v / size, size);
  }

  lemma MulMod(k: nat, d: nat)
    requires d > 0
    ensures (k * d) % d == 0 && (d * k) % d == 0
  {
    assert (k * d + 0) % d == 0 by {
      DivUnique(k * d, k, d);
    }
  }

  lemma DivUnique(n: nat, k: nat, d: nat)
    requires d > 0 && k * d <= n < (k + 1) * d
    ensures n / d == k && n % d == n - k * d
  {
    var q := n / d;
    assert n == q * d + n % d;
    Scaled(q, k, d);
    Scaled(k, q, d);
    assert (q + 1) * d == q * d + d;
  }

  lemma Scaled(i: nat, j: nat, d: nat)
    ensures i < j ==> (i + 1) * d <= j * d
    ensures i <= j ==> i * d <= j * d
  {
    if i < j {
      assert j * d == (i + 1) * d + (j - i - 1) * d;
    }
  }

  lemma {:induction false} Pow2Sum(a: nat, b: nat)
    ensures Pow2(a + b) == Pow2(a) * Pow2(b)
  {
    if a > 0 {
      Pow2Sum(a - 1, b);
    }
  }

  lemma FactorDivides(n: nat, c: nat, d: nat)
    requires c > 0 && d > 0 && c * d > 0 && n % (c * d) == 0
    ensures n % d == 0
  {
    var k := n / (c * d);
    assert n == k * (c * d);
    assert k * (c * d) == (k * c) * d;
    MulMod(k * c, d);
  }

  /** A multiple of a larger power of two is a multiple of a smaller one. */
  lemma MultipleOfSmaller(n: nat, big: nat, small: nat)
    requires small <= big && n % Pow2(big) == 0
    ensures n % Pow2(small) == 0
  {
    Pow2Sum(big - small, small);
    FactorDivides(n, Pow2(big - small), Pow2(small));
  }

  /** Two multiples of `d` with a < b are at least `d` apart. */
  lemma MultiplesApart(a: nat, b: nat, d: nat)
    requires d > 0 && a % d == 0 && b % d == 0 && a < b
    ensures a + d <= b
  {
    var i, j := a / d, b / d;
    assert a == i * d && b == j * d;
    Scaled(j, i, d);
    Scaled(i, j, d);
    assert (i + 1) * d == i * d + d;
  }

  lemma SumOfMultiples(a: nat, b: nat, d: nat)
    requires d > 0 && a % d == 0 && b % d == 0
    ensures (a + b) % d == 0
  {
    assert a + b == (a / d + b / d) * d;
    MulMod(a / d + b / d, d);
  }

  /** Masking a number down to a multiple of `d` is finding the stretch of length `d` it lies in. */
  lemma MaskIsRange(v: nat, base: nat, d: nat)
    requires d > 0 && base % d == 0
    ensures v - v % d == base <==> base <= v < base + d
  {
    var k := base / d;
    assert base == k * d;
    assert (k + 1) * d == k * d + d;
    if base <= v < base + d {
      DivUnique(v, k, d);
    }
  }

  /** Of two aligned stretches that share a number, the shorter lies inside the longer. */
  lemma StretchesNest(base: nat, d: nat, outer: nat, size: nat, v: nat)
    requires d > 0 && base % d == 0 && outer % d == 0 && size % d == 0
    requires base <= v < base + d && outer <= v < outer + size
    ensures outer <= base && base + d <= outer + size
  {
    if base < outer {
      MultiplesApart(base, outer, d);
    }
    SumOfMultiples(outer, size, d);
    MultiplesApart(base, outer + size, d);
  }

  lemma Powers()
    ensures Pow2(4) == 0x10 && Pow2(16) == 0x1_0000
    ensures Pow2(17) == 0x2_0000 && Pow2(18) == 0x4_0000 && Pow2(19) == 0x8_0000
    ensures Pow2(20) == 0x10_0000 && Pow2(21) == 0x20_0000
    ensures Pow2(24) == 0x100_0000 && Pow2(25) == 0x200_0000 && Pow2(26) == 0x400_0000
    ensures Pow2(32) == 0x1_0000_0000
  {
    assert Pow2(4) == 16;
    Pow2Sum(4, 4);
    Pow2Sum(8, 8);
    Pow2Sum(16, 1);
    Pow2Sum(16, 2);
    Pow2Sum(16, 3);
    Pow2Sum(16, 4);
    Pow2Sum(20, 1);
    Pow2Sum(16, 8);
    Pow2Sum(24, 1);
    Pow2Sum(24, 2);
    Pow2Sum(16, 16);
  }

  lemma WidePowers()
    ensures Pow2(121) == 0x200_0000_0000_0000_0000_0000_0000_0000
    ensures Pow2(122) == 0x400_0000_0000_0000_0000_0000_0000_0000
    ensures Pow2(123) == 0x800_0000_0000_0000_0000_0000_0000_0000
    ensures Pow2(128) == 0x1_0000_0000_0000_0000_0000_0000_0000_0000
  {
    Powers();
    Pow2Sum(32, 32);
    Pow2Sum(64, 32);
    Pow2Sum(96, 25);
    Pow2Sum(96, 26);
    Pow2Sum(121, 1);
    Pow2Sum(121, 2);
    Pow2Sum(64, 64);
  }
}
