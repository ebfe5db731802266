/** The probe sequence of the hash index: which slots are looked at, in which order.

    A table has `n` slots, `n` a power of two and at least 8, grouped in buckets of 8.
    Round `r` of a search looks at one whole bucket, starting at the home offset and
    wrapping around inside the bucket; between rounds the position moves by 8, 16, 24, ...
    modulo `n`.  The main result here is that no bucket comes twice within `n / 8` rounds. */
module Probing {

  predicate PowerOfTwo(n: nat) {
    n == 1 || (n > 1 && n % 2 == 0 && PowerOfTwo(n / 2))
  }

  predicate TableSize(n: nat) {
    n >= 8 && PowerOfTwo(n)
  }

  /** `x & (n - 1)` for a power of two `n`: the remainder of `x`, by repeated subtraction. */
  function Mask(x: nat, n: nat): (m: nat)
    requires n > 0
    ensures m < n
  {
    if x < n then x else Mask(x - n, n)
  }

  lemma {:induction false} MaskQuotient(x: nat, n: nat) returns (q: nat)
    requires n > 0
    ensures x == q * n + Mask(x, n)
  {
    if x < n {
      q := 0;
    } else {
      var p := MaskQuotient(x - n, n);
      q := p + 1;
    }
  }

  /** Position at the start of round `r`, as the loops compute it: add the step, mask. */
  function Home(h: nat, n: nat, r: nat): (p: nat)
    requires n > 0
    ensures p < n
  {
    if r == 0 then Mask(h, n) else Mask(Home(h, n, r - 1) + 8 * r, n)
  }

  // ---------------------------------------------------------------- powers of two

  lemma {:induction false} TableSizeFacts(n: nat)
    requires TableSize(n)
    ensures n % 8 == 0
    ensures n > 8 ==> n % 16 == 0 && TableSize(n / 2)
    ensures PowerOfTwo(n / 8)
    ensures TableSize(2 * n)
  {
    assert PowerOfTwo(n / 2) && n % 2 == 0;
    assert PowerOfTwo(n / 2 / 2) && n / 2 % 2 == 0;
    assert PowerOfTwo(n / 2 / 2 / 2) && n / 2 / 2 % 2 == 0;
    assert n / 2 / 2 / 2 == n / 8;
    if n > 8 {
      assert n / 8 % 2 == 0;
    }
    assert 2 * n / 2 == n;
  }

  /** A power of two that divides a product with an odd factor divides the other factor. */
  lemma {:induction false} OddFactor(q: nat, a: int, b: int, k: int)
    requires PowerOfTwo(q) && a % 2 == 1 && a * b == k * q
    ensures b % q == 0
    decreases q
  {
    if q > 1 {
      var h := q / 2;
      assert q == 2 * h;
      assert a * b == 2 * (k * h) by { assert k * q == 2 * (k * h); }
      if b % 2 == 1 {
        OddTimesOdd(a, b);
        assert false;
      }
      var c := b / 2;
      assert b == 2 * c;
      assert a * b == 2 * (a * c);
      assert a * c == k * h;
      OddFactor(h, a, c, k);
      DoubleDivides(c, h);
    }
  }

  lemma OddTimesOdd(a: int, b: int)
    requires a % 2 == 1 && b % 2 == 1
    ensures (a * b) % 2 == 1
  {
    var x, y := a / 2, b / 2;
    assert a == 2 * x + 1 && b == 2 * y + 1;
    assert a * b == 2 * (2 * (x * y) + x + y) + 1;
  }

  lemma DoubleDivides(c: int, h: nat)
    requires h > 0 && c % h == 0
    ensures (2 * c) % (2 * h) == 0
  {
    var d := c / h;
    assert c == d * h;
    assert 2 * c == d * (2 * h);
    MultipleHasNoRest(d, 2 * h);
  }

  lemma MultipleHasNoRest(d: int, m: nat)
    requires m > 0
    ensures (d * m) % m == 0
  {
    var q, r := (d * m) / m, (d * m) % m;
    assert d * m == q * m + r;
    assert (d - q) * m == r;
    OnlyZeroMultiple(d - q, m);
  }

  lemma OnlyZeroMultiple(k: int, m: int)
    requires -m < k * m < m
    ensures k == 0
  {
    assert k * m >= m || k <= 0;
    assert k * m <= -m || k >= 0;
  }

  // ---------------------------------------------------------------- the rounds

  /** `Home` in closed form, up to multiples of `n`. */
  lemma {:induction false} HomeClosed(h: nat, n: nat, r: nat) returns (c: int)
    requires n > 0
    ensures h + 4 * (r * (r + 1)) == Home(h, n, r) + c * n
  {
    if r == 0 {
      c := MaskQuotient(h, n);
    } else {
      var c0 := HomeClosed(h, n, r - 1);
      var x := Home(h, n, r - 1) + 8 * r;
      var q := MaskQuotient(x, n);
      c := c0 + q;
      ClosedStep(h, n, r, Home(h, n, r - 1), c0, Mask(x, n), q);
    }
  }

  lemma ClosedStep(h: int, n: int, r: int, p: int, c0: int, p': int, q: int)
    requires h + 4 * ((r - 1) * (r - 1 + 1)) == p + c0 * n
    requires p + 8 * r == q * n + p'
    ensures h + 4 * (r * (r + 1)) == p' + (c0 + q) * n
  {
    assert 4 * (r * (r + 1)) == 4 * ((r - 1) * r) + 8 * r;
    assert (c0 + q) * n == c0 * n + q * n;
  }

  lemma {:induction false} MaskKeepsOffset(x: nat, n: nat)
    requires n > 0 && n % 8 == 0
    ensures Mask(x, n) % 8 == x % 8
  {
    if x >= n {
      MaskKeepsOffset(x - n, n);
      LessOctets(x, n);
    }
  }

  lemma LessOctets(x: int, n: int)
    requires n % 8 == 0
    ensures (x - n) % 8 == x % 8
  {}

  /** A round never changes the offset inside the bucket. */
  lemma {:induction false} HomeOffset(h: nat, n: nat, r: nat)
    requires n > 0 && n % 8 == 0
    ensures Home(h, n, r) % 8 == h % 8
  {
    if r == 0 {
      MaskKeepsOffset(h, n);
    } else {
      HomeOffset(h, n, r - 1);
      MaskKeepsOffset(Home(h, n, r - 1) + 8 * r, n);
      SameOffset(Home(h, n, r - 1), r);
    }
  }

  lemma SameOffset(x: nat, r: nat)
    ensures (x + 8 * r) % 8 == x % 8
  {}

  /** Triangular numbers below `m` differ modulo the power of two `m`: no bucket twice. */
  lemma {:induction false} HomeInjective(h: nat, n: nat, r: nat, s: nat)
    requires TableSize(n) && r < s < n / 8
    ensures Home(h, n, r) / 8 != Home(h, n, s) / 8
  {
    TableSizeFacts(n);
    HomeOffset(h, n, r);
    HomeOffset(h, n, s);
    if Home(h, n, r) / 8 == Home(h, n, s) / 8 {
      SamePosition(Home(h, n, r), Home(h, n, s));
      var c := HomeClosed(h, n, r);
      var d := HomeClosed(h, n, s);
      assert 4 * (s * (s + 1)) - 4 * (r * (r + 1)) == d * n - c * n;
      TriangularDifference(n / 8, r, s, d, c);
      assert false;
    }
  }

  lemma SamePosition(p: nat, q: nat)
    requires p / 8 == q / 8 && p % 8 == q % 8
    ensures p == q
  {}

  /** 4s(s+1) - 4r(r+1) is no multiple of 8m for 0 <= r < s < m, m a power of two. */
  lemma TriangularDifference(m: nat, r: nat, s: nat, d: int, c: int)
    requires PowerOfTwo(m) && r < s < m
    ensures 4 * (s * (s + 1)) - 4 * (r * (r + 1)) != d * (8 * m) - c * (8 * m)
  {
    if 4 * (s * (s + 1)) - 4 * (r * (r + 1)) == d * (8 * m) - c * (8 * m) {
      FactoredDifference(m, r, s, d, c);
      NotAMultiple(m, r, s, d - c);
      assert false;
    }
  }

  lemma FactoredDifference(m: nat, r: nat, s: nat, d: int, c: int)
    requires 4 * (s * (s + 1)) - 4 * (r * (r + 1)) == d * (8 * m) - c * (8 * m)
    ensures (s - r) * (s + r + 1) == (d - c) * (2 * m)
  {
    assert (s - r) * (s + r + 1) == s * (s + 1) - r * (r + 1);
    assert d * (8 * m) - c * (8 * m) == 4 * ((d - c) * (2 * m));
  }

  /** Of the two factors one is odd and the other too small to be a multiple of 2m. */
  lemma NotAMultiple(m: nat, r: nat, s: nat, k: int)
    requires PowerOfTwo(m) && r < s < m
    ensures (s - r) * (s + r + 1) != k * (2 * m)
  {
    var a, b, q := s - r, s + r + 1, 2 * m;
    assert PowerOfTwo(q) by { assert q / 2 == m; }
    assert b == a + 2 * r + 1;
    if a % 2 == 1 {
      OddTimesSmall(q, a, b, k);
    } else {
      OddTimesSmall(q, b, a, k);
    }
  }

  lemma OddTimesSmall(q: nat, a: nat, b: nat, k: int)
    requires PowerOfTwo(q) && a % 2 == 1 && 0 < b < q
    ensures a * b != k * q
  {
    if a * b == k * q {
      OddFactor(q, a, b, k);
      SmallMultiple(b, q);
    }
  }

  lemma SmallMultiple(x: nat, q: nat)
    requires 0 < x < q
    ensures x % q != 0
  {}
}
