/** Bitwise conjunction on unbounded naturals, and what `x & mask` means when
    `mask` is one less than a power of two. */
module BitMask {

  /** Bitwise and, least significant bit first. */
  function And(x: nat, y: nat): (r: nat)
    ensures r <= y
  {
    if x == 0 || y == 0 then 0
    else 2 * And(x / 2, y / 2) + (if x % 2 == 1 && y % 2 == 1 then 1 else 0)
  }

  predicate IsPowerOfTwo(n: nat) {
    n == 1 || (n > 1 && n % 2 == 0 && IsPowerOfTwo(n / 2))
  }

  /** An index below a power of two is not changed by masking. */
  lemma {:induction false} MaskKeeps(x: nat, n: nat)
    requires IsPowerOfTwo(n) && x < n
    ensures And(x, n - 1) == x
  {
    if x == 0 {
    } else {
      MaskKeeps(x / 2, n / 2);
      assert (n - 1) / 2 == n / 2 - 1;
    }
  }

  /** Masking with one less than a power of two is the remainder. */
  lemma {:induction false} MaskIsRemainder(x: nat, n: nat)
    requires IsPowerOfTwo(n)
    ensures And(x, n - 1) == x % n
  {
    if n == 1 {
    } else {
      MaskIsRemainder(x / 2, n / 2);
      assert (n - 1) / 2 == n / 2 - 1 && (n - 1) % 2 == 1;
      HalfRemainder(x, n / 2);
      assert And(x, n - 1) == 2 * And(x / 2, n / 2 - 1) + x % 2;
    }
  }

  lemma HalfRemainder(x: nat, h: nat)
    requires h > 0
    ensures x % (2 * h) == 2 * (x / 2 % h) + x % 2
  {
    var q, r := x / 2 / h, x / 2 % h;
    assert x / 2 == h * q + r && x == 2 * (x / 2) + x % 2;
    assert 2 * (h * q) == 2 * h * q;
    Remainder(x, 2 * h, q, 2 * r + x % 2);
  }

  lemma Remainder(x: nat, n: nat, q: nat, r: nat)
    requires r < n && x == n * q + r
    ensures x % n == r
  {
    var d, s := x / n, x % n;
    assert x == n * d + s && n * (d - q) == r - s;
    if d > q {
      TimesAtLeast(n, d - q);
    } else if d < q {
      TimesAtLeast(n, q - d);
    }
  }

  lemma TimesAtLeast(n: nat, a: int)
    requires a >= 1
    ensures n * a >= n
  {
  }

  lemma {:induction false} MaskWraps(n: nat)
    requires IsPowerOfTwo(n)
    ensures And(n, n - 1) == 0
  {
    if n == 1 {
    } else {
      MaskWraps(n / 2);
      assert (n - 1) / 2 == n / 2 - 1;
    }
  }

  /** One more bit of the mask adds that bit of the number. */
  lemma {:induction false} MaskHalves(x: nat, n: nat)
    requires IsPowerOfTwo(n)
    ensures And(x, 2 * n - 1) == And(x, n - 1) || And(x, 2 * n - 1) == And(x, n - 1) + n
    ensures And(x, n - 1) < n
  {
    if n > 1 {
      MaskHalves(x / 2, n / 2);
      assert (2 * n - 1) / 2 == n - 1 && (n - 1) / 2 == n / 2 - 1;
    } else {
      assert And(x / 2, 0) == 0;
    }
  }

  /** Half of the larger of two different powers of two still covers the smaller. */
  lemma {:induction false} HalfCovers(n: nat, c: nat)
    requires IsPowerOfTwo(n) && IsPowerOfTwo(c) && c < n
    ensures c <= n / 2
  {
    if c == 1 {
    } else {
      HalfCovers(n / 2, c / 2);
      assert n / 2 > 1;
    }
  }

  lemma {:induction false} PowerDividesBy4(n: nat)
    requires IsPowerOfTwo(n) && 4 <= n
    ensures n % 4 == 0
  {
    assert IsPowerOfTwo(n / 2) && n / 2 % 2 == 0;
  }
}
