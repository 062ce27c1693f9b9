/** Address prefixes by arithmetic: what a mask of leading ones does to a number, and which
    addresses a prefix (RFC 4632 section 3.1) stands for. */
module Prefixes {

  function Pow2(n: nat): (r: nat)
    ensures r >= 1
  {
    if n == 0 then 1 else 2 * Pow2(n - 1)
  }

  // The bitwise `a & b` of two non-negative numbers.
  function And(a: nat, b: nat): nat
  {
    if a == 0 || b == 0 then 0 else 2 * And(a / 2, b / 2) + (if a % 2 == 1 && b % 2 == 1 then 1 else 0)
  }

  // `a` with its low `host` bits cleared: `(a >> host) << host`.
  function Network(a: nat, host: nat): nat { Multiple(Quotient(a, Pow2(host)), Pow2(host)) }

  function Quotient(a: nat, p: nat): nat
    requires p > 0
  {
    a / p
  }

  function Multiple(k: nat, p: nat): nat { k * p }

  predicate Aligned(a: nat, host: nat) { a % Pow2(host) == 0 }

  lemma NetworkIsFloor(a: nat, host: nat)
    ensures Network(a, host) == a - a % Pow2(host) <= a
    ensures Aligned(Network(a, host), host)
  {
    QuotientTimes(a, Pow2(host));
  }

  lemma QuotientTimes(a: nat, p: nat)
    requires p > 0
    ensures a / p * p == a - a % p <= a && a / p * p % p == 0
  {
    DivOf(a / p, p, 0);
  }

  lemma MulLess(x: int, y: int, p: nat)
    requires p > 0
    ensures x < y <==> x * p < y * p
  {
    if x < y { assert (y - x) * p > 0; } else { assert (x - y) * p >= 0; }
  }

  lemma DivOf(k: int, p: nat, r: nat)
    requires r < p
    ensures (k * p + r) / p == k && (k * p + r) % p == r
  {
    var q, s := (k * p + r) / p, (k * p + r) % p;
    assert q * p + s == k * p + r;
    MulLess(q, k + 1, p);
    MulLess(k, q + 1, p);
  }

  lemma Halves(x: nat, p: nat)
    requires p > 0
    ensures x % (2 * p) == 2 * (x / 2 % p) + x % 2
  {
    var q, r := x / 2 / p, x / 2 % p;
    assert x / 2 == q * p + r;
    assert x == q * (2 * p) + (2 * r + x % 2);
    DivOf(q, 2 * p, 2 * r + x % 2);
  }

  lemma {:induction false} Pow2Mono(a: nat, b: nat)
    requires a <= b
    ensures Pow2(a) <= Pow2(b)
  {
    if a < b { Pow2Mono(a, b - 1); }
  }

  lemma AndEven(x: nat, mask: nat, half: nat)
    requires mask == 2 * half
    ensures And(x, mask) == 2 * And(x / 2, half)
  {
    assert mask / 2 == half && mask % 2 == 0;
  }

  lemma AndOdd(x: nat, mask: nat)
    ensures And(x, 2 * mask + 1) == 2 * And(x / 2, mask) + x % 2
  {
    assert (2 * mask + 1) / 2 == mask && (2 * mask + 1) % 2 == 1;
  }

  lemma {:induction false} AndOnes(x: nat, width: nat)
    requires x < Pow2(width)
    ensures And(x, Pow2(width) - 1) == x
  {
    if width > 0 {
      assert Pow2(width) - 1 == 2 * (Pow2(width - 1) - 1) + 1;
      AndOnes(x / 2, width - 1);
      AndOdd(x, Pow2(width - 1) - 1);
    }
  }

  // The low `host` bits of `x`, one by one.
  function Low(x: nat, host: nat): nat {
    if host == 0 then 0 else 2 * Low(x / 2, host - 1) + x % 2
  }

  lemma {:induction false} LowIsRemainder(x: nat, host: nat)
    ensures Low(x, host) == x % Pow2(host)
  {
    if host > 0 {
      LowIsRemainder(x / 2, host - 1);
      Halves(x, Pow2(host - 1));
    }
  }

  lemma {:induction false} MaskClearsLow(x: nat, width: nat, host: nat)
    requires host <= width && x < Pow2(width)
    ensures Pow2(host) <= Pow2(width) && And(x, Pow2(width) - Pow2(host)) == x - Low(x, host)
  {
    Pow2Mono(host, width);
    if host == 0 {
      AndOnes(x, width);
    } else {
      MaskClearsLow(x / 2, width - 1, host - 1);
      AndEven(x, Pow2(width) - Pow2(host), Pow2(width - 1) - Pow2(host - 1));
    }
  }

  // Masking with `width - host` leading ones clears the low `host` bits and nothing else.
  lemma MaskClearsHost(x: nat, width: nat, host: nat)
    requires host <= width && x < Pow2(width)
    ensures Pow2(host) <= Pow2(width)
    ensures And(x, Pow2(width) - Pow2(host)) == x - x % Pow2(host)
  {
    MaskClearsLow(x, width, host);
    LowIsRemainder(x, host);
  }

  // The addresses that share their leading bits with an aligned base form an interval.
  lemma BlockIsInterval(a: nat, base: nat, host: nat)
    requires Aligned(base, host)
    ensures Network(a, host) == base <==> base <= a < base + Pow2(host)
  {
    FloorIsBase(a, base, Pow2(host));
  }

  lemma FloorIsBase(a: nat, base: nat, p: nat)
    requires p > 0 && base % p == 0
    ensures a / p * p == base <==> base <= a < base + p
  {
    QuotientTimes(a, p);
    if base <= a < base + p {
      assert a == base / p * p + (a - base);
      DivOf(base / p, p, a - base);
    }
  }

  lemma {:induction false} Pow2Divides(small: nat, big: nat) returns (k: nat)
    requires small <= big
    ensures Pow2(big) == k * Pow2(small)
  {
    if small == big {
      k := 1;
    } else {
      var j := Pow2Divides(small, big - 1);
      k := 2 * j;
    }
  }

  // A smaller block that meets a bigger one lies inside it.
  lemma MeetsIsInside(a: nat, big: nat, bigHost: nat, small: nat, smallHost: nat)
    requires smallHost <= bigHost && Aligned(big, bigHost) && Aligned(small, smallHost)
    requires big <= a < big + Pow2(bigHost) && small <= a < small + Pow2(smallHost)
    ensures big <= small && small + Pow2(smallHost) <= big + Pow2(bigHost)
  {
    var k := Pow2Divides(smallHost, bigHost);
    Inside(a, big, Pow2(bigHost), small, Pow2(smallHost), k);
  }

  lemma Inside(a: nat, big: nat, p: nat, small: nat, q: nat, k: nat)
    requires q > 0 && p > 0 && p == k * q && big % p == 0 && small % q == 0
    requires big <= a < big + p && small <= a < small + q
    ensures big <= small && small + q <= big + p
  {
    var i, j := big / p * k, small / q;
    Regroup(big, p, k, q);
    Between(i, j, k, q, a, big, small);
  }

  lemma Between(i: nat, j: nat, k: nat, q: nat, a: nat, big: nat, small: nat)
    requires q > 0 && big == i * q && small == j * q
    requires big <= a < big + k * q && small <= a < small + q
    ensures big <= small && small + q <= big + k * q
  {
    assert (i + k) * q == i * q + k * q && (j + 1) * q == j * q + q;
    MulLess(j, i + k, q);
    MulLess(i, j + 1, q);
    MulLess(j, i, q);
    MulLess(i + k, j + 1, q);
  }

  lemma Regroup(big: nat, p: nat, k: nat, q: nat)
    requires p > 0 && p == k * q && big % p == 0
    ensures big == big / p * k * q
  {
    var b := big / p;
    assert big == b * p;
    assert b * (k * q) == b * k * q;
  }

  // The same block, started anywhere inside it.
  lemma StartsInside(big: nat, bigHost: nat, small: nat, smallHost: nat)
    requires smallHost <= bigHost && Aligned(big, bigHost) && Aligned(small, smallHost)
    requires big <= small < big + Pow2(bigHost)
    ensures small + Pow2(smallHost) <= big + Pow2(bigHost)
  {
    MeetsIsInside(small, big, bigHost, small, smallHost);
  }
}
