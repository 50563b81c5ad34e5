/** Division facts with a divisor that is not a constant. */
module Arithmetic {

  /** Quotient and remainder are unique. */
  lemma IntDivision(q: int, d: nat, r: nat)
    requires r < d
    ensures (q * d + r) / d == q && (q * d + r) % d == r
  {
    var n := q * d + r;
    var k := q - n / d;
    assert k * d == n % d - r by {
      assert n == (n / d) * d + n % d;
      assert (q - n / d) * d == q * d - (n / d) * d;
    }
    MultipleBound(k, d);
  }

  lemma Division(q: nat, d: nat, r: nat)
    requires r < d
    ensures (q * d + r) / d == q && (q * d + r) % d == r
  {
    IntDivision(q, d, r);
  }

  lemma MultipleBound(k: int, d: nat)
    ensures k >= 1 ==> k * d >= d
    ensures k <= -1 ==> k * d + d <= 0
  {
  }

  lemma DivisionStep(n: nat, d: nat)
    requires d > 0
    ensures (n + 1) / d == (if n % d + 1 == d then n / d + 1 else n / d)
    ensures (n + 1) % d == (if n % d + 1 == d then 0 else n % d + 1)
  {
    var q, r := n / d, n % d;
    assert n + 1 == q * d + (r + 1);
    if r + 1 == d {
      assert n + 1 == (q + 1) * d + 0;
      Division(q + 1, d, 0);
    } else {
      Division(q, d, r + 1);
    }
  }

  lemma RemainderAdds(x: int, y: int, d: nat)
    requires d > 0
    ensures (x % d + y) % d == (x + y) % d
  {
    var q, k := x / d, (x % d + y) / d;
    var r := (x % d + y) % d;
    assert x == q * d + x % d;
    assert x % d + y == k * d + r;
    assert x + y == (q + k) * d + r;
    IntDivision(q + k, d, r);
  }

  lemma SameRemainder(x: int, w: int, d: nat)
    requires d > 0
    ensures (x - w) % d == x % d <==> w % d == 0
  {
    var q, k := x / d, w / d;
    assert x - w == (q - k) * d + (x % d - w % d);
    if x % d >= w % d {
      IntDivision(q - k, d, x % d - w % d);
    } else {
      assert x - w == (q - k - 1) * d + (x % d - w % d + d);
      IntDivision(q - k - 1, d, x % d - w % d + d);
    }
  }
}
