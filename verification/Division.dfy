/** Facts about division with remainder by an arbitrary positive divisor. */
module Division {

  lemma AtLeast(k: int, d: int)
    requires k >= 1 && d > 0
    ensures k * d >= d
  {
  }

  lemma Scales(k: int, q: int, d: int)
    requires k < q && d > 0
    ensures k * d + d <= q * d
  {
    assert (q - k) * d == q * d - k * d;
    AtLeast(q - k, d);
  }

  lemma SameQuotient(d: int, q: int, r: int, q': int, r': int)
    requires 0 <= r < d && 0 <= r' < d && q * d + r == q' * d + r'
    ensures q == q' && r == r'
  {
    if q' < q {
      Scales(q', q, d);
    }
    if q' > q {
      Scales(q, q', d);
    }
  }

  /** Quotient and remainder are determined by the equation they satisfy. */
  lemma Divides(x: int, d: int, q: int, r: int)
    requires d > 0 && x == q * d + r && 0 <= r < d
    ensures x / d == q && x % d == r
  {
    var q', r' := x / d, x % d;
    assert x == q' * d + r';
    SameQuotient(d, q, r, q', r');
  }

  /** Counting up by one turns the remainder over exactly when the quotient grows. */
  lemma Successor(p: nat, d: int)
    requires d > 0
    ensures (p + 1) % d == if p % d == d - 1 then 0 else p % d + 1
    ensures (p + 1) / d == p / d + (if p % d == d - 1 then 1 else 0)
  {
    if p % d == d - 1 {
      assert p + 1 == (p / d + 1) * d + 0;
      Divides(p + 1, d, p / d + 1, 0);
    } else {
      Divides(p + 1, d, p / d, p % d + 1);
    }
  }

  /** Reducing by a multiple of `d` first does not change the remainder by `d`. */
  lemma Coarser(p: nat, d: nat, e: nat)
    requires d > 0 && e > 0
    ensures (p % (d * e)) % d == p % d
  {
    var a, r := p / (d * e), p % (d * e);
    assert p == a * (d * e) + r;
    var b, s := r / d, r % d;
    assert r == b * d + s;
    assert a * (d * e) == (a * e) * d;
    assert p == (a * e + b) * d + s;
    Divides(p, d, a * e + b, s);
  }
}
