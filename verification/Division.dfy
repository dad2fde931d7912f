/** Division in steps, for the digits of numbers. */
module Division {
  /** Multiplication, named so that proofs can treat products as atoms. */
  function Product(x: int, y: int): int {
    x * y
  }

  /** Dividing twice is dividing by the product. */
  lemma DivideTwice(u: nat, a: nat, d: nat)
    requires a > 0 && d > 0
    ensures Product(a, d) > 0 && u / a / d == u / Product(a, d)
  {
    hide Product;
    var q, s, r := u / a / d, u / a % d, u % a;
    Parts(u, a);
    Parts(u / a, d);
    Distributes(a, d, q, s);
    Positive(a, d);
    Below(a, s, d);
    QuotientIs(u, Product(a, d), q, Product(a, s) + r);
  }

  lemma Parts(u: nat, d: nat)
    requires d > 0
    ensures u == Product(d, u / d) + u % d && u % d < d
  {
  }

  lemma Distributes(a: nat, d: nat, q: nat, s: nat)
    ensures Product(a, Product(d, q) + s) == Product(Product(a, d), q) + Product(a, s)
  {
    assert a * (d * q + s) == a * (d * q) + a * s;
    assert a * (d * q) == (a * d) * q;
  }

  lemma Positive(a: nat, d: nat)
    requires a > 0 && d > 0
    ensures Product(a, d) > 0
  {
  }

  lemma Below(a: nat, s: nat, d: nat)
    requires s < d
    ensures 0 <= Product(a, s) <= Product(a, d) - a
  {
    assert a * d == a * s + a + a * (d - s - 1);
  }

  /** Quotient and rest are unique. */
  lemma QuotientIs(u: nat, d: nat, q: nat, rest: nat)
    requires d > 0 && u == Product(d, q) + rest && rest < d
    ensures u / d == q && u % d == rest
  {
    hide Product;
    var e := u / d - q;
    Difference(u, d, q);
    if e > 0 {
      AtLeast(d, e);
    } else if e < 0 {
      Negated(d, e);
      AtLeast(d, -e);
    } else {
      Nothing(d);
    }
  }

  lemma Difference(u: nat, d: nat, q: nat)
    requires d > 0
    ensures Product(d, u / d - q) == u - u % d - Product(d, q)
  {
    assert d * (u / d) == u - u % d;
  }

  lemma Negated(d: nat, e: int)
    ensures Product(d, -e) == -Product(d, e)
  {
  }

  lemma Nothing(d: nat)
    ensures Product(d, 0) == 0
  {
  }

  lemma AtLeast(d: nat, e: nat)
    requires e > 0
    ensures Product(d, e) >= d
  {
    assert d * e == d + d * (e - 1);
  }
}
