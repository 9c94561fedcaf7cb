/** Products, quotients and remainders by a variable. */
module Arithmetic {

  lemma AtLeast(k: nat, a: nat)
    requires k >= 1
    ensures k * a >= a
  {
  }

  lemma Distribute(q: nat, p: nat, a: nat)
    requires p <= q
    ensures q * a == p * a + (q - p) * a
  {
  }

  lemma EuclidUnique(q: nat, p: nat, r: nat, a: nat)
    requires q * a == p * a + r && r < a
    ensures q == p && r == 0
  {
    if p < q {
      Distribute(q, p, a);
      AtLeast(q - p, a);
    } else if q < p {
      Distribute(p, q, a);
      AtLeast(p - q, a);
    }
  }

  lemma ModMultiple(q: nat, a: nat)
    requires a >= 1
    ensures q * a % a == 0
  {
    var n := q * a;
    assert n == n / a * a + n % a;
    EuclidUnique(q, n / a, n % a, a);
  }

  lemma Quotients(p: nat, q: nat, a: nat)
    requires a >= 1 && p * a < q * a
    ensures p * a + a <= q * a
  {
    if p < q {
      Distribute(q, p, a);
      AtLeast(q - p, a);
    } else {
      Distribute(p, q, a);
    }
  }

  /** Two multiples of `a` in order are at least `a` apart. */
  lemma MultipleGap(m: nat, n: nat, a: nat)
    requires a >= 1 && m % a == 0 && n % a == 0 && m < n
    ensures m + a <= n
  {
    assert m == (m / a) * a && n == (n / a) * a;
    Quotients(m / a, n / a, a);
  }

  /** Rounding up a quotient. */
  function CeilDiv(n: nat, a: nat): nat
    requires a >= 1
  {
    (n + a - 1) / a
  }

  lemma CeilDivBounds(n: nat, a: nat)
    requires a >= 1 && n >= 1
    ensures CeilDiv(n, a) >= 1
    ensures (CeilDiv(n, a) - 1) * a < n <= CeilDiv(n, a) * a
  {
    var m := n + a - 1;
    var k := m / a;
    assert m == k * a + m % a;
    assert k >= 1 by {
      assert m >= a;
    }
    Distribute(k, 1, a);
  }

  lemma Ordered(p: nat, q: nat, a: nat)
    requires p <= q
    ensures p * a <= q * a
  {
    Distribute(q, p, a);
  }

  lemma CeilDivUnique(n: nat, a: nat, k: nat)
    requires a >= 1 && k >= 1 && (k - 1) * a < n <= k * a
    ensures CeilDiv(n, a) == k
  {
    hide CeilDiv;
    var q := CeilDiv(n, a);
    CeilDivBounds(n, a);
    if q < k {
      Ordered(q, k - 1, a);
    } else if k < q {
      Ordered(k, q - 1, a);
    }
  }

  /** A product as repeated addition, so that proofs by counting stay linear. */
  function Times(i: nat, a: nat): nat {
    if i == 0 then 0 else Times(i - 1, a) + a
  }

  lemma {:induction false} TimesIsProduct(i: nat, a: nat)
    ensures Times(i, a) == i * a
  {
    if i > 0 {
      TimesIsProduct(i - 1, a);
      Distribute(i, i - 1, a);
    }
  }

  lemma {:induction false} TimesOrdered(p: nat, q: nat, a: nat)
    requires p <= q
    ensures Times(p, a) <= Times(q, a)
  {
    if p < q {
      TimesOrdered(p, q - 1, a);
    }
  }

  lemma TimesUnique(p: nat, q: nat, a: nat)
    requires a >= 1
    ensures Times(p, a) == Times(q, a) <==> p == q
  {
    if p < q {
      TimesOrdered(p, q - 1, a);
    } else if q < p {
      TimesOrdered(q, p - 1, a);
    }
  }

  lemma CeilDivTimes(n: nat, a: nat)
    requires a >= 1 && n >= 1
    ensures CeilDiv(n, a) >= 1
    ensures Times(CeilDiv(n, a) - 1, a) < n <= Times(CeilDiv(n, a), a)
  {
    CeilDivBounds(n, a);
    TimesIsProduct(CeilDiv(n, a) - 1, a);
    TimesIsProduct(CeilDiv(n, a), a);
  }

  /** The stretch of `a` numbers in which `y` lies. */
  lemma Locate(y: nat, a: nat) returns (q: nat)
    requires a >= 1
    ensures Times(q, a) <= y < Times(q + 1, a)
  {
    q := y / a;
    assert y == q * a + y % a;
    TimesIsProduct(q, a);
  }

  /** A counter that runs from 0 to `n - 1` and starts over. */
  function Cycle(k: nat, n: nat): (t: nat)
    requires n >= 1
    ensures t < n
    ensures k < n ==> t == k
    ensures k == n ==> t == 0
  {
    if k == 0 then 0
    else
      var t := Cycle(k - 1, n);
      if t + 1 == n then 0 else t + 1
  }

  lemma QuotientAtLeast(k: nat, n: int, a: nat)
    requires a >= 1 && k * a < n
    ensures k <= n / a
  {
    assert n == n / a * a + n % a;
    if n / a < k {
      Distribute(k, n / a, a);
      AtLeast(k - n / a, a);
    }
  }

  lemma SmallMod(k: nat, n: nat)
    requires k < n
    ensures k % n == k
  {
  }

  lemma Transitive(n: nat, m: nat, a: nat)
    requires m >= 1 && a >= 1 && n % m == 0 && m % a == 0
    ensures n % a == 0
  {
    assert n == (n / m) * m && m == (m / a) * a;
    assert (n / m) * m == ((n / m) * (m / a)) * a;
    ModMultiple((n / m) * (m / a), a);
  }

  lemma Scale(t: int, k: nat, a: nat, b: nat)
    requires t > k * a && b >= 1
    ensures b * t > k * (b * a)
  {
    assert b * t > b * (k * a);
    assert b * (k * a) == k * (b * a);
  }
}
