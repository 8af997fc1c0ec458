/** Powers, division with remainder and bitwise or, on unbounded naturals. */
module Powers {

  function Times(x: nat, y: nat): nat { x * y }

  function Pow(b: nat, n: nat): nat {
    if n == 0 then 1 else b * Pow(b, n - 1)
  }

  lemma {:induction false} PowPositive(b: nat, n: nat)
    requires b >= 1
    ensures Pow(b, n) >= 1
  {
    if n > 0 {
      PowPositive(b, n - 1);
      MulAtLeast(b, Pow(b, n - 1));
    }
  }

  lemma MulAtLeast(a: nat, b: nat)
    requires a >= 1
    ensures a * b >= b
  {
    assert a * b == b + (a - 1) * b;
  }

  lemma MulMono(a: nat, b: nat, c: nat)
    requires a <= b
    ensures a * c <= b * c
  {
    assert b * c == a * c + (b - a) * c;
  }

  lemma MulAssoc(a: int, b: int, c: int)
    ensures a * (b * c) == a * b * c
  {
  }

  lemma {:induction false} PowAdd(b: nat, m: nat, n: nat)
    ensures Pow(b, m + n) == Pow(b, m) * Pow(b, n)
  {
    if m > 0 {
      PowAdd(b, m - 1, n);
      MulAssoc(b, Pow(b, m - 1), Pow(b, n));
    }
  }

  lemma {:induction false} PowMono(b: nat, m: nat, n: nat)
    requires b >= 1 && m <= n
    ensures Pow(b, m) <= Pow(b, n)
  {
    PowAdd(b, n - m, m);
    PowPositive(b, n - m);
    MulAtLeast(Pow(b, n - m), Pow(b, m));
  }

  // Powers of a power.
  lemma {:induction false} PowPow(b: nat, m: nat, n: nat)
    ensures Pow(Pow(b, m), n) == Pow(b, m * n)
  {
    if n > 0 {
      PowPow(b, m, n - 1);
      assert m * n == m + m * (n - 1);
      PowAdd(b, m, m * (n - 1));
    }
  }

  /* ----- Division ----- */

  lemma DivModUnique(a: int, d: int, q: int, r: int)
    requires d > 0 && a == q * d + r && 0 <= r < d
    ensures a / d == q && a % d == r
  {
    var q', r' := a / d, a % d;
    assert (q' - q) * d == r - r';
    if q' > q { MulMono(1, q' - q, d); } else if q' < q { MulMono(1, q - q', d); }
  }

  lemma DivMod(a: int, d: int)
    requires d > 0
    ensures a == (a / d) * d + a % d && 0 <= a % d < d
  {
  }

  lemma DivLess(a: int, d: nat, m: nat)
    requires d > 0 && 0 <= a < m * d
    ensures 0 <= a / d < m
  {
    DivMod(a, d);
    if a / d >= m { MulMono(m, a / d, d); }
  }

  // Dividing twice is dividing by the product.
  lemma DivDiv(a: nat, m: nat, n: nat)
    requires m > 0 && n > 0
    ensures m * n > 0 && a / m / n == a / (m * n)
  {
    MulAtLeast(m, n);
    DivMod(a, m);
    DivMod(a / m, n);
    var q, r := a / m / n, a / m % n;
    assert a == (q * n + r) * m + a % m;
    assert (q * n + r) * m == q * (m * n) + r * m by { MulAssoc(q, n, m); assert n * m == m * n; }
    assert r * m + a % m < m * n by { MulMono(r + 1, n, m); assert (r + 1) * m == r * m + m; assert n * m == m * n; }
    assert 0 <= r * m;
    DivModUnique(a, m * n, q, r * m + a % m);
  }

  /* ----- Bitwise or ----- */

  function Or(x: nat, y: nat): nat
    decreases x + y
  {
    if x == 0 && y == 0 then 0
    else 2 * Or(x / 2, y / 2) + if x % 2 == 1 || y % 2 == 1 then 1 else 0
  }

  lemma {:induction false} OrZero(y: nat)
    ensures Or(0, y) == y
  {
    if y > 0 { OrZero(y / 2); }
  }

  lemma {:induction false} OrCommutes(x: nat, y: nat)
    ensures Or(x, y) == Or(y, x)
    decreases x + y
  {
    if x + y > 0 { OrCommutes(x / 2, y / 2); }
  }

  // Bits that do not meet add up.
  lemma {:induction false} OrAdds(x: nat, y: nat, s: nat)
    requires x < Pow(2, s)
    ensures Or(x, y * Pow(2, s)) == x + y * Pow(2, s)
    decreases s
  {
    if s == 0 {
      OrZero(y);
    } else {
      var h := y * Pow(2, s - 1);
      assert y * Pow(2, s) == 2 * h;
      OrAdds(x / 2, y, s - 1);
    }
  }

  // High and low bits are combined separately.
  lemma {:induction false} OrSplits(x: nat, y: nat, a: nat, b: nat, s: nat)
    requires x < Pow(2, s) && y < Pow(2, s)
    ensures Or(x + Times(a, Pow(2, s)), y + Times(b, Pow(2, s))) == Or(x, y) + Times(Or(a, b), Pow(2, s))
    decreases s
  {
    if s > 0 {
      hide Or, Times;
      var e := Pow(2, s - 1);
      OrSplits(x / 2, y / 2, a, b, s - 1);
      OrDoubled(x, y, Times(a, e), Times(b, e));
      OrDoubled(x, y, 0, 0);
      Doubled(a, e);
      Doubled(b, e);
      Doubled(Or(a, b), e);
    }
  }

  lemma Doubled(a: nat, e: nat)
    ensures Times(a, 2 * e) == 2 * Times(a, e)
  {
  }

  lemma OrDoubled(x: nat, y: nat, a: nat, b: nat)
    ensures Or(x + 2 * a, y + 2 * b) == 2 * Or(x / 2 + a, y / 2 + b) + if x % 2 == 1 || y % 2 == 1 then 1 else 0
  {
    assert (x + 2 * a) / 2 == x / 2 + a && (y + 2 * b) / 2 == y / 2 + b;
  }

  // A share is no larger than the whole.
  lemma ShareFits(n: nat, parts: nat)
    requires parts >= 1
    ensures 0 <= n / parts <= n
  {
    DivMod(n, parts);
    assert n / parts >= 0;
    MulAtLeast(parts, n / parts);
  }
}
