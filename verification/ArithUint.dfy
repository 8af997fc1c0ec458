/**
 Unsigned integers of any number of 32-bit limbs, least significant first. The loops over
 the limbs compute the mathematical result modulo the range, and no intermediate value
 exceeds 64 bits.
 */
module Limbs {
  import opened Powers

  const BASE: nat := 0x1_0000_0000
  const UINT64: nat := 0x1_0000_0000_0000_0000

  function Truncated(n: nat, range: nat): nat
    requires range > 0
  {
    n % range
  }

  lemma FitsIsKept(n: nat, range: nat)
    requires n < range
    ensures Truncated(n, range) == n
  {
  }

  type Limb = x: int | 0 <= x < BASE

  function B(n: nat): (r: nat)
    ensures r >= 1
  {
    PowPositive(BASE, n);
    Pow(BASE, n)
  }

  function Val(p: seq<Limb>): nat {
    if p == [] then 0 else Val(p[..|p| - 1]) + p[|p| - 1] * B(|p| - 1)
  }

  lemma BPositive(n: nat)
    ensures B(n) >= 1 && B(n + 1) == BASE * B(n)
  {
    PowPositive(BASE, n);
  }

  lemma BitsOfB(n: nat)
    ensures B(n) == Pow(2, 32 * n)
  {
    assert Pow(2, 32) == BASE by {
      PowAdd(2, 16, 16);
      PowAdd(2, 8, 8);
      PowAdd(2, 4, 4);
    }
    PowPow(2, 32, n);
  }

  lemma ValNext(p: seq<Limb>, i: nat)
    requires i < |p|
    ensures Val(p[..i + 1]) == Val(p[..i]) + p[i] * B(i)
  {
    assert p[..i + 1][..i] == p[..i];
  }

  lemma {:induction false} ValBound(p: seq<Limb>)
    ensures Val(p) < B(|p|)
  {
    if p != [] {
      var n := |p| - 1;
      ValBound(p[..n]);
      BPositive(n);
      MulMono(p[n], BASE - 1, B(n));
    }
  }

  lemma {:induction false} ValPut(p: seq<Limb>, i: nat, x: Limb)
    requires i < |p|
    ensures Val(p[i := x]) == Val(p) + (x - p[i]) * B(i)
  {
    var n := |p| - 1;
    if i == n {
      assert p[i := x][..n] == p[..n];
      assert (x - p[i]) * B(i) == x * B(i) - p[i] * B(i);
    } else {
      assert p[i := x][..n] == p[..n][i := x];
      ValPut(p[..n], i, x);
    }
  }

  lemma {:induction false} ValZero(p: seq<Limb>)
    requires forall i | 0 <= i < |p| :: p[i] == 0
    ensures Val(p) == 0
  {
    if p != [] { ValZero(p[..|p| - 1]); }
  }

  // The limbs from m on count B(m) times.
  lemma {:induction false} ValSplit(p: seq<Limb>, m: nat)
    requires m <= |p|
    ensures Val(p) == Val(p[..m]) + Val(p[m..]) * B(m)
  {
    if m == |p| {
      assert p[..m] == p && p[m..] == [];
    } else {
      var n := |p| - 1;
      ValSplit(p[..n], m);
      assert p[..n][..m] == p[..m] && p[..n][m..] == p[m..][..n - m] && p[m..][n - m] == p[n];
      PowAdd(BASE, n - m, m);
      TopLimb(Val(p[m..][..n - m]), p[n], B(n - m), B(m));
    }
  }

  lemma TopLimb(rest: int, x: int, p: int, q: int)
    ensures (rest + x * p) * q == rest * q + x * (p * q)
  {
    assert (rest + x * p) * q == rest * q + (x * p) * q;
    MulAssoc(x, p, q);
  }

  // A total that loses only multiples of the range is the total modulo the range.
  lemma Reduced(v: nat, lost: int, total: int, m: nat)
    requires m > 0 && v + lost * m == total && v < m
    ensures v == total % m
  {
    DivModUnique(total, m, lost, v);
  }

  /* ----- One limb of each loop ----- */

  // A limb x is replaced by the low part of n, and the high part is carried.
  lemma CarryStep(v: int, x: int, n: int, p: int)
    ensures (v + (n % BASE - x) * p) + (n / BASE) * (BASE * p) == v + (n - x) * p
  {
    DivMod(n, BASE);
    var q, r := n / BASE, n % BASE;
    assert q * (BASE * p) == (q * BASE) * p by { MulAssoc(q, BASE, p); }
    assert (r - x) * p + (q * BASE) * p == (r - x + q * BASE) * p;
  }

  // A product of limbs with two limbs to add still fits 64 bits.
  lemma ProductFits(x: Limb, y: Limb, a: Limb, carry: Limb)
    ensures 0 <= Times(x, y) && carry + a + Times(x, y) < UINT64
  {
    MulMono(x, BASE - 1, y);
  }

  /* ----- Shifting a limb ----- */

  lemma BaseSplits(s: nat)
    requires s <= 32
    ensures Pow(2, s) >= 1 && Pow(2, s) * Pow(2, 32 - s) == BASE
  {
    PowPositive(2, s);
    PowAdd(2, s, 32 - s);
    BitsOfB(1);
  }

  // What a shift by s keeps in the limb, and what it moves on.
  function Low(x: Limb, s: nat): (r: Limb) { x * Pow(2, s) % BASE }

  function High(x: Limb, s: nat): (r: Limb)
    requires s <= 32
  {
    PowPositive(2, 32 - s);
    ShareFits(x, Pow(2, 32 - s));
    x / Pow(2, 32 - s)
  }

  lemma ShiftedLimb(x: Limb, s: nat)
    requires s <= 32
    ensures x * Pow(2, s) == High(x, s) * BASE + Low(x, s) && High(x, s) < Pow(2, s)
    ensures Pow(2, 32 - s) >= 1 && Low(x, s) == (x % Pow(2, 32 - s)) * Pow(2, s)
    ensures s == 0 ==> Low(x, s) == x && High(x, s) == 0
    ensures s == 32 ==> Low(x, s) == 0 && High(x, s) == x
  {
    hide Pow;
    BaseSplits(s);
    BaseSplits(32 - s);
    SplitProduct(x, Pow(2, s), Pow(2, 32 - s));
    PowEnds();
  }

  lemma PowEnds()
    ensures Pow(2, 0) == 1 && Pow(2, 32) == BASE
  {
    BitsOfB(1);
  }

  lemma SplitProduct(x: Limb, p: nat, q: nat)
    requires p >= 1 && q >= 1 && p * q == BASE
    ensures x * p == (x / q) * BASE + (x % q) * p && x * p % BASE == (x % q) * p && 0 <= x / q < p
    ensures p == 1 ==> x / q == 0 && x % q == x
    ensures q == 1 ==> x / q == x && x % q == 0
  {
    var h, r := x / q, x % q;
    DivMod(x, q);
    TwoFactors(h, r, p, q);
    DivModUnique(x * p, BASE, h, r * p);
    DivLess(x, q, p);
    if p == 1 { DivModUnique(x, q, 0, x); }
  }

  lemma TwoFactors(h: int, r: int, p: nat, q: nat)
    requires 0 <= r < q
    ensures (h * q + r) * p == h * (p * q) + r * p && 0 <= r * p && r * p + p <= p * q
  {
    assert (h * q + r) * p == (h * q) * p + r * p;
    MulAssoc(h, q, p);
    MulMono(r + 1, q, p);
    assert (r + 1) * p == r * p + p;
  }

  // Bits that do not meet: or adds, and the sum fits the limb.
  lemma OrFits(x: Limb, y: Limb, c: nat, t: nat)
    requires t <= 32 && x < Pow(2, t) && y == c * Pow(2, t)
    ensures Or(x, y) == x + y < BASE
  {
    hide Pow, Or;
    OrAdds(x, c, t);
    BaseSplits(t);
    NextMultiple(c, Pow(2, t), Pow(2, 32 - t));
  }

  lemma NextMultiple(c: nat, p: nat, q: nat)
    requires p >= 1 && c * p < p * q
    ensures c * p + p <= p * q
  {
    if c >= q { MulMono(q, c, p); } else { MulMono(c + 1, q, p); }
    assert (c + 1) * p == c * p + p;
  }

  lemma HighFits(n: int)
    requires 0 <= n < UINT64
    ensures 0 <= n / BASE < BASE
  {
    DivLess(n, BASE, BASE);
  }
}

module ArithUint {
  import opened Powers
  import opened Limbs

  class BaseUint {
    const pn: array<Limb>

    ghost function Value(): (v: nat)
      reads pn
    {
      Val(pn[..])
    }

    constructor (width: nat)
      ensures fresh(pn) && pn.Length == width && Value() == 0 && forall i | 0 <= i < width :: pn[i] == 0
    {
      pn := new Limb[width](i => 0);
      new;
      ValZero(pn[..]);
    }

    constructor Copy(b: BaseUint)
      ensures fresh(pn) && pn[..] == b.pn[..]
    {
      pn := new Limb[b.pn.Length](i requires 0 <= i < b.pn.Length reads b.pn => b.pn[i]);
    }

    // Stores the low part of n in a limb.
    method Store(i: nat, n: nat)
      requires i < pn.Length
      modifies pn
      ensures pn[..] == old(pn[..])[i := n % BASE]
      ensures Value() + (n / BASE) * B(i + 1) == old(Value()) + (n - old(pn[i])) * B(i)
    {
      ValPut(pn[..], i, n % BASE);
      CarryStep(Value(), pn[i], n, B(i));
      BPositive(i);
      pn[i] := n % BASE;
      assert pn[..] == old(pn[..])[i := n % BASE];
    }

    // The operand may be this number itself.
    method AddAssign(b: BaseUint)
      requires b.pn.Length == pn.Length
      modifies pn
      ensures Value() == (old(Value()) + old(b.Value())) % B(pn.Length)
    {
      hide Val, B;
      ghost var a0, b0 := Value(), b.pn[..];
      var carry := 0;
      assert Val(b0[..0]) == 0 by { ValZero(b0[..0]); }
      for i := 0 to pn.Length
        invariant 0 <= carry <= 1
        invariant forall j | i <= j < pn.Length :: b.pn[j] == b0[j]
        invariant Value() + carry * B(i) == a0 + Val(b0[..i])
      {
        var n := carry + pn[i] + b.pn[i];
        assert n < UINT64;
        assert (n - pn[i]) * B(i) == carry * B(i) + b0[i] * B(i);
        ValNext(b0, i);
        Store(i, n);
        carry := n / BASE;
      }
      assert b0[..pn.Length] == b0;
      ValBound(pn[..]);
      Reduced(Value(), carry, a0 + Val(b0), B(pn.Length));
    }

    method MulLimb(b: Limb)
      modifies pn
      ensures Value() == (old(Value()) * b) % B(pn.Length)
    {
      hide Val, B;
      ghost var a0 := pn[..];
      var carry := 0;
      assert Val(a0[..0]) == 0 by { ValZero(a0[..0]); }
      for i := 0 to pn.Length
        invariant 0 <= carry < BASE
        invariant forall j | i <= j < pn.Length :: pn[j] == a0[j]
        invariant Value() + carry * B(i) == Val(a0) + (b - 1) * Val(a0[..i])
      {
        ProductFits(b, pn[i], 0, carry);
        var n := carry + Times(b, pn[i]);
        assert n < UINT64;
        HighFits(n);
        ValNext(a0, i);
        OneLimbMore(carry, b, a0[i], Val(a0[..i]), B(i));
        Store(i, n);
        carry := n / BASE;
      }
      assert a0[..pn.Length] == a0;
      ValBound(pn[..]);
      assert Val(a0) + (b - 1) * Val(a0) == Val(a0) * b;
      Reduced(Value(), carry, Val(a0) * b, B(pn.Length));
    }

    // Adds x times b, from limb j on.
    method AddProduct(x: Limb, b: BaseUint, j: nat) returns (ghost lost: nat)
      requires b.pn.Length == pn.Length && b.pn != pn && j <= pn.Length
      modifies pn
      ensures Value() + lost * B(pn.Length) == old(Value()) + x * b.Value() * B(j)
    {
      hide Val, B, Mul3, Times;
      ghost var a0, b0, w := Value(), b.pn[..], pn.Length;
      var carry := 0;
      assert Mul3(x, Val(b0[..0]), B(j)) == 0 by { ValZero(b0[..0]); NoProduct(x, B(j)); }
      for i := 0 to pn.Length - j
        invariant 0 <= carry < BASE
        invariant Value() + carry * B(i + j) == a0 + Mul3(x, Val(b0[..i]), B(j))
      {
        ProductFits(x, b.pn[i], pn[i + j], carry);
        var n := carry + pn[i + j] + Times(x, b.pn[i]);
        assert n < UINT64;
        HighFits(n);
        OneProductMore(carry, x, b0, i, j, pn[i + j]);
        Store(i + j, n);
        carry := n / BASE;
      }
      lost := carry + x * Val(b0[w - j..]);
      RestIsLost(x, b0, w, j, carry);
    }

    method MulAssign(b: BaseUint)
      requires b.pn.Length == pn.Length
      modifies pn
      ensures Value() == (old(Value()) * old(b.Value())) % B(pn.Length)
    {
      hide Val, B;
      ghost var a0, w := pn[..], pn.Length;
      var a := new BaseUint(pn.Length);
      ghost var lost := 0;
      assert Val(a0[..0]) == 0 by { ValZero(a0[..0]); }
      for j := 0 to pn.Length
        invariant fresh(a.pn) && a.pn.Length == w && pn[..] == a0 && b.Value() == old(b.Value())
        invariant a.Value() + lost * B(w) == Val(a0[..j]) * b.Value()
      {
        ghost var more := a.AddProduct(pn[j], b, j);
        ValNext(a0, j);
        OneRowMore(Val(a0[..j]), a0[j], B(j), b.Value());
        assert (lost + more) * B(w) == lost * B(w) + more * B(w);
        lost := lost + more;
      }
      assert a0[..w] == a0;
      ghost var vb := b.Value();
      Assign(a);
      ValBound(pn[..]);
      Reduced(Value(), lost, Val(a0) * vb, B(w));
    }

    // Sets bits of a limb that are not set yet.
    method OrLimb(j: nat, y: Limb, ghost c: nat, ghost t: nat)
      requires j < pn.Length && t <= 32 && pn[j] < Pow(2, t) && y == c * Pow(2, t)
      modifies pn
      ensures pn[..] == old(pn[..])[j := old(pn[j]) + y]
      ensures Value() == old(Value()) + y * B(j)
    {
      OrFits(pn[j], y, c, t);
      ValPut(pn[..], j, pn[j] + y);
      pn[j] := Or(pn[j], y);
      assert pn[..] == old(pn[..])[j := old(pn[j]) + y];
    }

    // The turn of limb i: it goes to limbs i + k and i + k + 1, as far as they exist.
    method ShiftLimbLeft(x: Limb, i: nat, k: nat, s: nat) returns (ghost lost: nat)
      requires s < 32
      requires forall j | i + k < j < pn.Length :: pn[j] == 0
      requires i + k < pn.Length ==> pn[i + k] < Pow(2, s)
      modifies pn
      ensures Value() + lost * B(pn.Length) == old(Value()) + x * Pow(2, s) * B(i + k)
      ensures forall j | i + 1 + k < j < pn.Length :: pn[j] == 0
      ensures i + 1 + k < pn.Length ==> pn[i + 1 + k] < Pow(2, s)
    {
      hide Val, B, Or, Pow, Low, High;
      ghost var w, lo, hi := pn.Length, Low(x, s), High(x, s);
      ShiftedLimb(x, s);
      PowZero(2);
      BPositive(i + k);
      if i + k + 1 < pn.Length && s != 0 {
        OrLimb(i + k + 1, High(x, s), High(x, s), 0);
      }
      if i + k < pn.Length {
        OrLimb(i + k, Low(x, s), x % Pow(2, 32 - s), s);
      }
      TwoParts(x * Pow(2, s), hi, lo, B(i + k));
      if i + k + 1 < w {
        lost := 0;
      } else if i + k + 1 == w {
        lost := hi;
      } else {
        BAdd(i + k - w, w);
        lost := x * Pow(2, s) * B(i + k - w);
        MulAssoc(x * Pow(2, s), B(i + k - w), B(w));
      }
    }

    method ShiftLeft(shift: nat)
      modifies pn
      ensures Value() == (old(Value()) * Pow(2, shift)) % B(pn.Length)
    {
      hide Val, B, Pow;
      var a := new BaseUint.Copy(this);
      ghost var a0, w := pn[..], pn.Length;
      Clear();
      var k, s := shift / 32, shift % 32;
      ghost var lost := 0;
      ShiftPower(shift);
      assert Val(a0[..0]) == 0 by { ValZero(a0[..0]); }
      for i := 0 to pn.Length
        invariant fresh(a.pn) && a.pn[..] == a0 && w == pn.Length
        invariant forall j | i + k < j < pn.Length :: pn[j] == 0
        invariant i + k < pn.Length ==> pn[i + k] < Pow(2, s)
        invariant Value() + lost * B(w) == Val(a0[..i]) * Pow(2, shift)
      {
        ghost var more := ShiftLimbLeft(a.pn[i], i, k, s);
        ValNext(a0, i);
        BAdd(i, k);
        OneShiftedMore(Val(a0[..i]), a0[i], Pow(2, s), B(i), B(k));
        assert (lost + more) * B(w) == lost * B(w) + more * B(w);
        lost := lost + more;
      }
      assert a0[..w] == a0;
      ValBound(pn[..]);
      Reduced(Value(), lost, Val(a0) * Pow(2, shift), B(w));
    }

    // The turn of limb i: it goes to limbs i - k - 1 and i - k, as far as they exist.
    method ShiftLimbRight(x: Limb, i: nat, k: nat, s: nat)
      requires s < 32 && i < pn.Length
      requires forall j | 0 <= j < pn.Length && j >= i - k :: pn[j] == 0
      requires i >= k + 1 ==> pn[i - k - 1] < Pow(2, 32 - s)
      modifies pn
      ensures forall j | 0 <= j < pn.Length && j >= i + 1 - k :: pn[j] == 0
      ensures i >= k ==> pn[i - k] < Pow(2, 32 - s)
      ensures i < k ==> Value() == old(Value())
      ensures i == k ==> Value() == old(Value()) + High(x, 32 - s)
      ensures i > k ==> Value() == old(Value()) + x * Pow(2, 32 - s) * B(i - k - 1)
    {
      hide Val, B, Or, Pow, Low, High;
      var t := 32 - s;
      ShiftedLimb(x, t);
      PowZero(2);
      B0();
      if i >= k + 1 {
        BPositive(i - k - 1);
        TwoParts(x * Pow(2, t), High(x, t), Low(x, t), B(i - k - 1));
        if s != 0 {
          OrLimb(i - k - 1, Low(x, t), x % Pow(2, 32 - t), t);
        }
      }
      if i >= k {
        OrLimb(i - k, High(x, t), High(x, t), 0);
      }
    }

    method ShiftRight(shift: nat)
      modifies pn
      ensures Pow(2, shift) >= 1 && Value() == old(Value()) / Pow(2, shift)
    {
      hide Val, B, Pow, High;
      var a := new BaseUint.Copy(this);
      ghost var a0, w, d := pn[..], pn.Length, Pow(2, shift);
      Clear();
      var k, s := shift / 32, shift % 32;
      ShiftPower(shift);
      PowPositive(2, shift);
      ghost var rest := 0;
      for i := 0 to pn.Length
        invariant fresh(a.pn) && a.pn[..] == a0 && w == pn.Length
        invariant forall j | 0 <= j < pn.Length && j >= i - k :: pn[j] == 0
        invariant i >= k + 1 ==> pn[i - k - 1] < Pow(2, 32 - s)
        invariant i <= k ==> Value() == 0
        invariant i > k ==> 0 <= rest < d && Value() * d + rest == Val(a0[..i])
      {
        ValNext(a0, i);
        ghost var v := Value();
        ShiftLimbRight(a.pn[i], i, k, s);
        if i == k {
          ValBound(a0[..k]);
          rest := Val(a0[..k]) + (a0[k] % Pow(2, s)) * B(k);
          FirstShiftedOut(Val(a0[..k]), a0[k], s, B(k));
        } else if i > k {
          OneShiftedOut(v, a0[i], s, i, k);
        }
      }
      assert a0[..w] == a0;
      if w > k {
        DivModUnique(Val(a0), d, Value(), rest);
      } else {
        AllShiftedOut(a0, s, k);
        DivModUnique(Val(a0), d, 0, Val(a0));
      }
    }

    method Clear()
      modifies pn
      ensures Value() == 0 && forall i | 0 <= i < pn.Length :: pn[i] == 0
    {
      for i := 0 to pn.Length
        invariant forall j | 0 <= j < i :: pn[j] == 0
      {
        pn[i] := 0;
      }
      ValZero(pn[..]);
    }

    method Increment()
      requires pn.Length >= 1
      modifies pn
      ensures Value() == (old(Value()) + 1) % B(pn.Length)
    {
      hide Val, B;
      ghost var a0: int := Value();
      B0();
      var i := 0;
      while true
        invariant 0 <= i < pn.Length && Value() + B(i) == a0 + 1
        decreases pn.Length - i
      {
        BPositive(i);
        var n: nat := pn[i];
        ghost var wraps := n == BASE - 1;
        Store(i, n + 1);
        ValBound(pn[..]);
        if !(pn[i] == 0 && i < pn.Length - 1) {
          Reduced(Value(), if wraps then 1 else 0, a0 + 1, B(pn.Length));
          return;
        }
        i := i + 1;
      }
    }

    method Decrement()
      requires pn.Length >= 1
      modifies pn
      ensures Value() == (old(Value()) - 1) % B(pn.Length)
    {
      hide Val, B;
      ghost var a0: int := Value();
      B0();
      var i := 0;
      while true
        invariant 0 <= i < pn.Length && Value() - B(i) == a0 - 1
        decreases pn.Length - i
      {
        BPositive(i);
        ghost var wraps := pn[i] == 0;
        Store(i, if pn[i] == 0 then BASE - 1 else pn[i] - 1);
        ValBound(pn[..]);
        if !(pn[i] == BASE - 1 && i < pn.Length - 1) {
          Reduced(Value(), if wraps then -1 else 0, a0 - 1, B(pn.Length));
          return;
        }
        i := i + 1;
      }
    }

    method Complement() returns (r: BaseUint)
      ensures fresh(r.pn) && r.pn.Length == pn.Length && r.Value() == B(pn.Length) - 1 - Value()
    {
      hide Val, B;
      r := new BaseUint(pn.Length);
      ghost var a0 := pn[..];
      B0();
      assert Val(a0[..0]) == 0 by { ValZero(a0[..0]); }
      for i := 0 to pn.Length
        invariant fresh(r.pn) && r.pn.Length == pn.Length && pn[..] == a0
        invariant forall j | i <= j < pn.Length :: r.pn[j] == 0
        invariant r.Value() + Val(a0[..i]) == B(i) - 1
      {
        BPositive(i);
        ValNext(a0, i);
        r.Store(i, BASE - 1 - pn[i]);
      }
      assert a0[..pn.Length] == a0;
    }

    method Negate() returns (r: BaseUint)
      requires pn.Length >= 1
      ensures fresh(r.pn) && r.pn.Length == pn.Length && r.Value() == (0 - Value()) % B(pn.Length)
    {
      hide Val, B;
      r := Complement();
      r.Increment();
      NegatedModulo(Value(), B(pn.Length));
    }

    method SubAssign(b: BaseUint)
      requires b.pn.Length == pn.Length >= 1
      modifies pn
      ensures Value() == (old(Value()) - old(b.Value())) % B(pn.Length)
    {
      hide Val, B;
      var minus := b.Negate();
      AddedModulo(Value(), 0 - b.Value(), B(pn.Length));
      AddAssign(minus);
    }

    method CompareTo(b: BaseUint) returns (r: int)
      requires b.pn.Length == pn.Length
      ensures r == if Value() < b.Value() then -1 else if Value() > b.Value() then 1 else 0
    {
      hide Val, B;
      for i := pn.Length downto 0
        invariant pn[i..] == b.pn[i..]
      {
        if pn[i] < b.pn[i] {
          HigherLimbDecides(pn[..], b.pn[..], i);
          return -1;
        }
        if pn[i] > b.pn[i] {
          HigherLimbDecides(b.pn[..], pn[..], i);
          return 1;
        }
      }
      assert pn[..] == pn[0..] == b.pn[0..] == b.pn[..];
      return 0;
    }

    // The number of bits up to the highest one set.
    method Bits() returns (n: nat)
      ensures IsBitLength(Value(), n) && n <= 32 * pn.Length
    {
      hide Val, B, Pow;
      for pos := pn.Length downto 0
        invariant forall j | pos <= j < pn.Length :: pn[j] == 0
      {
        if pn[pos] != 0 {
          PowEnds();
          for bits := 32 downto 1
            invariant pn[pos] < Pow(2, bits)
          {
            TopBit(pn[pos], bits);
            if pn[pos] / Pow(2, bits) % 2 == 1 {
              TopLimbBits(pn[..], pos, bits);
              return 32 * pos + bits + 1;
            }
          }
          PowOne();
          TopLimbBits(pn[..], pos, 0);
          return 32 * pos + 1;
        }
      }
      ValZero(pn[..]);
      return 0;
    }

    // Sets a bit; all bits from it down are zero.
    method SetBit(shift: nat)
      requires shift / 32 < pn.Length && ClearFrom(pn[..], shift)
      modifies pn
      ensures Value() == old(Value()) + Pow(2, shift)
      ensures shift > 0 ==> ClearFrom(pn[..], shift - 1)
    {
      hide Val, B, Pow, Or, ClearFrom;
      var pos, r := shift / 32, shift % 32;
      BitAdds(pn[..], shift);
      if shift > 0 { BitLeavesClear(pn[..], shift); }
      pn[pos] := Or(pn[pos], Pow(2, r));
      assert pn[..] == old(pn[..])[pos := old(pn[pos]) + Pow(2, r)];
    }

    // One turn of the division: num is reduced by the shifted divisor if it can be, and the bit of the quotient set.
    method Turn(num: BaseUint, div: BaseUint, shift: nat, ghost d: nat, ghost n0: nat)
      requires pn.Length == num.pn.Length == div.pn.Length && shift / 32 < pn.Length
      requires pn != num.pn && pn != div.pn && num.pn != div.pn
      requires ClearFrom(pn[..], shift) && Balanced(Value(), d, num.Value(), n0)
      requires div.Value() == Scaled(d, shift) && num.Value() < 2 * Scaled(d, shift)
      modifies pn, num.pn
      ensures Balanced(Value(), d, num.Value(), n0) && num.Value() < Scaled(d, shift)
      ensures shift > 0 ==> ClearFrom(pn[..], shift - 1)
    {
      hide Val, B, Pow, ClearFrom, Scaled, Balanced;
      var c := num.CompareTo(div);
      if c >= 0 {
        ValBound(num.pn[..]);
        DivModUnique(num.Value() - div.Value(), B(pn.Length), 0, num.Value() - div.Value());
        BalancedTurn(Value(), d, num.Value(), n0, shift);
        num.SubAssign(div);
        SetBit(shift);
      } else {
        if shift > 0 { StillClear(pn[..], shift); }
      }
    }

    // The loop of the division, from the highest bit of the quotient down.
    method Reduce(num: BaseUint, div: BaseUint, top: nat, ghost d: nat)
      requires pn.Length == num.pn.Length == div.pn.Length && top < 32 * pn.Length
      requires pn != num.pn && pn != div.pn && num.pn != div.pn && d > 0
      requires Value() == 0 && ClearFrom(pn[..], top)
      requires div.Value() == d * Pow(2, top) && num.Value() < d * Pow(2, top + 1)
      modifies pn, num.pn, div.pn
      ensures Value() == old(num.Value()) / d && num.Value() == old(num.Value()) % d
    {
      ghost var n0 := num.Value();
      PowNext(d, top);
      assert Balanced(Value(), d, num.Value(), n0);
      hide Val, B, Pow, ClearFrom, Scaled, Balanced;
      assert div.Value() == Scaled(d, top) by { ScaledIs(d, top); }
      var shift: int := top;
      while shift >= 0
        invariant -1 <= shift <= top && Balanced(Value(), d, num.Value(), n0)
        invariant shift >= 0 ==>
                  ClearFrom(pn[..], shift) && div.Value() == Scaled(d, shift) && num.Value() < 2 * Scaled(d, shift)
        invariant shift == -1 ==> num.Value() < d
      {
        Turn(num, div, shift, d, n0);
        div.ShiftRight(1);
        ScaledHalves(d, shift);
        shift := shift - 1;
      }
      BalancedIsDivision(Value(), d, num.Value(), n0);
    }

    // The quotient; the remainder is left in a number of its own. A zero divisor throws, after this number is cleared.
    method DivAssign(b: BaseUint) returns (ok: bool, num: BaseUint)
      requires b.pn.Length == pn.Length >= 1
      modifies pn
      ensures fresh(num.pn)
      ensures ok <==> old(b.Value()) != 0
      ensures ok ==> Value() == old(Value()) / old(b.Value()) && num.Value() == old(Value()) % old(b.Value())
      ensures !ok ==> Value() == 0
    {
      hide Val, B, Pow, IsBitLength, ClearFrom;
      var div := new BaseUint.Copy(b);
      num := new BaseUint.Copy(this);
      ghost var n0, d := Value(), b.Value();
      Clear();
      var numBits := num.Bits();
      var divBits := div.Bits();
      BitLengths(n0, numBits, d, divBits);
      if divBits == 0 {
        return false, num;
      }
      if divBits > numBits {
        DivModUnique(n0, d, 0, n0);
        return true, num;
      }
      var shift := numBits - divBits;
      AlignedFits(n0, numBits, d, divBits, pn.Length);
      div.ShiftLeft(shift);
      DivModUnique(d * Pow(2, shift), B(pn.Length), 0, d * Pow(2, shift));
      ZeroIsClear(pn[..], shift);
      Reduce(num, div, shift, d);
      ok := true;
    }

    // Assigns a number of 64 bits.
    method SetLow64(b: nat)
      requires pn.Length >= 2 && b < UINT64
      modifies pn
      ensures Value() == b
    {
      HighFits(b);
      pn[0] := b % BASE;
      pn[1] := b / BASE;
      for i := 2 to pn.Length
        invariant pn[0] == b % BASE && pn[1] == b / BASE && forall j | 2 <= j < i :: pn[j] == 0
      {
        pn[i] := 0;
      }
      TwoLimbs(pn[..]);
      ValZero(pn[..][2..]);
      DivMod(b, BASE);
    }

    method GetLow64() returns (n: nat)
      requires pn.Length >= 2
      ensures n == Truncated(Value(), UINT64) < UINT64
    {
      TwoLimbs(pn[..]);
      n := Or(pn[0], pn[1] * BASE);
      assert n == pn[0] + pn[1] * BASE by { PowEnds(); OrAdds(pn[0], pn[1], 32); }
      DivModUnique(Value(), UINT64, Val(pn[..][2..]), n);
    }

    method Assign(b: BaseUint)
      requires b.pn.Length == pn.Length && b.pn != pn
      modifies pn
      ensures pn[..] == b.pn[..]
    {
      for i := 0 to pn.Length
        invariant pn[..i] == b.pn[..i]
      {
        pn[i] := b.pn[i];
      }
    }
  }

  lemma TwoLimbs(p: seq<Limb>)
    requires |p| >= 2
    ensures Val(p) == p[0] + p[1] * BASE + Val(p[2..]) * UINT64
  {
    ValSplit(p, 2);
    ValNext(p, 0);
    ValNext(p, 1);
    assert p[..0] == [];
    assert B(1) == BASE * B(0) && B(2) == BASE * B(1);
  }

  // 2^(n-1) <= v < 2^n, or both are zero.
  predicate IsBitLength(v: nat, n: nat) {
    if n == 0 then v == 0 else Pow(2, n - 1) <= v < Pow(2, n)
  }

  // The bits from `shift` down are zero.
  predicate ClearFrom(p: seq<Limb>, shift: nat) {
    && shift / 32 < |p| && (forall j | 0 <= j < shift / 32 :: p[j] == 0)
    && Pow(2, shift % 32 + 1) > 0 && p[shift / 32] % Pow(2, shift % 32 + 1) == 0
  }

  lemma ZeroIsClear(p: seq<Limb>, shift: nat)
    requires shift / 32 < |p| && forall j | 0 <= j < |p| :: p[j] == 0
    ensures ClearFrom(p, shift)
  {
    PowPositive(2, shift % 32 + 1);
    DivModUnique(0, Pow(2, shift % 32 + 1), 0, 0);
  }

  lemma BitIsClear(x: Limb, r: nat)
    requires r < 32 && Pow(2, r + 1) > 0 && x % Pow(2, r + 1) == 0
    ensures Or(x, Pow(2, r)) == x + Pow(2, r) < BASE
  {
    hide Or;
    var e := Pow(2, r + 1);
    DivMod(x, e);
    PowPositive(2, r);
    assert e == 2 * Pow(2, r);
    PowMono(2, r, 31);
    PowEnds();
    assert Pow(2, 32) == 2 * Pow(2, 31);
    OrFits(Pow(2, r), x, x / e, r + 1);
    OrCommutes(x, Pow(2, r));
  }

  // After the bit is set, those below it are still clear.
  lemma NextBitIsClear(x: Limb, r: nat)
    requires r < 32 && Pow(2, r + 1) > 0 && x % Pow(2, r + 1) == 0
    ensures Pow(2, r) > 0 && x % Pow(2, r) == 0 && (x + Pow(2, r)) % Pow(2, r) == 0
  {
    var e := Pow(2, r);
    PowPositive(2, r);
    var h := x / (2 * e);
    DivMod(x, 2 * e);
    assert x == (2 * h) * e by { MulAssoc(h, 2, e); }
    DivModUnique(x, e, 2 * h, 0);
    assert x + e == (2 * h + 1) * e;
    DivModUnique(x + e, e, 2 * h + 1, 0);
  }

  lemma StillClear(p: seq<Limb>, shift: nat)
    requires ClearFrom(p, shift) && shift > 0
    ensures ClearFrom(p, shift - 1)
  {
    hide Pow;
    var r := shift % 32;
    NextBitIsClear(p[shift / 32], r);
    if r == 0 {
      PowPositive(2, 32);
      DivModUnique(0, Pow(2, 32), 0, 0);
    }
  }

  lemma BitAdds(p: seq<Limb>, shift: nat)
    requires ClearFrom(p, shift)
    ensures shift / 32 < |p| && Or(p[shift / 32], Pow(2, shift % 32)) == p[shift / 32] + Pow(2, shift % 32) < BASE
    ensures Val(p[shift / 32 := p[shift / 32] + Pow(2, shift % 32)]) == Val(p) + Pow(2, shift)
  {
    hide Pow, Or, Val, B;
    var pos, r := shift / 32, shift % 32;
    BitIsClear(p[pos], r);
    ValPut(p, pos, p[pos] + Pow(2, r));
    ShiftPower(shift);
  }

  lemma BitLeavesClear(p: seq<Limb>, shift: nat)
    requires ClearFrom(p, shift) && shift > 0 && p[shift / 32] + Pow(2, shift % 32) < BASE
    ensures ClearFrom(p[shift / 32 := p[shift / 32] + Pow(2, shift % 32)], shift - 1)
  {
    hide Pow;
    var pos, r := shift / 32, shift % 32;
    NextBitIsClear(p[pos], r);
    StillClear(p, shift);
    if r > 0 {
      assert (shift - 1) / 32 == pos && (shift - 1) % 32 == r - 1;
    } else {
      assert (shift - 1) / 32 == pos - 1;
    }
  }

  lemma PowNext(d: nat, shift: nat)
    ensures d * Pow(2, shift + 1) == 2 * (d * Pow(2, shift)) && Pow(2, shift) >= 1
  {
    PowPositive(2, shift);
    MulAssoc(d, 2, Pow(2, shift));
    MulAssoc(2, d, Pow(2, shift));
  }

  ghost function Scaled(d: nat, shift: nat): nat { d * Pow(2, shift) }

  // Quotient so far, divisor, rest, dividend.
  ghost predicate Balanced(q: int, d: int, r: int, n: int) { q * d + r == n }

  lemma ScaledIs(d: nat, shift: nat)
    ensures Scaled(d, shift) == d * Pow(2, shift)
  {
  }

  lemma ScaledHalves(d: nat, shift: nat)
    ensures Pow(2, 1) == 2
    ensures shift == 0 ==> Scaled(d, shift) == d
    ensures shift > 0 ==> Scaled(d, shift) / 2 == Scaled(d, shift - 1) && Scaled(d, shift) == 2 * Scaled(d, shift - 1)
  {
    if shift > 0 { PowNext(d, shift - 1); }
  }

  lemma BalancedTurn(q: int, d: nat, r: int, n: int, shift: nat)
    requires Balanced(q, d, r, n)
    ensures Balanced(q + Pow(2, shift), d, r - Scaled(d, shift), n)
  {
    assert (q + Pow(2, shift)) * d == q * d + d * Pow(2, shift);
  }

  lemma BalancedIsDivision(q: int, d: nat, r: int, n: int)
    requires Balanced(q, d, r, n) && 0 <= r < d
    ensures q == n / d && r == n % d
  {
    DivModUnique(n, d, q, r);
  }

  lemma BitLengths(n: nat, numBits: nat, d: nat, divBits: nat)
    requires IsBitLength(n, numBits) && IsBitLength(d, divBits)
    ensures divBits == 0 <==> d == 0
    ensures divBits > numBits ==> n < d
  {
    if divBits > 0 { PowPositive(2, divBits - 1); }
    if divBits > numBits { PowMono(2, numBits, divBits - 1); PowZero(2); }
  }

  lemma AlignedFits(n: nat, numBits: nat, d: nat, divBits: nat, width: nat)
    requires IsBitLength(n, numBits) && IsBitLength(d, divBits) && 0 < divBits <= numBits <= 32 * width
    ensures var shift := numBits - divBits; d * Pow(2, shift) < B(width) && n < d * Pow(2, shift + 1)
  {
    hide Pow, B;
    var shift := numBits - divBits;
    PowAdd(2, divBits, shift);
    PowAdd(2, divBits - 1, shift + 1);
    PowPositive(2, shift);
    MulStrict(d, Pow(2, divBits), Pow(2, shift));
    PowMono(2, numBits, 32 * width);
    BitsOfB(width);
    MulMono(Pow(2, divBits - 1), d, Pow(2, shift + 1));
    assert divBits + shift == numBits && divBits - 1 + (shift + 1) == numBits;
  }

  lemma MulStrict(a: nat, b: nat, c: nat)
    requires a < b && c >= 1
    ensures a * c < b * c
  {
    MulMono(a + 1, b, c);
    assert (a + 1) * c == a * c + c;
  }

  lemma PowOne()
    ensures Pow(2, 1) == 2
  {
  }

  lemma TopBit(x: nat, bits: nat)
    requires x < Pow(2, bits + 1)
    ensures Pow(2, bits) >= 1
    ensures if x / Pow(2, bits) % 2 == 1 then x >= Pow(2, bits) else x < Pow(2, bits)
  {
    PowPositive(2, bits);
    var e := Pow(2, bits);
    assert Pow(2, bits + 1) == 2 * e;
    if x < e { DivModUnique(x, e, 0, x); } else { DivModUnique(x, e, 1, x - e); }
  }

  lemma TopLimbBits(p: seq<Limb>, pos: nat, bits: nat)
    requires pos < |p| && (forall j | pos < j < |p| :: p[j] == 0) && bits < 32
    requires Pow(2, bits) <= p[pos] < Pow(2, bits + 1)
    ensures IsBitLength(Val(p), 32 * pos + bits + 1)
  {
    hide Pow, Val, B;
    TopLimbValue(p, pos);
    BitsOfB(pos);
    PowAdd(2, bits, 32 * pos);
    PowAdd(2, bits + 1, 32 * pos);
    Between(Val(p[..pos]), p[pos], Pow(2, bits), Pow(2, bits + 1), B(pos));
    assert bits + 32 * pos == (32 * pos + bits + 1) - 1;
    assert bits + 1 + 32 * pos == 32 * pos + bits + 1;
  }

  lemma TopLimbValue(p: seq<Limb>, pos: nat)
    requires pos < |p| && forall j | pos < j < |p| :: p[j] == 0
    ensures Val(p) == Val(p[..pos]) + p[pos] * B(pos) && Val(p[..pos]) < B(pos)
  {
    hide Val, B;
    ValSplit(p, pos + 1);
    ValZero(p[pos + 1..]);
    ValNext(p, pos);
    ValBound(p[..pos]);
  }

  lemma Between(low: nat, x: nat, lo: nat, hi: nat, b: nat)
    requires low < b && lo <= x < hi
    ensures lo * b <= low + x * b < hi * b
  {
    MulMono(lo, x, b);
    MulMono(x + 1, hi, b);
    assert (x + 1) * b == x * b + b;
  }

  lemma HigherLimbDecides(p: seq<Limb>, q: seq<Limb>, i: nat)
    requires i < |p| == |q| && p[i + 1..] == q[i + 1..] && p[i] < q[i]
    ensures Val(p) < Val(q)
  {
    hide Val, B;
    ValSplit(p, i + 1);
    ValSplit(q, i + 1);
    ValNext(p, i);
    ValNext(q, i);
    ValBound(p[..i]);
    var x: nat := p[i];
    MulMono(x + 1, q[i], B(i));
    assert (x + 1) * B(i) == x * B(i) + B(i);
  }

  lemma NegatedModulo(v: nat, m: nat)
    requires v < m
    ensures (m - 1 - v + 1) % m == (0 - v) % m
  {
    AddedModulo(m, 0 - v, m);
    DivModUnique(m, m, 1, 0);
    if v == 0 {
      DivModUnique(m, m, 1, 0);
    } else {
      DivModUnique(m - v, m, 0, m - v);
      DivModUnique(0 - v, m, -1, m - v);
    }
  }

  lemma AddedModulo(a: int, b: int, m: nat)
    requires m > 0
    ensures (a + b % m) % m == (a + b) % m
  {
    DivMod(b, m);
    DivMod(a + b % m, m);
    var q, r := (a + b % m) / m, (a + b % m) % m;
    assert (b / m + q) * m == (b / m) * m + q * m;
    DivModUnique(a + b, m, b / m + q, r);
  }

  lemma B0()
    ensures B(0) == 1
  {
  }

  // The lowest limb that is not dropped as a whole loses its low bits.
  lemma FirstShiftedOut(low: nat, x: Limb, s: nat, p: nat)
    requires s < 32 && low < p
    ensures Pow(2, s) >= 1
    ensures var rest := low + (x % Pow(2, s)) * p;
            0 <= rest < Pow(2, s) * p && High(x, 32 - s) * (Pow(2, s) * p) + rest == low + x * p
  {
    hide Pow;
    PowPositive(2, s);
    var e := Pow(2, s);
    DivMod(x, e);
    TwoFactors(x / e, x % e, p, e);
    assert 32 - (32 - s) == s;
    assert e * p == p * e;
  }

  lemma OneShiftedOut(v: int, x: Limb, s: nat, i: nat, k: nat)
    requires s < 32 && i > k
    ensures var d := Pow(2, s) * B(k); (v + x * Pow(2, 32 - s) * B(i - k - 1)) * d == v * d + x * B(i)
  {
    var e, t, p, q := Pow(2, s), Pow(2, 32 - s), B(i - k - 1), B(k);
    BaseSplits(s);
    BAdd(i - k - 1, k);
    BPositive(i - 1);
    assert BASE * (p * q) == B(i);
    Regroup(v, x, e, t, p, q);
  }

  lemma Regroup(v: int, x: int, e: int, t: int, p: int, q: int)
    ensures (v + x * t * p) * (e * q) == v * (e * q) + x * (e * t * (p * q))
  {
    assert (v + x * t * p) * (e * q) == v * (e * q) + (x * t * p) * (e * q);
    calc {
      (x * t * p) * (e * q);
      { MulAssoc(x, t, p); }
      x * (t * p) * (e * q);
      { MulAssoc(x, t * p, e * q); }
      x * (t * p * (e * q));
      { MulAssoc(t * p, e, q); MulAssoc(t, p, e); MulAssoc(t, e, p); assert t * (p * e) == t * e * p; }
      x * (t * e * p * q);
      { MulAssoc(t * e, p, q); assert t * e == e * t; }
      x * (e * t * (p * q));
    }
  }

  lemma AllShiftedOut(a: seq<Limb>, s: nat, k: nat)
    requires |a| <= k && s < 32
    ensures Val(a) < Pow(2, s) * B(k)
  {
    ValBound(a);
    PowMono(BASE, |a|, k);
    PowPositive(2, s);
    MulAtLeast(Pow(2, s), B(k));
  }

  lemma PowZero(b: nat)
    ensures Pow(b, 0) == 1
  {
  }

  lemma TwoParts(n: int, hi: int, lo: int, p: int)
    requires n == hi * BASE + lo
    ensures n * p == hi * (BASE * p) + lo * p
  {
    MulAssoc(hi, BASE, p);
    assert (hi * BASE + lo) * p == (hi * BASE) * p + lo * p;
  }

  lemma ShiftPower(shift: nat)
    ensures Pow(2, shift) == Pow(2, shift % 32) * B(shift / 32) && Pow(2, shift % 32) >= 1
  {
    PowPositive(2, shift % 32);
    BitsOfB(shift / 32);
    PowAdd(2, shift % 32, 32 * (shift / 32));
  }

  lemma OneShiftedMore(va: int, x: int, e: int, p: int, q: int)
    ensures (va + x * p) * (e * q) == va * (e * q) + x * e * (p * q)
  {
    assert (va + x * p) * (e * q) == va * (e * q) + (x * p) * (e * q);
    assert (x * p) * (e * q) == x * e * (p * q) by {
      MulAssoc(x * p, e, q);
      MulAssoc(x, p, e);
      MulAssoc(x, e, p);
      MulAssoc(x * e, p, q);
    }
  }

  lemma OneLimbMore(carry: int, b: int, x: int, va: int, p: int)
    ensures (carry + b * x - x) * p == carry * p + ((b - 1) * (va + x * p) - (b - 1) * va)
  {
    assert (b - 1) * (va + x * p) - (b - 1) * va == (b - 1) * (x * p);
    MulAssoc(b - 1, x, p);
    assert (carry + b * x - x) * p == carry * p + ((b - 1) * x) * p;
  }

  lemma BAdd(i: nat, j: nat)
    ensures B(i + j) == B(i) * B(j)
  {
    PowAdd(BASE, i, j);
  }

  ghost function Mul3(x: int, v: int, q: int): int { x * v * q }

  lemma NoProduct(x: int, q: int)
    ensures Mul3(x, 0, q) == 0
  {
  }

  lemma OneProductMore(carry: int, x: Limb, b: seq<Limb>, i: nat, j: nat, a: int)
    requires i < |b|
    ensures (carry + a + Times(x, b[i]) - a) * B(i + j)
            == carry * B(i + j) + (Mul3(x, Val(b[..i + 1]), B(j)) - Mul3(x, Val(b[..i]), B(j)))
  {
    hide Val, B;
    ValNext(b, i);
    BAdd(i, j);
    OneTermMore(carry, x, b[i], Val(b[..i]), B(i), B(j));
  }

  lemma OneTermMore(carry: int, x: int, y: int, vb: int, p: int, q: int)
    ensures (carry + x * y) * (p * q) == carry * (p * q) + (x * (vb + y * p) * q - x * vb * q)
  {
    assert x * (vb + y * p) == x * vb + x * (y * p);
    assert (x * vb + x * (y * p)) * q == x * vb * q + x * (y * p) * q;
    assert x * (y * p) * q == (x * y) * (p * q) by { MulAssoc(x, y, p); MulAssoc(x * y, p, q); }
    assert (carry + x * y) * (p * q) == carry * (p * q) + (x * y) * (p * q);
  }

  // The limbs that would go beyond the width.
  lemma RestIsLost(x: Limb, b: seq<Limb>, w: nat, j: nat, carry: int)
    requires |b| == w && j <= w
    ensures Mul3(x, Val(b[..w - j]), B(j)) + (carry + x * Val(b[w - j..])) * B(w) == x * Val(b) * B(j) + carry * B(w)
  {
    hide Val, B;
    ValSplit(b, w - j);
    BAdd(w - j, j);
    TwoTerms(x, Val(b[..w - j]), Val(b[w - j..]), B(w - j), B(j));
    var high := x * Val(b[w - j..]);
    assert (carry + high) * B(w) == carry * B(w) + high * B(w);
  }

  lemma TwoTerms(x: int, low: int, high: int, p: int, q: int)
    ensures x * (low + high * p) * q == x * low * q + x * high * (p * q)
  {
    assert x * (low + high * p) == x * low + x * (high * p);
    assert (x * low + x * (high * p)) * q == x * low * q + x * (high * p) * q;
    assert x * (high * p) * q == x * high * (p * q) by { MulAssoc(x, high, p); MulAssoc(x * high, p, q); }
  }

  lemma OneRowMore(va: int, x: int, p: int, vb: int)
    ensures (va + x * p) * vb == va * vb + x * vb * p
  {
    assert (va + x * p) * vb == va * vb + (x * p) * vb;
    assert (x * p) * vb == x * vb * p by { MulAssoc(x, p, vb); MulAssoc(x, vb, p); }
  }
}
