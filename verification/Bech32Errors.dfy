/**
 The Bech32 checksum finds every change of up to three values within a window of 1023.
 The generator has three consecutive powers of ALPHA among its roots, so that a change the
 checksum misses would solve a Vandermonde system.
 */
module Bech32Errors {
  import opened Bech32Checksum
  import opened Gf1024
  import C = Bech32Checksum
  import R = Bech32Remainder
  import T = Bech32
  import opened Options

  /* ----- The field of 32 elements inside the field of 1024 ----- */

  // The element 2 goes to 14: both are roots of y^5 + y^3 + 1. The powers of 14 are 1, 14, 84, 856 and 191.
  function EmbedBits(v: Byte): bv10 {
    var a, b, c := (v & 1) as bv10, ((v >> 1) & 1) as bv10, ((v >> 2) & 1) as bv10;
    var d, e := ((v >> 3) & 1) as bv10, ((v >> 4) & 1) as bv10;
    a ^ (b << 1) ^ (b << 2) ^ (b << 3) ^ (c << 2) ^ (c << 4) ^ (c << 6)
    ^ (d << 3) ^ (d << 4) ^ (d << 6) ^ (d << 8) ^ (d << 9)
    ^ e ^ (e << 1) ^ (e << 2) ^ (e << 3) ^ (e << 4) ^ (e << 5) ^ (e << 7)
  }

  function Embed(v: Byte): Elem { Elem(EmbedBits(v)) }

  lemma EmbedAdds(a: Byte, b: Byte)
    ensures Embed(R.Plus(a, b)) == Add(Embed(a), Embed(b))
  {
  }

  lemma EmbedDoubled(a: Byte)
    requires a < 32
    ensures R.Doubled(a) < 32 && EmbedBits(R.Doubled(a)) == Product(14, EmbedBits(a))
  {
  }

  lemma EmbedWhen(b: bool, a: Byte)
    ensures Embed(R.When(b, a)) == Pick(b, Embed(a))
  {
  }

  // One step of the product in the small field.
  lemma EmbedStep(p: Byte, b: bool, g: Byte)
    requires p < 32 && g < 32
    ensures var q := R.Plus(R.Doubled(p), R.When(b, g));
            q < 32 && Embed(q) == Add(Times(Elem(14), Embed(p)), Pick(b, Embed(g)))
  {
    hide EmbedBits, Product, Times, Add, Pick, R.Doubled, R.Plus;
    EmbedDoubled(p);
    Evaluates(14, EmbedBits(p));
    EmbedWhen(b, g);
    EmbedAdds(R.Doubled(p), R.When(b, g));
    R.PlusStays(R.Doubled(p), R.When(b, g));
  }

  // The same product in the large field, from the highest bit of a down.
  function Steps(a: Byte, x: Elem): Elem {
    var p1 := Pick(a & 16 != 0, x);
    var p2 := Add(Times(Elem(14), p1), Pick(a & 8 != 0, x));
    var p3 := Add(Times(Elem(14), p2), Pick(a & 4 != 0, x));
    var p4 := Add(Times(Elem(14), p3), Pick(a & 2 != 0, x));
    Add(Times(Elem(14), p4), Pick(a & 1 != 0, x))
  }

  lemma ProductIsSteps(a: Byte, g: Byte)
    requires g < 32
    ensures Embed(R.Product(a, g)) == Steps(a, Embed(g))
  {
    hide Embed, Times, Add, Pick, R.Doubled, R.Plus;
    var p1 := R.When(a & 16 != 0, g);
    var p2 := R.Plus(R.Doubled(p1), R.When(a & 8 != 0, g));
    var p3 := R.Plus(R.Doubled(p2), R.When(a & 4 != 0, g));
    var p4 := R.Plus(R.Doubled(p3), R.When(a & 2 != 0, g));
    EmbedWhen(a & 16 != 0, g);
    EmbedStep(p1, a & 8 != 0, g);
    EmbedStep(p2, a & 4 != 0, g);
    EmbedStep(p3, a & 2 != 0, g);
    EmbedStep(p4, a & 1 != 0, g);
  }

  lemma StepScales(p: Elem, b: bool, x: Elem)
    ensures Add(Times(Elem(14), Times(p, x)), Pick(b, x)) == Times(Add(Times(Elem(14), p), Pick(b, ONE)), x)
  {
    hide Times, Add;
    TimesAssociates(Elem(14), p, x);
    TimesAdds(Times(Elem(14), p), Pick(b, ONE), x);
    TimesOne(x);
    TimesZero(x);
  }

  lemma StepsScale(a: Byte, x: Elem)
    ensures Steps(a, x) == Times(Steps(a, ONE), x)
  {
    hide Times, Add;
    var p1 := Pick(a & 16 != 0, ONE);
    var p2 := Add(Times(Elem(14), p1), Pick(a & 8 != 0, ONE));
    var p3 := Add(Times(Elem(14), p2), Pick(a & 4 != 0, ONE));
    var p4 := Add(Times(Elem(14), p3), Pick(a & 2 != 0, ONE));
    TimesOne(x);
    TimesZero(x);
    StepScales(p1, a & 8 != 0, x);
    StepScales(p2, a & 4 != 0, x);
    StepScales(p3, a & 2 != 0, x);
    StepScales(p4, a & 1 != 0, x);
  }

  lemma EmbedTimes(a: Byte, b: Byte)
    requires a < 32 && b < 32
    ensures Embed(R.Product(a, b)) == Times(Embed(a), Embed(b))
  {
    assert Embed(1) == ONE;
    hide Embed, Times, Steps, R.Product;
    ProductIsSteps(a, b);
    ProductIsSteps(a, 1);
    R.OneTimes(a);
    StepsScale(a, Embed(b));
  }

  lemma EmbedZero(a: Byte)
    requires a < 32
    ensures Embed(a) == ZERO <==> a == 0
  {
  }

  /* ----- The value of a polynomial ----- */

  // Coefficients with the highest first, at x.
  function At(f: Bytes, x: Elem): Elem {
    if f == [] then ZERO else Add(Times(At(f[..|f| - 1], x), x), Embed(f[|f| - 1]))
  }

  lemma {:induction false} AtSum(a: Bytes, b: Bytes, x: Elem)
    requires |a| == |b|
    ensures At(R.Sum(a, b), x) == Add(At(a, x), At(b, x))
  {
    hide Add, Times, Embed, R.Plus;
    if a == [] {
      AddZero(ZERO);
    } else {
      var n := |a| - 1;
      var p, q := At(a[..n], x), At(b[..n], x);
      AtSum(a[..n], b[..n], x);
      assert R.Sum(a, b)[..n] == R.Sum(a[..n], b[..n]);
      TimesAdds(p, q, x);
      EmbedAdds(a[n], b[n]);
      AddSwap(Times(p, x), Times(q, x), Embed(a[n]), Embed(b[n]));
    }
  }

  lemma {:induction false} AtScaled(a: Byte, g: Bytes, x: Elem)
    requires a < 32 && Fives(g)
    ensures At(R.Scaled(a, g), x) == Times(Embed(a), At(g, x))
  {
    hide Add, Times, Embed, R.Product;
    if g == [] {
      TimesZero(Embed(a));
    } else {
      var n := |g| - 1;
      var p := At(g[..n], x);
      AtScaled(a, g[..n], x);
      assert R.Scaled(a, g)[..n] == R.Scaled(a, g[..n]);
      TimesAdds(Embed(a), Times(p, x), Embed(g[n]));
      TimesAssociates(Embed(a), p, x);
      EmbedTimes(a, g[n]);
    }
  }

  lemma {:induction false} AtZeroTerms(n: nat, f: Bytes, x: Elem)
    ensures At(R.ZeroTerms(n) + f, x) == At(f, x)
  {
    hide Add, Times, Embed;
    if f != [] {
      var k := |f| - 1;
      AtZeroTerms(n, f[..k], x);
      assert (R.ZeroTerms(n) + f)[..n + k] == R.ZeroTerms(n) + f[..k];
    } else if n > 0 {
      AtZeroTerms(n - 1, [], x);
      ZeroTermsGrow(n - 1);
      assert R.ZeroTerms(n) + [] == R.ZeroTerms(n);
      assert R.ZeroTerms(n - 1) + [] == R.ZeroTerms(n - 1);
      TimesZero(x);
      EmbedZero(0);
      AddZero(ZERO);
    } else {
      assert R.ZeroTerms(0) + [] == [];
    }
  }

  lemma ZeroTermsGrow(n: nat)
    ensures R.ZeroTerms(n + 1)[..n] == R.ZeroTerms(n)
  {
  }

  // One more factor x.
  lemma AtShifted(f: Bytes, x: Elem)
    ensures At(f + [0], x) == Times(At(f, x), x)
  {
    hide Add, Times, Embed;
    assert (f + [0])[..|f|] == f;
    EmbedZero(0);
    AddZero(Times(At(f, x), x));
  }

  /* ----- Roots of the generator ----- */

  predicate IsRoot(x: Elem) { At(R.GENERATOR, x) == ZERO }

  lemma {:induction false} MultiplesVanish(q: Bytes, x: Elem)
    requires IsRoot(x) && Fives(q)
    ensures At(R.TimesGenerator(q), x) == ZERO
  {
    hide Add, Times, Embed, At, R.Sum, R.Scaled, R.ZeroTerms;
    if q == [] {
      ZerosVanish(x);
    } else {
      var n := |q| - 1;
      var m, s := R.TimesGenerator(q[..n]), R.Scaled(q[n], R.GENERATOR);
      MultiplesVanish(q[..n], x);
      AtShifted(m, x);
      AtScaled(q[n], R.GENERATOR, x);
      AtZeroTerms(|m| - 6, s, x);
      AtSum(m + [0], R.ZeroTerms(|m| - 6) + s, x);
      TimesZero(x);
      TimesZero(Embed(q[n]));
      AddZero(ZERO);
    }
  }

  lemma ZerosVanish(x: Elem)
    ensures At(ZEROS, x) == ZERO
  {
    hide Add, Times, Embed;
    AtZeroTerms(6, [], x);
    assert R.ZeroTerms(6) + [] == ZEROS;
  }

  // At a root a polynomial has the value of its remainder.
  lemma DivisionAt(f: Bytes, q: Bytes, r: Bytes, x: Elem)
    requires IsRoot(x) && R.IsDivision(f, q, r)
    ensures At(f, x) == At(r, x)
  {
    hide Add, Times, Embed, At, IsRoot, R.Sum, R.ZeroTerms, R.TimesGenerator;
    var m := R.TimesGenerator(q);
    MultiplesVanish(q, x);
    AtSum(m, R.ZeroTerms(|m| - 6) + r, x);
    AtZeroTerms(|m| - 6, r, x);
    AddZero(At(r, x));
  }

  lemma SameRemainderAt(v: Bytes, u: Bytes, x: Elem)
    requires IsRoot(x) && Fives(v) && Fives(u) && C.PolyMod(v) == C.PolyMod(u)
    ensures At(R.ONE + v, x) == At(R.ONE + u, x)
  {
    hide At, IsRoot, R.IsDivision, C.PolyMod;
    var r := Groups(C.PolyMod(v));
    R.PolyModIff(v, r);
    R.PolyModIff(u, r);
    var p :| R.IsDivision(R.ONE + v, p, r);
    var q :| R.IsDivision(R.ONE + u, q, r);
    DivisionAt(R.ONE + v, p, r, x);
    DivisionAt(R.ONE + u, q, r, x);
  }

  // Horner's steps, written out.
  predicate AreSteps(b: bv10, v: seq<bv10>) {
    && |v| == 8 && v[0] == 0
    && forall t | 0 <= t < 7 :: v[t + 1] == Sum(Product(v[t], b), EmbedBits(R.GENERATOR[t]))
  }

  lemma {:induction false} StepsReach(b: bv10, v: seq<bv10>, t: nat)
    requires AreSteps(b, v) && t <= 7
    ensures At(R.GENERATOR[..t], Elem(b)) == Elem(v[t])
  {
    hide Times, Product, EmbedBits, Sum;
    if t > 0 {
      StepsReach(b, v, t - 1);
      Evaluates(v[t - 1], b);
      assert v[t - 1 + 1] == Sum(Product(v[t - 1], b), EmbedBits(R.GENERATOR[t - 1]));
      assert R.GENERATOR[..t][..t - 1] == R.GENERATOR[..t - 1];
    }
  }

  lemma FirstRoot()
    ensures Power(ALPHA, 24) == Elem(1008) && IsRoot(Power(ALPHA, 24))
  {
    hide Power, Times, At;
    Squares();
    PowerAdds(ALPHA, 16, 8);
    Evaluates(281, 256);
    StepsReach(1008, [0, 1, 66, 560, 708, 197, 221, 0], 7);
    assert R.GENERATOR[..7] == R.GENERATOR;
  }

  lemma SecondRoot()
    ensures Power(ALPHA, 25) == Elem(707) && IsRoot(Power(ALPHA, 25))
  {
    hide Power, Times, At;
    Squares();
    PowerAdds(ALPHA, 16, 8);
    Evaluates(281, 256);
    PowerAdds(ALPHA, 24, 1);
    Evaluates(1008, 2);
    StepsReach(707, [0, 1, 369, 679, 745, 447, 767, 0], 7);
    assert R.GENERATOR[..7] == R.GENERATOR;
  }

  lemma ThirdRoot()
    ensures Power(ALPHA, 26) == Elem(165) && IsRoot(Power(ALPHA, 26))
  {
    hide Power, Times, At;
    Squares();
    PowerAdds(ALPHA, 16, 8);
    Evaluates(281, 256);
    PowerAdds(ALPHA, 24, 2);
    Evaluates(1008, 4);
    StepsReach(165, [0, 1, 791, 40, 204, 669, 1006, 0], 7);
    assert R.GENERATOR[..7] == R.GENERATOR;
  }

  /* ----- Changing a value ----- */

  lemma {:induction false} AtChange(f: Bytes, i: nat, y: Byte, x: Elem)
    requires i < |f|
    ensures At(f[i := y], x) == Add(At(f, x), Times(Embed(R.Plus(f[i], y)), Power(x, |f| - 1 - i)))
  {
    hide Add, Times, Embed, R.Plus;
    var n, d := |f| - 1, Embed(R.Plus(f[i], y));
    if i == n {
      assert f[i := y][..n] == f[..n];
      EmbedChange(f[i], y);
      AddAssociates(Times(At(f[..n], x), x), Embed(f[i]), d);
      TimesOne(d);
    } else {
      var p, e := At(f[..n], x), Power(x, n - 1 - i);
      AtChange(f[..n], i, y, x);
      assert f[i := y][..n] == f[..n][i := y];
      TimesAdds(p, Times(d, e), x);
      TimesAssociates(d, e, x);
      TimesCommutes(e, x);
      assert Times(x, e) == Power(x, n - i);
      AddLast(Times(p, x), Times(d, Times(x, e)), Embed(f[n]));
    }
  }

  lemma EmbedChange(a: Byte, y: Byte)
    ensures Embed(y) == Add(Embed(a), Embed(R.Plus(a, y)))
  {
    hide Add, Embed;
    EmbedAdds(a, y);
    AddAssociates(Embed(a), Embed(a), Embed(y));
    AddZero(Embed(a));
    AddZero(Embed(y));
  }

  lemma AddLast(a: Elem, b: Elem, c: Elem)
    ensures Add(Add(a, b), c) == Add(Add(a, c), b)
  {
    hide Add;
    AddAssociates(a, b, c);
    AddCommutes(b, c);
    AddAssociates(a, c, b);
  }

  // What a change of d at distance e from the end adds at the root of exponent 24 + k.
  function Weight(d: Byte, e: nat): Elem { Times(Embed(d), Power(ALPHA, 24 * e)) }

  function Term(d: Byte, e: nat, k: nat): Elem {
    Times(Weight(d, e), Power(Power(ALPHA, e), k))
  }

  lemma TermIs(d: Byte, e: nat, k: nat)
    ensures Times(Embed(d), Power(Power(ALPHA, 24 + k), e)) == Term(d, e, k)
  {
    hide Times, Embed, Power;
    PowerTimes(ALPHA, 24 + k, e);
    assert (24 + k) * e == 24 * e + e * k;
    PowerAdds(ALPHA, 24 * e, e * k);
    PowerTimes(ALPHA, e, k);
    TimesAssociates(Embed(d), Power(ALPHA, 24 * e), Power(Power(ALPHA, e), k));
  }

  /* ----- A Vandermonde system ----- */

  lemma AddIsZero(a: Elem, b: Elem)
    requires Add(a, b) == ZERO
    ensures a == b
  {
    hide Add;
    AddAssociates(a, b, b);
    AddZero(a);
    AddZero(b);
  }

  lemma TwoVanish(w1: Elem, w2: Elem, x1: Elem, x2: Elem)
    requires Add(w1, w2) == ZERO && Add(Times(w1, x1), Times(w2, x2)) == ZERO
    requires x1 == x2 ==> w2 == ZERO
    ensures w1 == ZERO && w2 == ZERO
  {
    hide Add, Times;
    AddIsZero(w1, w2);
    TimesAdds(w1, x1, x2);
    NoZeroDivisors(w1, Add(x1, x2));
    if w1 != ZERO { AddIsZero(x1, x2); }
  }

  // Eliminating the first unknown from two equations.
  lemma Eliminate(x1: Elem, a1: Elem, a2: Elem, a3: Elem, x2: Elem, x3: Elem)
    requires Add(Add(a1, a2), a3) == ZERO && Add(Add(Times(a1, x1), Times(a2, x2)), Times(a3, x3)) == ZERO
    ensures Add(Times(a2, Add(x2, x1)), Times(a3, Add(x3, x1))) == ZERO
  {
    hide Add, Times;
    TimesAdds(Add(a1, a2), a3, x1);
    TimesAdds(a1, a2, x1);
    TimesZero(x1);
    TimesAdds(a2, x2, x1);
    TimesAdds(a3, x3, x1);
    var s1, s2, s3 := Times(a1, x1), Times(a2, x1), Times(a3, x1);
    var t2, t3 := Times(a2, x2), Times(a3, x3);
    AddSwap(t2, s2, t3, s3);
    AddAssociates(s1, s2, s3);
    AddIsZero(s1, Add(s2, s3));
    AddAssociates(s1, t2, t3);
    AddIsZero(s1, Add(t2, t3));
    AddZero(s1);
  }

  lemma ThreeVanish(w1: Elem, w2: Elem, w3: Elem, x1: Elem, x2: Elem, x3: Elem)
    requires Add(Add(w1, w2), w3) == ZERO
    requires Add(Add(Times(w1, x1), Times(w2, x2)), Times(w3, x3)) == ZERO
    requires Add(Add(Times(Times(w1, x1), x1), Times(Times(w2, x2), x2)), Times(Times(w3, x3), x3)) == ZERO
    requires (x1 == x2 ==> w2 == ZERO) && (x1 == x3 || x2 == x3 ==> w3 == ZERO)
    ensures w1 == ZERO && w2 == ZERO && w3 == ZERO
  {
    hide Add, Times;
    var u2, u3 := Times(w2, Add(x2, x1)), Times(w3, Add(x3, x1));
    Eliminate(x1, w1, w2, w3, x2, x3);
    Eliminate(x1, Times(w1, x1), Times(w2, x2), Times(w3, x3), x2, x3);
    Reorder(w2, x2, Add(x2, x1));
    Reorder(w3, x3, Add(x3, x1));
    TimesZero(Add(x3, x1));
    TwoVanish(u2, u3, x2, x3);
    NoZeroDivisors(w2, Add(x2, x1));
    NoZeroDivisors(w3, Add(x3, x1));
    if w2 != ZERO { AddIsZero(x2, x1); }
    if w3 != ZERO { AddIsZero(x3, x1); }
    AddZero(w1);
  }

  lemma Reorder(a: Elem, b: Elem, c: Elem)
    ensures Times(Times(a, b), c) == Times(Times(a, c), b)
  {
    hide Times;
    TimesAssociates(a, b, c);
    TimesCommutes(b, c);
    TimesAssociates(a, c, b);
  }

  /* ----- Three errors ----- */

  lemma RootOf(k: nat)
    requires k < 3
    ensures IsRoot(Power(ALPHA, 24 + k))
  {
    hide IsRoot, Power;
    FirstRoot();
    SecondRoot();
    ThirdRoot();
  }

  // v with the value of u at i, and by how much that changes it.
  function Replaced(v: Bytes, u: Bytes, i: nat): (r: Bytes)
    requires i < |v| == |u|
    ensures |r| == |v|
  {
    v[i := u[i]]
  }

  function Change(v: Bytes, u: Bytes, i: nat): Byte
    requires i < |v| == |u|
  {
    R.Plus(v[i], u[i])
  }

  lemma ReplacedAt(v: Bytes, u: Bytes, i: nat, k: nat)
    requires i < |v| == |u|
    ensures var x := Power(ALPHA, 24 + k);
            At(R.ONE + Replaced(v, u, i), x) == Add(At(R.ONE + v, x), Term(Change(v, u, i), |v| - 1 - i, k))
  {
    hide Add, Times, Embed, At, Power, Term, R.Plus;
    AtChange(R.ONE + v, 6 + i, u[i], Power(ALPHA, 24 + k));
    assert (R.ONE + v)[6 + i := u[i]] == R.ONE + v[i := u[i]];
    TermIs(Change(v, u, i), |v| - 1 - i, k);
  }

  lemma TermsCancel(v: Bytes, u: Bytes, i: nat, j: nat, l: nat, k: nat)
    requires |v| == |u| && i < |v| && j < |v| && l < |v| && k < 3
    requires Fives(v) && Fives(u) && C.PolyMod(v) == C.PolyMod(u)
    requires u == Replaced(Replaced(Replaced(v, u, i), u, j), u, l)
    ensures var v1 := Replaced(v, u, i); var v2 := Replaced(v1, u, j); var n := |v| - 1;
            Add(Add(Term(Change(v, u, i), n - i, k), Term(Change(v1, u, j), n - j, k)),
                Term(Change(v2, u, l), n - l, k)) == ZERO
  {
    hide Add, At, Power, Term, Replaced, Change, IsRoot, C.PolyMod, Fives;
    var v1 := Replaced(v, u, i);
    var v2 := Replaced(v1, u, j);
    var n, x := |v| - 1, Power(ALPHA, 24 + k);
    ReplacedAt(v, u, i, k);
    ReplacedAt(v1, u, j, k);
    ReplacedAt(v2, u, l, k);
    RootOf(k);
    SameRemainderAt(v, u, x);
    var t1, t2 := Term(Change(v, u, i), n - i, k), Term(Change(v1, u, j), n - j, k);
    SumIsZero(At(R.ONE + v, x), t1, t2, Term(Change(v2, u, l), n - l, k));
  }

  lemma SumIsZero(a: Elem, t1: Elem, t2: Elem, t3: Elem)
    requires Add(Add(Add(a, t1), t2), t3) == a
    ensures Add(Add(t1, t2), t3) == ZERO
  {
    hide Add;
    AddAssociates(a, t1, t2);
    AddAssociates(a, Add(t1, t2), t3);
    var s := Add(Add(t1, t2), t3);
    AddAssociates(a, a, s);
    AddZero(a);
    AddZero(s);
  }

  lemma TermPowers(d: Byte, e: nat)
    ensures var w, x := Weight(d, e), Power(ALPHA, e);
            Term(d, e, 0) == w && Term(d, e, 1) == Times(w, x) && Term(d, e, 2) == Times(Times(w, x), x)
  {
    hide Times, Embed;
    var w, x := Weight(d, e), Power(ALPHA, e);
    TimesOne(w);
    TimesOne(x);
    assert Power(x, 1) == Times(x, Power(x, 0)) && Power(x, 2) == Times(x, Power(x, 1));
    TimesAssociates(w, x, x);
  }

  lemma WeightZero(d: Byte, e: nat)
    requires d < 32
    ensures Weight(d, e) == ZERO <==> d == 0
  {
    hide Times, Embed, Power;
    EmbedZero(d);
    AlphaNotZero(24 * e);
    TimesZero(Power(ALPHA, 24 * e));
    if Weight(d, e) == ZERO { NoZeroDivisors(Embed(d), Power(ALPHA, 24 * e)); }
  }

  lemma ChangeZero(v: Bytes, u: Bytes, i: nat)
    requires i < |v| == |u| && Fives(v) && Fives(u)
    ensures Change(v, u, i) < 32 && (Change(v, u, i) == 0 <==> v[i] == u[i]) && Fives(Replaced(v, u, i))
  {
    R.PlusStays(v[i], u[i]);
  }

  // Three changes that cancel at all three roots change nothing.
  lemma ChangesVanish(d1: Byte, d2: Byte, d3: Byte, e1: nat, e2: nat, e3: nat)
    requires d1 < 32 && d2 < 32 && d3 < 32 && e3 <= e2 <= e1 < e3 + 1023
    requires (e1 == e2 ==> d2 == 0) && (e2 == e3 ==> d3 == 0)
    requires Add(Add(Term(d1, e1, 0), Term(d2, e2, 0)), Term(d3, e3, 0)) == ZERO
    requires Add(Add(Term(d1, e1, 1), Term(d2, e2, 1)), Term(d3, e3, 1)) == ZERO
    requires Add(Add(Term(d1, e1, 2), Term(d2, e2, 2)), Term(d3, e3, 2)) == ZERO
    ensures d1 == 0 && d2 == 0 && d3 == 0
  {
    hide Add, Times, Power, Term, Weight;
    TermPowers(d1, e1);
    TermPowers(d2, e2);
    TermPowers(d3, e3);
    WeightZero(d1, e1);
    WeightZero(d2, e2);
    WeightZero(d3, e3);
    if e2 < e1 { AlphaDiffers(e2, e1); }
    if e3 < e2 { AlphaDiffers(e3, e2); }
    if e3 < e1 { AlphaDiffers(e3, e1); }
    ThreeVanish(Weight(d1, e1), Weight(d2, e2), Weight(d3, e3), Power(ALPHA, e1), Power(ALPHA, e2), Power(ALPHA, e3));
  }

  // Replacements at i, j and l that the checksum misses change nothing.
  lemma MissedIsNothing(v: Bytes, u: Bytes, i: nat, j: nat, l: nat)
    requires |v| == |u| && i <= j <= l < |v| && l < i + 1023 && Fives(v) && Fives(u) && C.PolyMod(v) == C.PolyMod(u)
    requires u == Replaced(Replaced(Replaced(v, u, i), u, j), u, l)
    ensures u == v
  {
    hide Add, Term, Change, C.PolyMod, Fives;
    var v1 := Replaced(v, u, i);
    var v2 := Replaced(v1, u, j);
    var n := |v| - 1;
    ChangeZero(v, u, i);
    ChangeZero(v1, u, j);
    ChangeZero(v2, u, l);
    TermsCancel(v, u, i, j, l, 0);
    TermsCancel(v, u, i, j, l, 1);
    TermsCancel(v, u, i, j, l, 2);
    ChangesVanish(Change(v, u, i), Change(v1, u, j), Change(v2, u, l), n - i, n - j, n - l);
  }

  ghost predicate DifferOnlyAt(v: Bytes, u: Bytes, i: nat, j: nat, l: nat) {
    |v| == |u| && forall k | 0 <= k < |v| && u[k] != v[k] :: k == i || k == j || k == l
  }

  // Up to three changed values within a window of 1023 change the checksum, at any length.
  lemma ThreeErrorsShow(v: Bytes, u: Bytes, i: nat, j: nat, l: nat)
    requires Fives(v) && Fives(u) && u != v
    requires i <= j <= l < |v| && l < i + 1023 && DifferOnlyAt(v, u, i, j, l)
    ensures C.PolyMod(u) != C.PolyMod(v)
  {
    hide C.PolyMod, Fives;
    assert u == Replaced(Replaced(Replaced(v, u, i), u, j), u, l);
    if C.PolyMod(u) == C.PolyMod(v) { MissedIsNothing(v, u, i, j, l); }
  }

  lemma ExpandedAreFives(hrp: T.Text)
    ensures Fives(T.ExpandHRP(hrp))
  {
    forall c: Byte ensures T.HighBits(c) < 32 && T.LowBits(c) < 32 {}
  }

  lemma SeparatorStays(t: T.Text, t': T.Text, i: nat, j: nat, l: nat)
    requires 0 <= T.LastSeparator(t) < i <= j <= l < |t| && DifferOnlyAt(t, t', i, j, l)
    requires T.SymbolValue(t'[i]) != T.NO_SYMBOL && T.SymbolValue(t'[j]) != T.NO_SYMBOL
    requires T.SymbolValue(t'[l]) != T.NO_SYMBOL
    ensures T.LastSeparator(t') == T.LastSeparator(t)
  {
    hide T.Symbol, T.SymbolValue;
    T.SeparatorIsLast(t);
    T.ValueHasSymbol(t'[i]);
    T.ValueHasSymbol(t'[j]);
    T.ValueHasSymbol(t'[l]);
    T.SeparatorAt(t', T.LastSeparator(t));
  }

  lemma DataErrorsShow(head: Bytes, d: T.Text, d': T.Text, i: nat, j: nat, l: nat)
    requires Fives(head) && T.AllSymbols(d) && T.AllSymbols(d') && T.Values(d) != T.Values(d')
    requires i <= j <= l < |d| < 1023 && DifferOnlyAt(d, d', i, j, l)
    ensures C.PolyMod(head + T.Values(d')) != C.PolyMod(head + T.Values(d))
  {
    hide T.SymbolValue, C.PolyMod;
    T.SymbolsAreFives(d);
    T.SymbolsAreFives(d');
    var v, u, n := head + T.Values(d), head + T.Values(d'), |head|;
    assert v[n..] == T.Values(d) && u[n..] == T.Values(d');
    ThreeErrorsShow(v, u, n + i, n + j, n + l);
  }

  // Replacing up to three data symbols of an accepted string, not all of them by symbols of the same values, is always
  // noticed: an accepted string is no longer than the window.
  lemma ThreeSymbolErrorsShow(t: T.Text, t': T.Text, i: nat, j: nat, l: nat)
    requires T.Decode(t).Some? && T.LastSeparator(t) < i <= j <= l < |t| && DifferOnlyAt(t, t', i, j, l)
    requires T.SymbolValue(t'[i]) != T.NO_SYMBOL && T.SymbolValue(t'[j]) != T.NO_SYMBOL
    requires T.SymbolValue(t'[l]) != T.NO_SYMBOL
    requires T.Values(t') != T.Values(t)
    ensures T.Decode(t') == None
  {
    hide T.Symbol, T.SymbolValue, C.PolyMod, T.HasUpper, T.HasLower, T.AllPrintable, T.LowerAll, T.ExpandHRP, T.Values,
         T.AllSymbols, T.LastSeparator;
    var pos := T.LastSeparator(t);
    SeparatorStays(t, t', i, j, l);
    var head, d, d' := T.ExpandHRP(T.LowerAll(t[..pos])), t[pos + 1..], t'[pos + 1..];
    assert t'[..pos] == t[..pos];
    if T.AllSymbols(d') {
      ExpandedAreFives(T.LowerAll(t[..pos]));
      ValuesDiffer(t, t', pos + 1);
      DataErrorsShow(head, d, d', i - pos - 1, j - pos - 1, l - pos - 1);
    }
  }

  lemma ValuesDiffer(t: T.Text, t': T.Text, n: nat)
    requires n <= |t| == |t'| && t[..n] == t'[..n] && T.Values(t) != T.Values(t')
    ensures T.Values(t[n..]) != T.Values(t'[n..])
  {
    hide T.SymbolValue;
    assert T.Values(t) == T.Values(t[..n]) + T.Values(t[n..]);
    assert T.Values(t') == T.Values(t'[..n]) + T.Values(t'[n..]);
  }

  /* ----- The human-readable part ----- */

  // High bits, a zero and low bits, each at its place.
  lemma ExpandAt(hrp: T.Text, i: nat)
    requires i < |hrp|
    ensures var e := T.ExpandHRP(hrp);
            |e| == 2 * |hrp| + 1 && e[i] == hrp[i] >> 5 && e[|hrp|] == 0 && e[|hrp| + 1 + i] == hrp[i] & 31
  {
  }

  lemma HalvesDiffer(c: Byte, d: Byte)
    requires c >> 5 == d >> 5 && c & 31 == d & 31
    ensures c == d
  {
  }

  // Two human-readable parts that differ expand differently.
  lemma ExpandIsInjective(a: T.Text, b: T.Text)
    requires T.ExpandHRP(a) == T.ExpandHRP(b)
    ensures a == b
  {
    hide T.ExpandHRP;
    assert |a| == |b| by { ExpandLength(a); ExpandLength(b); }
    forall i | 0 <= i < |a| ensures a[i] == b[i] {
      ExpandAt(a, i);
      ExpandAt(b, i);
      HalvesDiffer(a[i], b[i]);
    }
  }

  lemma ExpandLength(hrp: T.Text)
    ensures |T.ExpandHRP(hrp)| == 2 * |hrp| + 1
  {
  }

  // One changed character changes its two halves.
  lemma ExpandChange(hrp: T.Text, i: nat, c: Byte, rest: Bytes)
    requires i < |hrp|
    ensures DifferOnlyAt(T.ExpandHRP(hrp) + rest, T.ExpandHRP(hrp[i := c]) + rest, i, |hrp| + 1 + i, |hrp| + 1 + i)
  {
    hide T.ExpandHRP;
    var hrp', n := hrp[i := c], |hrp|;
    var v, u := T.ExpandHRP(hrp) + rest, T.ExpandHRP(hrp') + rest;
    ExpandLength(hrp);
    ExpandLength(hrp');
    forall k | 0 <= k < |v| && u[k] != v[k] ensures k == i || k == n + 1 + i {
      if k < n { ExpandAt(hrp, k); ExpandAt(hrp', k); }
      if k == n { ExpandAt(hrp, i); ExpandAt(hrp', i); }
      if n < k < 2 * n + 1 { ExpandAt(hrp, k - n - 1); ExpandAt(hrp', k - n - 1); }
    }
  }

  // Replacing one character of the human-readable part by one that differs in more than its case is always noticed.
  lemma HrpErrorShows(t: T.Text, i: nat, c: Byte)
    requires T.Decode(t).Some? && i < T.LastSeparator(t) && T.LowerCase(c) != T.LowerCase(t[i])
    ensures T.Decode(t[i := c]) == None
  {
    hide T.Symbol, T.SymbolValue, C.PolyMod, T.HasUpper, T.HasLower, T.AllPrintable, T.ExpandHRP, T.Values,
         T.AllSymbols, T.LastSeparator, T.LowerCase;
    var pos, t' := T.LastSeparator(t), t[i := c];
    T.SeparatorIsLast(t);
    T.SeparatorAt(t', pos);
    var hrp, d := T.LowerAll(t[..pos]), t[pos + 1..];
    assert t'[pos + 1..] == d && T.LowerAll(t'[..pos]) == hrp[i := T.LowerCase(c)];
    var values, hrp' := T.Values(d), hrp[i := T.LowerCase(c)];
    var v, u := T.ExpandHRP(hrp) + values, T.ExpandHRP(hrp') + values;
    ExpandChange(hrp, i, T.LowerCase(c), values);
    ExpandLength(hrp);
    ExpandLength(hrp');
    assert u != v by {
      assert v[..2 * pos + 1] == T.ExpandHRP(hrp) && u[..2 * pos + 1] == T.ExpandHRP(hrp');
      assert hrp'[i] != hrp[i];
      if u == v { ExpandIsInjective(hrp, hrp'); }
    }
    ExpandedAreFives(hrp);
    ExpandedAreFives(hrp');
    T.SymbolsAreFives(d);
    ThreeErrorsShow(v, u, i, pos + 1 + i, pos + 1 + i);
  }
}
