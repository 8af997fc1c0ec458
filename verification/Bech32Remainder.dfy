/**
 The Bech32 checksum as a remainder: values of five bits are the coefficients of a polynomial
 over the field of 32 elements, and the packed state is what division by the generator
 x^6 + 29 x^5 + 22 x^4 + 20 x^3 + 21 x^2 + 29 x + 18 leaves of it.
 */
module Bech32Remainder {
  import opened Bech32Checksum
  import C = Bech32Checksum

  // Addition in the field, and twice a, where two to the fifth power is nine.
  function Plus(a: Byte, b: Byte): Byte { a ^ b }

  function Doubled(a: Byte): Byte {
    if a & 16 != 0 then ((a << 1) & 31) ^ 9 else a << 1
  }

  function When(b: bool, g: Byte): Byte { if b then g else 0 }

  // a times g in the field, from the highest bit of a down.
  function Product(a: Byte, g: Byte): Byte {
    var p1 := When(a & 16 != 0, g);
    var p2 := Plus(Doubled(p1), When(a & 8 != 0, g));
    var p3 := Plus(Doubled(p2), When(a & 4 != 0, g));
    var p4 := Plus(Doubled(p3), When(a & 2 != 0, g));
    Plus(Doubled(p4), When(a & 1 != 0, g))
  }

  // A polynomial of six coefficients times x, plus v, modulo
  // x^6 + 29 x^5 + 22 x^4 + 20 x^3 + 21 x^2 + 29 x + 18.
  function TimesX(p: Bytes, v: Byte): (r: Bytes)
    requires |p| == 6
    ensures |r| == 6
  {
    [Plus(p[1], Product(p[0], 29)), Plus(p[2], Product(p[0], 22)), Plus(p[3], Product(p[0], 20)),
     Plus(p[4], Product(p[0], 21)), Plus(p[5], Product(p[0], 29)), Plus(v, Product(p[0], 18))]
  }

  // The polynomial with coefficients p and then v, modulo the generator.
  function Remainder(p: Bytes, v: Bytes): (r: Bytes)
    requires |p| == 6
    ensures |r| == 6
  {
    if v == [] then p else TimesX(Remainder(p, v[..|v| - 1]), v[|v| - 1])
  }

  lemma Group0Xor(a: bv32, b: bv32)
    ensures Group(Xor(a, b), 0) == Plus(Group(a, 0), Group(b, 0))
  {
  }

  lemma Group1Xor(a: bv32, b: bv32)
    ensures Group(Xor(a, b), 1) == Plus(Group(a, 1), Group(b, 1))
  {
  }

  lemma Group2Xor(a: bv32, b: bv32)
    ensures Group(Xor(a, b), 2) == Plus(Group(a, 2), Group(b, 2))
  {
  }

  lemma Group3Xor(a: bv32, b: bv32)
    ensures Group(Xor(a, b), 3) == Plus(Group(a, 3), Group(b, 3))
  {
  }

  lemma Group4Xor(a: bv32, b: bv32)
    ensures Group(Xor(a, b), 4) == Plus(Group(a, 4), Group(b, 4))
  {
  }

  lemma Group5Xor(a: bv32, b: bv32)
    ensures Group(Xor(a, b), 5) == Plus(Group(a, 5), Group(b, 5))
  {
  }

  lemma GroupXor(a: bv32, b: bv32, i: nat)
    requires i < 6
    ensures Group(Xor(a, b), i) == Plus(Group(a, i), Group(b, i))
  {
    hide Xor, Group, Plus;
    match i
    case 0 => Group0Xor(a, b);
    case 1 => Group1Xor(a, b);
    case 2 => Group2Xor(a, b);
    case 3 => Group3Xor(a, b);
    case 4 => Group4Xor(a, b);
    case _ => Group5Xor(a, b);
  }

  // The five constants are the leading coefficient's bits times the generator.
  lemma ReduceIsProduct(c0: bv32)
    requires c0 < 32
    ensures Group(Reduce(c0), 0) == Product(c0 as bv8, 29) && Group(Reduce(c0), 1) == Product(c0 as bv8, 22)
    ensures Group(Reduce(c0), 2) == Product(c0 as bv8, 20) && Group(Reduce(c0), 3) == Product(c0 as bv8, 21)
    ensures Group(Reduce(c0), 4) == Product(c0 as bv8, 29) && Group(Reduce(c0), 5) == Product(c0 as bv8, 18)
  {
    hide Group, Reduce, Product;
    ReduceHigh(c0);
    ReduceLow(c0);
  }

  lemma ReduceHigh(c0: bv32)
    requires c0 < 32
    ensures Group(Reduce(c0), 0) == Product(c0 as bv8, 29) && Group(Reduce(c0), 1) == Product(c0 as bv8, 22)
    ensures Group(Reduce(c0), 2) == Product(c0 as bv8, 20)
  {
  }

  lemma ReduceLow(c0: bv32)
    requires c0 < 32
    ensures Group(Reduce(c0), 3) == Product(c0 as bv8, 21) && Group(Reduce(c0), 4) == Product(c0 as bv8, 29)
    ensures Group(Reduce(c0), 5) == Product(c0 as bv8, 18)
  {
  }

  lemma LowGroups(c: bv32)
    requires c < STATES
    ensures Group(Low(c), 0) == Group(c, 1) && Group(Low(c), 1) == Group(c, 2) && Group(Low(c), 2) == Group(c, 3)
    ensures Group(Low(c), 3) == Group(c, 4) && Group(Low(c), 4) == Group(c, 5) && Group(Low(c), 5) == 0
  {
  }

  lemma HighGroup(c: bv32)
    requires c < STATES
    ensures High(c) < 32 && High(c) as bv8 == Group(c, 0)
  {
  }

  lemma ValueGroups(v: Byte)
    requires v < 32
    ensures Group(v as bv32, 0) == 0 && Group(v as bv32, 1) == 0 && Group(v as bv32, 2) == 0
    ensures Group(v as bv32, 3) == 0 && Group(v as bv32, 4) == 0 && Group(v as bv32, 5) == v
  {
  }

  lemma PlusRules(a: Byte, b: Byte)
    ensures Plus(Plus(a, b), 0) == Plus(a, b) && Plus(Plus(0, a), b) == Plus(b, a)
  {
  }

  lemma StepGroup(c: bv32, v: Byte, i: nat)
    requires i < 6
    ensures Group(PolyStep(c, v), i) == Plus(Plus(Group(Low(c), i), Group(Reduce(High(c)), i)), Group(v as bv32, i))
  {
    hide Xor, Low, High, Reduce, Group, Plus;
    GroupXor(Low(c), Reduce(High(c)), i);
    GroupXor(Shift(c), v as bv32, i);
  }

  // One step is multiplication by x modulo the generator.
  lemma StepIsTimesX(c: bv32, v: Byte)
    requires c < STATES && v < 32
    ensures Groups(PolyStep(c, v)) == TimesX(Groups(c), v)
  {
    hide PolyStep, Low, High, Reduce, Group, Plus, Product;
    StepGroup(c, v, 0);
    StepGroup(c, v, 1);
    StepGroup(c, v, 2);
    StepGroup(c, v, 3);
    StepGroup(c, v, 4);
    StepGroup(c, v, 5);
    LowGroups(c);
    HighGroup(c);
    ValueGroups(v);
    var lead := Group(c, 0);
    ReduceIsProduct(High(c));
    PlusRules(Group(c, 1), Product(lead, 29));
    PlusRules(Group(c, 2), Product(lead, 22));
    PlusRules(Group(c, 3), Product(lead, 20));
    PlusRules(Group(c, 4), Product(lead, 21));
    PlusRules(Group(c, 5), Product(lead, 29));
    PlusRules(Product(lead, 18), v);
  }

  // So the state after any values is the remainder of the polynomial they spell.
  lemma {:induction false} FoldIsRemainder(c: bv32, v: Bytes)
    requires c < STATES && Fives(v)
    ensures Groups(Fold(c, v)) == Remainder(Groups(c), v)
  {
    hide PolyStep, Groups, TimesX;
    if v != [] {
      var n := |v| - 1;
      FoldIsRemainder(c, v[..n]);
      FoldStays(c, v[..n]);
      StepIsTimesX(Fold(c, v[..n]), v[n]);
    }
  }

  /* ----- The remainder is what division by the generator leaves ----- */

  function Sum(a: Bytes, b: Bytes): (r: Bytes)
    requires |a| == |b|
    ensures |r| == |a|
  {
    seq(|a|, i requires 0 <= i < |a| => Plus(a[i], b[i]))
  }

  // n coefficients that are zero.
  function ZeroTerms(n: nat): (r: Bytes)
    ensures |r| == n && forall i | 0 <= i < n :: r[i] == 0
  {
    if n == 0 then [] else [0] + ZeroTerms(n - 1)
  }

  const GENERATOR: Bytes := [1, 29, 22, 20, 21, 29, 18]

  // A polynomial times one element of the field.
  function Scaled(a: Byte, g: Bytes): (r: Bytes)
    ensures |r| == |g|
  {
    seq(|g|, i requires 0 <= i < |g| => Product(a, g[i]))
  }

  // m times x, plus the generator times a.
  function NextMultiple(m: Bytes, a: Byte): (r: Bytes)
    requires |m| >= 6
    ensures |r| == |m| + 1
  {
    Sum(m + [0], ZeroTerms(|m| - 6) + Scaled(a, GENERATOR))
  }

  // The generator times the polynomial with coefficients q, the highest first.
  function TimesGenerator(q: Bytes): (r: Bytes)
    ensures |r| == |q| + 6
  {
    if q == [] then ZEROS else NextMultiple(TimesGenerator(q[..|q| - 1]), q[|q| - 1])
  }

  lemma OneTimes(a: Byte)
    requires a < 32
    ensures Product(a, 1) == a
  {
  }

  lemma PlusCancels(a: Byte, b: Byte, c: Byte)
    ensures Plus(Plus(a, b), Plus(c, b)) == Plus(a, c) && Plus(Plus(a, b), 0) == Plus(a, b) &&
            Plus(Plus(0, b), Plus(c, b)) == c && Plus(a, 0) == a
  {
  }

  // The quotient: the leading coefficients, as they are shifted out.
  function Quotient(p: Bytes, v: Bytes): (q: Bytes)
    requires |p| == 6
    ensures |q| == |v|
  {
    if v == [] then []
    else Quotient(p, v[..|v| - 1]) + [Remainder(p, v[..|v| - 1])[0]]
  }

  lemma PlusStays(a: Byte, b: Byte)
    requires a < 32 && b < 32
    ensures Plus(a, b) < 32
  {
  }

  lemma ProductStays(a: Byte, g: Byte)
    requires g < 32
    ensures Product(a, g) < 32
  {
  }

  lemma TimesXStays(p: Bytes, v: Byte)
    requires |p| == 6 && Fives(p) && v < 32
    ensures Fives(TimesX(p, v))
  {
    hide Plus, Product;
    ProductStays(p[0], 29);
    ProductStays(p[0], 22);
    ProductStays(p[0], 20);
    ProductStays(p[0], 21);
    ProductStays(p[0], 18);
    PlusStays(p[1], Product(p[0], 29));
    PlusStays(p[2], Product(p[0], 22));
    PlusStays(p[3], Product(p[0], 20));
    PlusStays(p[4], Product(p[0], 21));
    PlusStays(p[5], Product(p[0], 29));
    PlusStays(v, Product(p[0], 18));
  }

  lemma {:induction false} RemainderStays(p: Bytes, v: Bytes)
    requires |p| == 6 && Fives(p) && Fives(v)
    ensures Fives(Remainder(p, v))
  {
    hide TimesX;
    if v != [] {
      RemainderStays(p, v[..|v| - 1]);
      TimesXStays(Remainder(p, v[..|v| - 1]), v[|v| - 1]);
    }
  }

  // What one step shifts out and leaves behind, at place i of the last seven.
  lemma StepAt(r: Bytes, v: Byte, m: Byte, i: nat)
    requires |r| == 6 && r[0] < 32 && i < 7 && (i == 6 ==> m == 0)
    ensures Plus(Plus(m, Scaled(r[0], GENERATOR)[i]), (([0] + TimesX(r, v))[i])) == if i < 6 then Plus(m, r[i]) else v
  {
    hide Plus, Product;
    if i == 0 {
      OneTimes(r[0]);
      PlusCancels(m, r[0], 0);
    } else {
      PlusCancels(m, Product(r[0], GENERATOR[i]), if i < 6 then r[i] else v);
    }
  }

  lemma NothingDivides(p: Bytes)
    requires |p| == 6
    ensures p == Total(TimesGenerator([]), p)
  {
    hide Plus, Total;
    forall k | 0 <= k < 6 ensures Total(ZEROS, p)[k] == p[k] {
      TotalAt(ZEROS, p, k);
      ZeroPlus(p[k]);
    }
  }

  lemma OneMoreQuotient(p: Bytes, u: Bytes, x: Byte)
    requires |p| == 6
    ensures TimesGenerator(Quotient(p, u + [x])) == NextMultiple(TimesGenerator(Quotient(p, u)), Remainder(p, u)[0])
    ensures Remainder(p, u + [x]) == TimesX(Remainder(p, u), x)
  {
    hide TimesX, NextMultiple;
    var q := Quotient(p, u + [x]);
    assert (u + [x])[..|u|] == u;
    assert q[..|u|] == Quotient(p, u) && q[|u|] == Remainder(p, u)[0];
  }

  // The polynomial is the quotient times the generator plus the remainder.
  lemma {:induction false} DividesWithRemainder(p: Bytes, v: Bytes)
    requires |p| == 6 && Fives(p) && Fives(v)
    ensures p + v == Total(TimesGenerator(Quotient(p, v)), Remainder(p, v))
  {
    hide Total, TimesX, NextMultiple, TimesGenerator, Quotient;
    if v == [] {
      NothingDivides(p);
      assert Quotient(p, v) == [];
    } else {
      hide Remainder;
      var u, x := v[..|v| - 1], v[|v| - 1];
      assert v == u + [x];
      DividesWithRemainder(p, u);
      RemainderStays(p, u);
      OneMoreDivides(p + u, TimesGenerator(Quotient(p, u)), Remainder(p, u), x);
      OneMoreQuotient(p, u, x);
      assert p + v == p + u + [x];
    }
  }

  lemma ZeroPlus(a: Byte)
    ensures Plus(0, a) == a && Plus(a, 0) == a
  {
  }

  lemma NextAt(m: Bytes, a: Byte, k: nat)
    requires |m| >= 6 && k <= |m|
    ensures var c := if k < |m| then m[k] else 0;
            NextMultiple(m, a)[k] == if k < |m| - 6 then c else Plus(c, Scaled(a, GENERATOR)[k - (|m| - 6)])
  {
    hide Plus, Scaled;
    ZeroPlus((m + [0])[k]);
  }

  lemma ShiftedAt(a: Bytes, b: Bytes, n: nat, k: nat)
    requires |a| == n + |b| && k < |a|
    ensures Sum(a, ZeroTerms(n) + b)[k] == if k < n then a[k] else Plus(a[k], b[k - n])
  {
    hide Plus;
    ZeroPlus(a[k]);
  }

  // One coefficient more: m is the multiple so far, r what is left, x the next value.
  function Total(m: Bytes, r: Bytes): (t: Bytes)
    requires |r| == 6 && |m| >= 6
    ensures |t| == |m|
  {
    Sum(m, ZeroTerms(|m| - 6) + r)
  }

  lemma TotalAt(m: Bytes, r: Bytes, k: nat)
    requires |r| == 6 && k < |m| && |m| >= 6
    ensures Total(m, r)[k] == if k < |m| - 6 then m[k] else Plus(m[k], r[k - (|m| - 6)])
  {
    hide Plus, Sum, ZeroTerms;
    ShiftedAt(m, r, |m| - 6, k);
  }

  lemma SameBefore(m: Bytes, r: Bytes, m': Bytes, r': Bytes, k: nat)
    requires |r| == |r'| == 6 && |m| >= 6 && |m'| == |m| + 1 && k < |m| - 6 && m'[k] == m[k]
    ensures Total(m', r')[k] == Total(m, r)[k]
  {
    hide Plus, Total;
    TotalAt(m, r, k);
    TotalAt(m', r', k);
  }

  predicate SameAt(a: Bytes, b: Bytes, k: nat) {
    k < |a| && k < |b| && a[k] == b[k]
  }

  lemma NextWithin(m: Bytes, r: Bytes, x: Byte, k: nat)
    requires |r| == 6 && r[0] < 32 && |m| >= 6 && |m| - 6 <= k < |m|
    ensures SameAt(Total(NextMultiple(m, r[0]), TimesX(r, x)), Total(m, r), k)
  {
    hide Plus, Total, Scaled, TimesX, NextMultiple;
    NextAt(m, r[0], k);
    TotalAt(m, r, k);
    TotalAt(NextMultiple(m, r[0]), TimesX(r, x), k);
    StepAt(r, x, m[k], k - (|m| - 6));
    ZeroPlus(NextMultiple(m, r[0])[k]);
  }

  lemma NextLast(m: Bytes, r: Bytes, x: Byte)
    requires |r| == 6 && r[0] < 32 && |m| >= 6
    ensures Total(NextMultiple(m, r[0]), TimesX(r, x))[|m|] == x
  {
    hide Plus, Total, Scaled, TimesX, NextMultiple;
    NextAt(m, r[0], |m|);
    TotalAt(NextMultiple(m, r[0]), TimesX(r, x), |m|);
    StepAt(r, x, 0, 6);
  }

  lemma OneMoreDivides(f: Bytes, m: Bytes, r: Bytes, x: Byte)
    requires |r| == 6 && r[0] < 32 && |m| >= 6 && f == Total(m, r)
    ensures f + [x] == Total(NextMultiple(m, r[0]), TimesX(r, x))
  {
    hide Total, TimesX, NextMultiple;
    var g := Total(NextMultiple(m, r[0]), TimesX(r, x));
    forall k | 0 <= k < |m| ensures f[k] == g[k] {
      if k < |m| - 6 {
        NextAt(m, r[0], k);
        SameBefore(m, r, NextMultiple(m, r[0]), TimesX(r, x), k);
      } else {
        NextWithin(m, r, x, k);
      }
    }
    NextLast(m, r, x);
  }

  lemma QuotientStays(p: Bytes, v: Bytes)
    requires |p| == 6 && Fives(p) && Fives(v)
    ensures Fives(Quotient(p, v))
  {
    hide Remainder;
    if v != [] {
      QuotientStays(p, v[..|v| - 1]);
      RemainderStays(p, v[..|v| - 1]);
    }
  }

  lemma PlusInjective(m: Byte, a: Byte, b: Byte)
    requires Plus(m, a) == Plus(m, b)
    ensures a == b
  {
  }

  // The generator is monic, so the leading coefficients of a multiple give the factor.
  lemma {:induction false} OneQuotient(q1: Bytes, q2: Bytes)
    requires |q1| == |q2| && Fives(q1) && Fives(q2)
    requires forall k | 0 <= k < |q1| :: TimesGenerator(q1)[k] == TimesGenerator(q2)[k]
    ensures q1 == q2
  {
    hide Plus, Product, NextMultiple;
    if q1 != [] {
      var n := |q1| - 1;
      var m1, m2 := TimesGenerator(q1[..n]), TimesGenerator(q2[..n]);
      forall k | 0 <= k < n ensures m1[k] == m2[k] {
        NextAt(m1, q1[n], k);
        NextAt(m2, q2[n], k);
        assert TimesGenerator(q1)[k] == TimesGenerator(q2)[k];
      }
      OneQuotient(q1[..n], q2[..n]);
      NextAt(m1, q1[n], n);
      NextAt(m2, q2[n], n);
      OneTimes(q1[n]);
      OneTimes(q2[n]);
      assert TimesGenerator(q1)[n] == TimesGenerator(q2)[n];
      PlusInjective(m1[n], q1[n], q2[n]);
      assert q1 == q1[..n] + [q1[n]] && q2 == q2[..n] + [q2[n]];
    }
  }

  // f is q times the generator plus r.
  predicate IsDivision(f: Bytes, q: Bytes, r: Bytes) {
    |r| == 6 && |f| == |q| + 6 && Fives(q) && f == Total(TimesGenerator(q), r)
  }

  lemma DivisionIsUnique(f: Bytes, q1: Bytes, r1: Bytes, q2: Bytes, r2: Bytes)
    requires IsDivision(f, q1, r1) && IsDivision(f, q2, r2)
    ensures q1 == q2 && r1 == r2
  {
    hide Plus, Total, TimesGenerator;
    var n := |q1|;
    var m1, m2 := TimesGenerator(q1), TimesGenerator(q2);
    forall k | 0 <= k < n ensures m1[k] == m2[k] {
      TotalAt(m1, r1, k);
      TotalAt(m2, r2, k);
    }
    OneQuotient(q1, q2);
    forall k | 0 <= k < 6 ensures r1[k] == r2[k] {
      TotalAt(m1, r1, n + k);
      TotalAt(m2, r2, n + k);
      PlusInjective(m1[n + k], r1[k], r2[k]);
    }
  }

  lemma QuotientDivides(p: Bytes, v: Bytes)
    requires |p| == 6 && Fives(p) && Fives(v)
    ensures IsDivision(p + v, Quotient(p, v), Remainder(p, v))
  {
    DividesWithRemainder(p, v);
    QuotientStays(p, v);
  }

  const ONE: Bytes := [0, 0, 0, 0, 0, 1]

  // The six values of the state are the remainder, the only one, of the polynomial with a one in front.
  lemma PolyModIff(v: Bytes, r: Bytes)
    requires Fives(v)
    ensures r == Groups(C.PolyMod(v)) <==> exists q :: IsDivision(ONE + v, q, r)
  {
    hide Fold, Remainder, IsDivision, Quotient;
    assert Groups(1) == ONE;
    FoldIsRemainder(1, v);
    QuotientDivides(ONE, v);
    forall q | IsDivision(ONE + v, q, r) ensures r == Groups(C.PolyMod(v)) {
      DivisionIsUnique(ONE + v, q, r, Quotient(ONE, v), Groups(C.PolyMod(v)));
    }
  }
}
