/**
 The field of 1024 elements, as polynomials over two elements modulo x^10 + x^8 + x^5 + x + 1.
 */
module Gf1024 {
  import opened Powers

  // The bits are the coefficients, the lowest first.
  datatype Elem = Elem(bits: bv10)

  const ZERO := Elem(0)
  const ONE := Elem(1)
  const ALPHA := Elem(2)

  function Sum(a: bv10, b: bv10): bv10 { a ^ b }

  function Add(a: Elem, b: Elem): Elem { Elem(Sum(a.bits, b.bits)) }

  function Doubled(a: bv10): bv10 {
    (a << 1) ^ (a >> 9) ^ ((a >> 9) << 1) ^ ((a >> 9) << 5) ^ ((a >> 9) << 8)
  }

  // Times x, where x^10 = x^8 + x^5 + x + 1.
  function Twice(a: Elem): Elem { Elem(Doubled(a.bits)) }

  function TwiceN(a: Elem, n: nat): Elem {
    if n == 0 then a else Twice(TwiceN(a, n - 1))
  }

  function Mask(i: nat): bv10 {
    match i
    case 0 => 0x1
    case 1 => 0x2
    case 2 => 0x4
    case 3 => 0x8
    case 4 => 0x10
    case 5 => 0x20
    case 6 => 0x40
    case 7 => 0x80
    case 8 => 0x100
    case _ => 0x200
  }

  predicate Has(a: bv10, mask: bv10) { a & mask != 0 }

  predicate Bit(a: Elem, i: nat) { Has(a.bits, Mask(i)) }

  function Pick(b: bool, a: Elem): Elem { if b then a else ZERO }

  // The first n bits of a, times b.
  function SumTo(a: Elem, b: Elem, n: nat): Elem {
    if n == 0 then ZERO else Add(SumTo(a, b, n - 1), Pick(Bit(a, n - 1), TwiceN(b, n - 1)))
  }

  function Times(a: Elem, b: Elem): Elem { SumTo(a, b, 10) }

  /* ----- Facts about the bits ----- */

  lemma AddCommutes(a: Elem, b: Elem)
    ensures Add(a, b) == Add(b, a)
  {
  }

  lemma AddAssociates(a: Elem, b: Elem, c: Elem)
    ensures Add(Add(a, b), c) == Add(a, Add(b, c))
  {
  }

  lemma AddZero(a: Elem)
    ensures Add(a, ZERO) == a && Add(ZERO, a) == a && Add(a, a) == ZERO
  {
  }

  lemma TwiceAdds(a: Elem, b: Elem)
    ensures Twice(Add(a, b)) == Add(Twice(a), Twice(b))
  {
  }

  lemma TwiceZero()
    ensures Twice(ZERO) == ZERO
  {
  }

  lemma HasAdds(a: bv10, b: bv10)
    ensures Has(a ^ b, 0x1) == (Has(a, 0x1) != Has(b, 0x1)) && Has(a ^ b, 0x2) == (Has(a, 0x2) != Has(b, 0x2))
    ensures Has(a ^ b, 0x4) == (Has(a, 0x4) != Has(b, 0x4)) && Has(a ^ b, 0x8) == (Has(a, 0x8) != Has(b, 0x8))
    ensures Has(a ^ b, 0x10) == (Has(a, 0x10) != Has(b, 0x10)) && Has(a ^ b, 0x20) == (Has(a, 0x20) != Has(b, 0x20))
    ensures Has(a ^ b, 0x40) == (Has(a, 0x40) != Has(b, 0x40)) && Has(a ^ b, 0x80) == (Has(a, 0x80) != Has(b, 0x80))
    ensures Has(a ^ b, 0x100) == (Has(a, 0x100) != Has(b, 0x100))
    ensures Has(a ^ b, 0x200) == (Has(a, 0x200) != Has(b, 0x200))
  {
  }

  lemma BitAdds(a: Elem, b: Elem, i: nat)
    ensures Bit(Add(a, b), i) == (Bit(a, i) != Bit(b, i))
  {
    hide Has;
    HasAdds(a.bits, b.bits);
  }

  function Basis(j: nat): Elem { Elem(Mask(j)) }

  lemma BasisBits(i: nat, j: nat)
    requires i < 10 && j < 10
    ensures Bit(Basis(j), i) <==> i == j
  {
  }

  lemma BasisTwice(j: nat)
    requires j < 10
    ensures Twice(Basis(j)) == if j < 9 then Basis(j + 1) else Add(Add(Add(Basis(8), Basis(5)), Basis(1)), Basis(0))
  {
  }

  lemma Slices(a: bv10)
    ensures 0 ^ (a & 0x1) ^ (a & 0x2) ^ (a & 0x4) ^ (a & 0x8) ^ (a & 0x10) ^ (a & 0x20) ^ (a & 0x40) ^ (a & 0x80)
            ^ (a & 0x100) ^ (a & 0x200) == a
  {
  }

  lemma PickBasis(a: Elem, i: nat)
    requires i < 10
    ensures Pick(Bit(a, i), Basis(i)) == Elem(a.bits & Mask(i))
  {
  }

  /* ----- Sums of multiples ----- */

  lemma SumOfNone(a: Elem, b: Elem)
    ensures SumTo(a, b, 0) == ZERO
  {
  }

  lemma TwiceNone(a: Elem)
    ensures TwiceN(a, 0) == a
  {
  }

  lemma AddSwap(a: Elem, b: Elem, c: Elem, d: Elem)
    ensures Add(Add(a, b), Add(c, d)) == Add(Add(a, c), Add(b, d))
  {
    hide Add;
    AddAssociates(a, b, Add(c, d));
    AddAssociates(b, c, d);
    AddCommutes(b, c);
    AddAssociates(c, b, d);
    AddAssociates(a, c, Add(b, d));
  }

  lemma {:induction false} TwiceNAdds(a: Elem, b: Elem, n: nat)
    ensures TwiceN(Add(a, b), n) == Add(TwiceN(a, n), TwiceN(b, n))
  {
    hide Add, Twice;
    if n > 0 {
      TwiceNAdds(a, b, n - 1);
      TwiceAdds(TwiceN(a, n - 1), TwiceN(b, n - 1));
    }
  }

  lemma {:induction false} TwiceNTwice(a: Elem, n: nat)
    ensures TwiceN(Twice(a), n) == Twice(TwiceN(a, n))
  {
    hide Twice;
    if n > 0 { TwiceNTwice(a, n - 1); }
  }

  lemma PickAdds(p: bool, a: Elem, b: Elem)
    ensures Pick(p, Add(a, b)) == Add(Pick(p, a), Pick(p, b))
  {
    hide Add;
    AddZero(ZERO);
  }

  lemma PickDiffers(p: bool, q: bool, a: Elem)
    ensures Pick(p != q, a) == Add(Pick(p, a), Pick(q, a))
  {
    hide Add;
    AddZero(a);
    AddZero(ZERO);
  }

  lemma PickTwice(p: bool, a: Elem)
    ensures Pick(p, Twice(a)) == Twice(Pick(p, a))
  {
    hide Twice;
    TwiceZero();
  }

  lemma {:induction false} SumRight(a: Elem, b: Elem, c: Elem, n: nat)
    ensures SumTo(a, Add(b, c), n) == Add(SumTo(a, b, n), SumTo(a, c, n))
  {
    hide Add, Pick, Bit, TwiceN;
    if n == 0 {
      AddZero(ZERO);
    } else {
      SumRight(a, b, c, n - 1);
      TwiceNAdds(b, c, n - 1);
      PickAdds(Bit(a, n - 1), TwiceN(b, n - 1), TwiceN(c, n - 1));
      AddSwap(SumTo(a, b, n - 1), SumTo(a, c, n - 1),
              Pick(Bit(a, n - 1), TwiceN(b, n - 1)), Pick(Bit(a, n - 1), TwiceN(c, n - 1)));
    }
  }

  lemma {:induction false} SumLeft(a: Elem, b: Elem, c: Elem, n: nat)
    ensures SumTo(Add(a, b), c, n) == Add(SumTo(a, c, n), SumTo(b, c, n))
  {
    hide Add, Pick, Bit, TwiceN;
    if n == 0 {
      AddZero(ZERO);
    } else {
      SumLeft(a, b, c, n - 1);
      BitAdds(a, b, n - 1);
      PickDiffers(Bit(a, n - 1), Bit(b, n - 1), TwiceN(c, n - 1));
      AddSwap(SumTo(a, c, n - 1), SumTo(b, c, n - 1),
              Pick(Bit(a, n - 1), TwiceN(c, n - 1)), Pick(Bit(b, n - 1), TwiceN(c, n - 1)));
    }
  }

  lemma {:induction false} SumTwice(a: Elem, b: Elem, n: nat)
    ensures SumTo(a, Twice(b), n) == Twice(SumTo(a, b, n))
  {
    hide Add, Pick, Bit, TwiceN, Twice;
    if n == 0 {
      TwiceZero();
    } else {
      SumTwice(a, b, n - 1);
      TwiceNTwice(b, n - 1);
      PickTwice(Bit(a, n - 1), TwiceN(b, n - 1));
      TwiceAdds(SumTo(a, b, n - 1), Pick(Bit(a, n - 1), TwiceN(b, n - 1)));
    }
  }

  lemma {:induction false} SumOfBasis(j: nat, b: Elem, n: nat)
    requires j < 10 && n <= 10
    ensures SumTo(Basis(j), b, n) == if j < n then TwiceN(b, j) else ZERO
  {
    hide Add, Bit, TwiceN, Basis;
    if n > 0 {
      SumOfBasis(j, b, n - 1);
      BasisBits(n - 1, j);
      AddZero(ZERO);
      AddZero(TwiceN(b, j));
    }
  }

  /* ----- A commutative ring ----- */

  lemma TimesAdds(a: Elem, b: Elem, c: Elem)
    ensures Times(a, Add(b, c)) == Add(Times(a, b), Times(a, c))
    ensures Times(Add(a, b), c) == Add(Times(a, c), Times(b, c))
  {
    hide Add, SumTo;
    SumRight(a, b, c, 10);
    SumLeft(a, b, c, 10);
  }

  lemma BasisTimes(j: nat, b: Elem)
    requires j < 10
    ensures Times(Basis(j), b) == TwiceN(b, j)
  {
    hide SumTo, Basis, TwiceN;
    SumOfBasis(j, b, 10);
  }

  lemma {:induction false} TwiceNOfOne(n: nat)
    requires n < 10
    ensures TwiceN(ONE, n) == Basis(n)
  {
    hide Twice;
    if n > 0 {
      TwiceNOfOne(n - 1);
      BasisTwice(n - 1);
    }
  }

  lemma {:induction false} SumOfOne(a: Elem, n: nat)
    requires 0 < n <= 10
    ensures SumTo(a, ONE, n) == Add(SumTo(a, ONE, n - 1), Elem(a.bits & Mask(n - 1)))
  {
    hide Add, Bit, Mask, TwiceN;
    TwiceNOfOne(n - 1);
    PickBasis(a, n - 1);
  }

  lemma TimesOne(a: Elem)
    ensures Times(a, ONE) == a && Times(ONE, a) == a
  {
    hide SumTo, TwiceN, Bit;
    assert SumTo(a, ONE, 0) == ZERO by { SumOfNone(a, ONE); }
    SumOfOne(a, 1);
    SumOfOne(a, 2);
    SumOfOne(a, 3);
    SumOfOne(a, 4);
    SumOfOne(a, 5);
    SumOfOne(a, 6);
    SumOfOne(a, 7);
    SumOfOne(a, 8);
    SumOfOne(a, 9);
    SumOfOne(a, 10);
    Slices(a.bits);
    BasisTimes(0, a);
    assert TwiceN(a, 0) == a by { TwiceNone(a); }
  }

  lemma TimesZero(a: Elem)
    ensures Times(a, ZERO) == ZERO && Times(ZERO, a) == ZERO
  {
    hide Add, Times;
    AddZero(ZERO);
    TimesAdds(a, ZERO, ZERO);
    TimesAdds(ZERO, ZERO, a);
    AddZero(Times(a, ZERO));
    AddZero(Times(ZERO, a));
  }

  // x^10 = x^8 + x^5 + x + 1, applied to b.
  predicate Reduces(b: Elem) {
    TwiceN(b, 10) == Add(Add(Add(TwiceN(b, 8), TwiceN(b, 5)), TwiceN(b, 1)), b)
  }

  lemma OneReduces()
    ensures Reduces(ONE) && Reduces(ZERO)
  {
    hide Add, Twice;
    TwiceNOfOne(9);
    TwiceNOfOne(8);
    TwiceNOfOne(5);
    TwiceNOfOne(1);
    BasisTwice(9);
    assert TwiceN(ONE, 10) == Twice(TwiceN(ONE, 9));
    TwiceNZero(10);
    TwiceNZero(8);
    TwiceNZero(5);
    TwiceNZero(1);
    AddZero(ZERO);
  }

  lemma {:induction false} TwiceNZero(n: nat)
    ensures TwiceN(ZERO, n) == ZERO
  {
    hide Twice;
    TwiceZero();
    if n > 0 { TwiceNZero(n - 1); }
  }

  lemma TwiceReduces(b: Elem)
    requires Reduces(b)
    ensures Reduces(Twice(b))
  {
    hide Add, Twice, TwiceN;
    TwiceNTwice(b, 10);
    TwiceNTwice(b, 8);
    TwiceNTwice(b, 5);
    TwiceNTwice(b, 1);
    TwiceAdds(Add(Add(TwiceN(b, 8), TwiceN(b, 5)), TwiceN(b, 1)), b);
    TwiceAdds(Add(TwiceN(b, 8), TwiceN(b, 5)), TwiceN(b, 1));
    TwiceAdds(TwiceN(b, 8), TwiceN(b, 5));
  }

  lemma SumReduces(a: Elem, b: Elem)
    requires Reduces(a) && Reduces(b)
    ensures Reduces(Add(a, b))
  {
    hide Add, TwiceN;
    TwiceNAdds(a, b, 10);
    TwiceNAdds(a, b, 8);
    TwiceNAdds(a, b, 5);
    TwiceNAdds(a, b, 1);
    AddSwap(TwiceN(a, 8), TwiceN(b, 8), TwiceN(a, 5), TwiceN(b, 5));
    AddSwap(Add(TwiceN(a, 8), TwiceN(a, 5)), Add(TwiceN(b, 8), TwiceN(b, 5)), TwiceN(a, 1), TwiceN(b, 1));
    var p, q := Add(Add(TwiceN(a, 8), TwiceN(a, 5)), TwiceN(a, 1)), Add(Add(TwiceN(b, 8), TwiceN(b, 5)), TwiceN(b, 1));
    AddSwap(p, q, a, b);
  }

  lemma {:induction false} PowerReduces(n: nat)
    ensures Reduces(TwiceN(ONE, n))
  {
    hide Reduces, Twice;
    OneReduces();
    if n > 0 {
      PowerReduces(n - 1);
      TwiceReduces(TwiceN(ONE, n - 1));
    }
  }

  lemma {:induction false} PartReduces(b: Elem, n: nat)
    ensures Reduces(SumTo(b, ONE, n))
  {
    hide Reduces, Add, Bit, TwiceN;
    OneReduces();
    if n > 0 {
      PartReduces(b, n - 1);
      PowerReduces(n - 1);
      SumReduces(SumTo(b, ONE, n - 1), Pick(Bit(b, n - 1), TwiceN(ONE, n - 1)));
    }
  }

  lemma TenTimes(b: Elem)
    ensures Reduces(b)
  {
    hide SumTo, Reduces;
    TimesOne(b);
    PartReduces(b, 10);
  }

  lemma BasisTwiceTimes(j: nat, b: Elem)
    requires j < 10
    ensures Times(Twice(Basis(j)), b) == Twice(Times(Basis(j), b))
  {
    hide Add, Times, Basis, Twice;
    BasisTwice(j);
    BasisTimes(j, b);
    if j < 9 {
      BasisTimes(j + 1, b);
    } else {
      TimesAdds(Add(Add(Basis(8), Basis(5)), Basis(1)), Basis(0), b);
      TimesAdds(Add(Basis(8), Basis(5)), Basis(1), b);
      TimesAdds(Basis(8), Basis(5), b);
      BasisTimes(8, b);
      BasisTimes(5, b);
      BasisTimes(1, b);
      BasisTimes(0, b);
      TenTimes(b);
    }
  }

  lemma PickTwiceTimes(p: bool, j: nat, b: Elem)
    requires j < 10
    ensures Times(Twice(Pick(p, Basis(j))), b) == Twice(Times(Pick(p, Basis(j)), b))
  {
    hide Times, Basis, Twice;
    if p {
      BasisTwiceTimes(j, b);
    } else {
      TwiceZero();
      TimesZero(b);
    }
  }

  lemma {:induction false} PartTwiceTimes(a: Elem, b: Elem, n: nat)
    requires n <= 10
    ensures Times(Twice(SumTo(a, ONE, n)), b) == Twice(Times(SumTo(a, ONE, n), b))
  {
    hide Add, Times, Basis, Twice, Bit, Pick, TwiceN;
    if n == 0 {
      TwiceZero();
      TimesZero(b);
    } else {
      PartTwiceTimes(a, b, n - 1);
      TwiceNOfOne(n - 1);
      var s, p := SumTo(a, ONE, n - 1), Pick(Bit(a, n - 1), Basis(n - 1));
      PickTwiceTimes(Bit(a, n - 1), n - 1, b);
      TwiceAdds(s, p);
      TimesAdds(Twice(s), Twice(p), b);
      TimesAdds(s, p, b);
      TwiceAdds(Times(s, b), Times(p, b));
    }
  }

  lemma TwiceTimes(a: Elem, b: Elem)
    ensures Times(Twice(a), b) == Twice(Times(a, b)) && Times(a, Twice(b)) == Twice(Times(a, b))
  {
    hide Twice, SumTo;
    TimesOne(a);
    PartTwiceTimes(a, b, 10);
    SumTwice(a, b, 10);
  }

  lemma {:induction false} TwiceNTimes(a: Elem, b: Elem, n: nat)
    ensures Times(TwiceN(a, n), b) == TwiceN(Times(a, b), n) && Times(a, TwiceN(b, n)) == TwiceN(Times(a, b), n)
  {
    hide Twice, Times;
    if n > 0 {
      TwiceNTimes(a, b, n - 1);
      TwiceTimes(TwiceN(a, n - 1), b);
      TwiceTimes(a, TwiceN(b, n - 1));
    }
  }

  lemma {:induction false} SumTimes(a: Elem, b: Elem, c: Elem, n: nat)
    ensures Times(SumTo(a, b, n), c) == SumTo(a, Times(b, c), n)
  {
    hide Add, Times, TwiceN, Bit;
    if n == 0 {
      TimesZero(c);
    } else {
      SumTimes(a, b, c, n - 1);
      TimesAdds(SumTo(a, b, n - 1), Pick(Bit(a, n - 1), TwiceN(b, n - 1)), c);
      TwiceNTimes(b, c, n - 1);
      TimesZero(c);
    }
  }

  lemma TimesAssociates(a: Elem, b: Elem, c: Elem)
    ensures Times(Times(a, b), c) == Times(a, Times(b, c))
  {
    hide SumTo;
    SumTimes(a, b, c, 10);
  }

  lemma {:induction false} SumCommutes(a: Elem, b: Elem, n: nat)
    ensures Times(a, SumTo(b, ONE, n)) == SumTo(b, a, n)
  {
    hide Add, Times, TwiceN, Bit;
    if n == 0 {
      TimesZero(a);
    } else {
      SumCommutes(a, b, n - 1);
      TimesAdds(a, SumTo(b, ONE, n - 1), Pick(Bit(b, n - 1), TwiceN(ONE, n - 1)));
      TwiceNTimes(a, ONE, n - 1);
      TimesOne(a);
      TimesZero(a);
    }
  }

  lemma TimesCommutes(a: Elem, b: Elem)
    ensures Times(a, b) == Times(b, a)
  {
    hide SumTo;
    SumCommutes(a, b, 10);
    TimesOne(b);
  }

  /* ----- Powers ----- */

  function Power(a: Elem, n: nat): Elem {
    if n == 0 then ONE else Times(a, Power(a, n - 1))
  }

  lemma {:induction false} PowerAdds(a: Elem, m: nat, n: nat)
    ensures Power(a, m + n) == Times(Power(a, m), Power(a, n))
  {
    hide Times;
    if m == 0 {
      TimesOne(Power(a, n));
    } else {
      PowerAdds(a, m - 1, n);
      TimesAssociates(a, Power(a, m - 1), Power(a, n));
    }
  }

  lemma {:induction false} PowerTimes(a: Elem, m: nat, n: nat)
    ensures Power(a, m * n) == Power(Power(a, m), n)
  {
    hide Times;
    if n == 0 {
      assert m * n == 0;
    } else {
      PowerTimes(a, m, n - 1);
      assert m * n == m + m * (n - 1);
      PowerAdds(a, m, m * (n - 1));
    }
  }

  lemma {:induction false} PowerOfOne(n: nat)
    ensures Power(ONE, n) == ONE
  {
    hide Times;
    if n > 0 {
      PowerOfOne(n - 1);
      TimesOne(ONE);
    }
  }

  lemma PowerOfSelf(a: Elem)
    ensures Power(a, 1) == a
  {
    hide Times;
    assert Power(a, 1) == Times(a, Power(a, 0));
    TimesOne(a);
  }

  /* ----- Products of given elements ----- */

  // b if a has the bit.
  function Chosen(a: bv10, b: bv10, mask: bv10): bv10 { if Has(a, mask) then b else 0 }

  // The product, without a recursion.
  function Product(a: bv10, b: bv10): bv10 {
    var b1 := Doubled(b);
    var b2 := Doubled(b1);
    var b3 := Doubled(b2);
    var b4 := Doubled(b3);
    var b5 := Doubled(b4);
    var b6 := Doubled(b5);
    var b7 := Doubled(b6);
    var b8 := Doubled(b7);
    var b9 := Doubled(b8);
    var low := Sum(Sum(Sum(Chosen(a, b, 0x1), Chosen(a, b1, 0x2)), Chosen(a, b2, 0x4)), Chosen(a, b3, 0x8));
    var mid := Sum(Sum(Sum(low, Chosen(a, b4, 0x10)), Chosen(a, b5, 0x20)), Chosen(a, b6, 0x40));
    Sum(Sum(Sum(mid, Chosen(a, b7, 0x80)), Chosen(a, b8, 0x100)), Chosen(a, b9, 0x200))
  }

  lemma ChosenIs(a: Elem, b: Elem, i: nat)
    ensures Pick(Bit(a, i), b) == Elem(Chosen(a.bits, b.bits, Mask(i)))
  {
    hide Has;
  }

  lemma SumStep(a: Elem, b: Elem, n: nat)
    requires 0 < n <= 10
    ensures SumTo(a, b, n) == Add(SumTo(a, b, n - 1), Pick(Bit(a, n - 1), TwiceN(b, n - 1)))
    ensures TwiceN(b, n) == Twice(TwiceN(b, n - 1))
  {
    hide Bit, Twice, Add, Pick;
  }

  lemma Evaluates(a: bv10, b: bv10)
    ensures Times(Elem(a), Elem(b)) == Elem(Product(a, b))
  {
    hide Chosen, Doubled, SumTo, TwiceN, Sum, Bit, Pick;
    SumOfNone(Elem(a), Elem(b));
    TwiceNone(Elem(b));
    SumStep(Elem(a), Elem(b), 1);
    SumStep(Elem(a), Elem(b), 2);
    SumStep(Elem(a), Elem(b), 3);
    SumStep(Elem(a), Elem(b), 4);
    SumStep(Elem(a), Elem(b), 5);
    SumStep(Elem(a), Elem(b), 6);
    SumStep(Elem(a), Elem(b), 7);
    SumStep(Elem(a), Elem(b), 8);
    SumStep(Elem(a), Elem(b), 9);
    SumStep(Elem(a), Elem(b), 10);
    ChosenIs(Elem(a), TwiceN(Elem(b), 0), 0);
    ChosenIs(Elem(a), TwiceN(Elem(b), 1), 1);
    ChosenIs(Elem(a), TwiceN(Elem(b), 2), 2);
    ChosenIs(Elem(a), TwiceN(Elem(b), 3), 3);
    ChosenIs(Elem(a), TwiceN(Elem(b), 4), 4);
    ChosenIs(Elem(a), TwiceN(Elem(b), 5), 5);
    ChosenIs(Elem(a), TwiceN(Elem(b), 6), 6);
    ChosenIs(Elem(a), TwiceN(Elem(b), 7), 7);
    ChosenIs(Elem(a), TwiceN(Elem(b), 8), 8);
    ChosenIs(Elem(a), TwiceN(Elem(b), 9), 9);
    AddZero(Elem(Chosen(a, b, 0x1)));
  }

  // The powers that show the order of ALPHA, by repeated squaring.
  lemma Squares()
    ensures Power(ALPHA, 1) == Elem(2) && Power(ALPHA, 2) == Elem(4) && Power(ALPHA, 4) == Elem(16)
    ensures Power(ALPHA, 8) == Elem(256) && Power(ALPHA, 16) == Elem(281) && Power(ALPHA, 32) == Elem(88)
    ensures Power(ALPHA, 64) == Elem(239) && Power(ALPHA, 128) == Elem(838) && Power(ALPHA, 256) == Elem(485)
  {
    PowerOfSelf(ALPHA);
    hide Power, Times;
    PowerAdds(ALPHA, 1, 1);
    Evaluates(2, 2);
    PowerAdds(ALPHA, 2, 2);
    Evaluates(4, 4);
    PowerAdds(ALPHA, 4, 4);
    Evaluates(16, 16);
    PowerAdds(ALPHA, 8, 8);
    Evaluates(256, 256);
    PowerAdds(ALPHA, 16, 16);
    Evaluates(281, 281);
    PowerAdds(ALPHA, 32, 32);
    Evaluates(88, 88);
    PowerAdds(ALPHA, 64, 64);
    Evaluates(239, 239);
    PowerAdds(ALPHA, 128, 128);
    Evaluates(838, 838);
  }

  lemma Cofactors()
    ensures Power(ALPHA, 33) == Elem(176) && Power(ALPHA, 93) == Elem(874) && Power(ALPHA, 341) == Elem(54)
  {
    hide Power, Times;
    Squares();
    PowerAdds(ALPHA, 32, 1);
    Evaluates(88, 2);
    PowerAdds(ALPHA, 64, 16);
    Evaluates(239, 281);
    PowerAdds(ALPHA, 80, 8);
    Evaluates(408, 256);
    PowerAdds(ALPHA, 88, 4);
    Evaluates(237, 16);
    PowerAdds(ALPHA, 92, 1);
    Evaluates(437, 2);
    PowerAdds(ALPHA, 256, 64);
    Evaluates(485, 239);
    PowerAdds(ALPHA, 320, 16);
    Evaluates(634, 281);
    PowerAdds(ALPHA, 336, 4);
    Evaluates(706, 16);
    PowerAdds(ALPHA, 340, 1);
    Evaluates(27, 2);
  }

  lemma FullCycle()
    ensures Power(ALPHA, 1023) == ONE
  {
    hide Power, Times;
    Cofactors();
    PowerAdds(ALPHA, 341, 341);
    Evaluates(54, 54);
    PowerAdds(ALPHA, 682, 341);
    Evaluates(55, 54);
  }

  /* ----- Every element but zero has an inverse ----- */

  lemma SquareAdds(a: Elem, b: Elem)
    ensures Times(Add(a, b), Add(a, b)) == Add(Times(a, a), Times(b, b))
  {
    hide Times, Add;
    var aa, ab, bb := Times(a, a), Times(a, b), Times(b, b);
    TimesAdds(Add(a, b), a, b);
    TimesAdds(a, b, a);
    TimesAdds(a, b, b);
    TimesCommutes(a, b);
    AddAssociates(aa, ab, Add(ab, bb));
    AddAssociates(ab, ab, bb);
    AddZero(ab);
    AddZero(bb);
  }

  // a squared n times.
  function Squared(a: Elem, n: nat): Elem {
    if n == 0 then a else Times(Squared(a, n - 1), Squared(a, n - 1))
  }

  lemma {:induction false} SquaredAdds(a: Elem, b: Elem, n: nat)
    ensures Squared(Add(a, b), n) == Add(Squared(a, n), Squared(b, n))
  {
    hide Times, Add;
    if n > 0 {
      SquaredAdds(a, b, n - 1);
      SquareAdds(Squared(a, n - 1), Squared(b, n - 1));
    }
  }

  lemma {:induction false} SquaredIsPower(a: Elem, n: nat)
    ensures Squared(a, n) == Power(a, Pow(2, n))
  {
    hide Times, Power;
    if n == 0 {
      PowerOfSelf(a);
    } else {
      SquaredIsPower(a, n - 1);
      var half := Pow(2, n - 1);
      assert Pow(2, n) == half + half;
      hide Pow;
      PowerAdds(a, half, half);
    }
  }

  lemma TimesAlpha(a: Elem)
    ensures Times(ALPHA, a) == Twice(a)
  {
    hide Times, Twice;
    BasisTimes(1, a);
    assert TwiceN(a, 1) == Twice(TwiceN(a, 0));
  }

  lemma {:induction false} BasisIsPower(j: nat)
    requires j < 10
    ensures Basis(j) == Power(ALPHA, j)
  {
    hide Times, Twice;
    if j > 0 {
      BasisIsPower(j - 1);
      BasisTwice(j - 1);
      TimesAlpha(Basis(j - 1));
    }
  }

  lemma SquaredBasis(j: nat)
    requires j < 10
    ensures Squared(Basis(j), 10) == Basis(j)
  {
    hide Times, Basis, Squared, Power;
    SquaredIsPower(Basis(j), 10);
    BasisIsPower(j);
    PowerTimes(ALPHA, j, 1024);
    PowerAdds(ALPHA, 1023 * j, j);
    PowerTimes(ALPHA, 1023, j);
    FullCycle();
    PowerOfOne(j);
    TimesOne(Basis(j));
    assert Pow(2, 10) == 1024;
  }

  lemma {:induction false} SquaredZero(n: nat)
    ensures Squared(ZERO, n) == ZERO
  {
    hide Times;
    if n > 0 {
      SquaredZero(n - 1);
      TimesZero(ZERO);
    }
  }

  lemma {:induction false} SquaredPart(a: Elem, n: nat)
    requires n <= 10
    ensures Squared(SumTo(a, ONE, n), 10) == SumTo(a, ONE, n)
  {
    hide Times, Add, Basis, TwiceN, Bit, Squared;
    SquaredZero(10);
    if n > 0 {
      SquaredPart(a, n - 1);
      TwiceNOfOne(n - 1);
      SquaredBasis(n - 1);
      SquaredAdds(SumTo(a, ONE, n - 1), Pick(Bit(a, n - 1), Basis(n - 1)), 10);
    }
  }

  // The Frobenius map, ten times over, moves nothing.
  lemma PowerOfOrder(a: Elem)
    ensures Power(a, 1024) == a
  {
    hide SumTo, Power, Squared;
    TimesOne(a);
    SquaredPart(a, 10);
    SquaredIsPower(a, 10);
    assert Pow(2, 10) == 1024;
  }

  lemma Idempotent(e: bv10)
    requires Product(e, e) == e
    ensures e == 0 || e == 1
  {
  }

  lemma FullPower(a: Elem)
    requires a != ZERO
    ensures Power(a, 1023) == ONE
  {
    hide Times, Power, Product;
    var e := Power(a, 1023);
    PowerOfSelf(a);
    PowerOfOrder(a);
    PowerAdds(a, 1024, 1022);
    PowerAdds(a, 1, 1022);
    PowerAdds(a, 1, 1023);
    PowerAdds(a, 1023, 1023);
    Evaluates(e.bits, e.bits);
    Idempotent(e.bits);
    TimesZero(a);
  }

  lemma NoZeroDivisors(a: Elem, b: Elem)
    requires Times(a, b) == ZERO
    ensures a == ZERO || b == ZERO
  {
    hide Times, Power;
    if a != ZERO {
      FullPower(a);
      PowerAdds(a, 1022, 1);
      PowerOfSelf(a);
      TimesAssociates(Power(a, 1022), a, b);
      TimesZero(Power(a, 1022));
      TimesOne(b);
    }
  }

  /* ----- The order of ALPHA ----- */

  lemma Inverse3(r: nat) returns (i: nat)
    requires 0 < r < 3
    ensures i * r % 3 == 1
  {
    i := r;
  }

  lemma Inverse11(r: nat) returns (i: nat)
    requires 0 < r < 11
    ensures i * r % 11 == 1
  {
    match r
    case 1 => i := 1; case 2 => i := 6; case 3 => i := 4; case 4 => i := 3; case 5 => i := 9;
    case 6 => i := 2; case 7 => i := 8; case 8 => i := 7; case 9 => i := 5; case _ => i := 10;
  }

  lemma Inverse31(r: nat) returns (i: nat)
    requires 0 < r < 31
    ensures i * r % 31 == 1
  {
    match r
    case 1 => i := 1; case 2 => i := 16; case 3 => i := 21; case 4 => i := 8; case 5 => i := 25;
    case 6 => i := 26; case 7 => i := 9; case 8 => i := 4; case 9 => i := 7; case 10 => i := 28;
    case 11 => i := 17; case 12 => i := 13; case 13 => i := 12; case 14 => i := 20; case 15 => i := 29;
    case 16 => i := 2; case 17 => i := 11; case 18 => i := 19; case 19 => i := 18; case 20 => i := 14;
    case 21 => i := 3; case 22 => i := 24; case 23 => i := 27; case 24 => i := 22; case 25 => i := 5;
    case 26 => i := 6; case 27 => i := 23; case 28 => i := 10; case 29 => i := 15; case _ => i := 30;
  }

  lemma Regroup(p: nat, q: nat, r: nat, i: nat, c: nat)
    ensures (p * q + r) * (i * c) == (p * c) * (i * q) + (i * r) * c
  {
    assert (p * q) * (i * c) == (p * c) * (i * q);
    assert r * (i * c) == (i * r) * c;
  }

  lemma OneOver(p: nat, t: nat, c: nat)
    ensures (p * t + 1) * c == (p * c) * t + c
  {
  }

  lemma Exponent(k: nat, p: nat, c: nat, i: nat) returns (u: nat)
    requires p > 0 && p * c == 1023 && i * (k % p) % p == 1
    ensures k * (i * c) == c + 1023 * u
  {
    var q, r := k / p, k % p;
    var t := i * r / p;
    u := i * q + t;
    Regroup(p, q, r, i, c);
    OneOver(p, t, c);
    assert i * r == p * t + 1;
  }

  lemma Cofactor(k: nat, p: nat, c: nat, i: nat)
    requires Power(ALPHA, k) == ONE && p > 0 && p * c == 1023 && i * (k % p) % p == 1
    ensures Power(ALPHA, c) == ONE
  {
    hide Times, Power;
    var u := Exponent(k, p, c, i);
    PowerTimes(ALPHA, k, i * c);
    PowerOfOne(i * c);
    PowerAdds(ALPHA, c, 1023 * u);
    PowerTimes(ALPHA, 1023, u);
    FullCycle();
    PowerOfOne(u);
    TimesOne(Power(ALPHA, c));
  }

  lemma AlphaOrder(k: nat)
    requires 0 < k < 1023
    ensures Power(ALPHA, k) != ONE
  {
    hide Power;
    Cofactors();
    if Power(ALPHA, k) == ONE {
      if k % 3 != 0 {
        var i := Inverse3(k % 3);
        Cofactor(k, 3, 341, i);
      } else if k % 11 != 0 {
        var i := Inverse11(k % 11);
        Cofactor(k, 11, 93, i);
      } else if k % 31 != 0 {
        var i := Inverse31(k % 31);
        Cofactor(k, 31, 33, i);
      }
    }
  }

  lemma AlphaNotZero(n: nat)
    ensures Power(ALPHA, n) != ZERO
  {
    hide Times, Power;
    PowerTimes(ALPHA, 1023, n);
    FullCycle();
    PowerOfOne(n);
    PowerAdds(ALPHA, n, 1022 * n);
    TimesZero(Power(ALPHA, 1022 * n));
  }

  // Powers of ALPHA repeat only after 1023 steps.
  lemma AlphaDiffers(m: nat, n: nat)
    requires m < n < m + 1023
    ensures Power(ALPHA, m) != Power(ALPHA, n)
  {
    hide Times, Power, Add;
    var p, d := Power(ALPHA, m), Power(ALPHA, n - m);
    PowerAdds(ALPHA, m, n - m);
    AlphaOrder(n - m);
    AlphaNotZero(m);
    if p == Power(ALPHA, n) {
      TimesAdds(p, d, ONE);
      TimesOne(p);
      AddZero(p);
      NoZeroDivisors(p, Add(d, ONE));
      AddAssociates(d, ONE, ONE);
      AddZero(d);
      AddZero(ONE);
    }
  }
}
