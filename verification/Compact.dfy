/**
 The compact form of a 256-bit target: an exponent byte, a sign bit and a mantissa of 23
 bits. What the round trip keeps, when it is lossless, and when decoding overflows.
 */
module Compact {
  import opened Powers
  import opened Limbs
  import opened ArithUint

  const SIGN: nat := 0x80_0000

  /* ----- The forms as functions ----- */

  datatype Decoded = Decoded(value: nat, negative: bool, overflow: bool)

  function Exponent(c: nat): nat { c / 0x100_0000 }

  function Mantissa(c: nat): nat { c % SIGN }

  function Decode(c: nat): Decoded {
    var size, word := Exponent(c), Mantissa(c);
    var kept := if size <= 3 then word / P256(3 - size) else word;
    var value := if size <= 3 then kept else kept * P256(size - 3) % P2_256();
    Decoded(value, kept != 0 && c / SIGN % 2 == 1,
            kept != 0 && (size > 34 || (kept > 0xff && size > 33) || (kept > 0xffff && size > 32)))
  }

  function P256(n: nat): (r: nat)
    ensures r >= 1
  {
    PowPositive(256, n);
    Pow(256, n)
  }

  function P2_256(): (r: nat)
    ensures r >= 1
  {
    PowPositive(2, 256);
    Pow(2, 256)
  }

  // The number of bytes up to the highest one that is not zero.
  function ByteLength(x: nat): nat {
    if x == 0 then 0 else 1 + ByteLength(x / 256)
  }

  // Exponent and mantissa before and after making room for the sign bit.
  function RawMantissa(x: nat): nat {
    var size := ByteLength(x);
    if size <= 3 then x * P256(3 - size) else x / P256(size - 3)
  }

  function SizeOf(x: nat): nat {
    if RawMantissa(x) >= SIGN then ByteLength(x) + 1 else ByteLength(x)
  }

  function MantissaOf(x: nat): nat {
    if RawMantissa(x) >= SIGN then RawMantissa(x) / 256 else RawMantissa(x)
  }

  function Encode(x: nat, negative: bool): nat {
    SizeOf(x) * 0x100_0000 + MantissaOf(x) + if negative && MantissaOf(x) != 0 then SIGN else 0
  }

  /* ----- The byte length ----- */

  lemma {:induction false} ByteLengthBounds(x: nat)
    requires x > 0
    ensures ByteLength(x) >= 1 && P256(ByteLength(x) - 1) <= x < P256(ByteLength(x))
  {
    var n := ByteLength(x);
    if x < 256 {
      assert ByteLength(x / 256) == 0;
      assert P256(1) == 256 * P256(0) && P256(0) == 1;
    } else {
      ByteLengthBounds(x / 256);
      assert P256(n) == 256 * P256(n - 1) && P256(n - 1) == 256 * P256(n - 2);
    }
  }

  lemma {:induction false} ByteLengthIs(x: nat, n: nat)
    requires n >= 1 && P256(n - 1) <= x < P256(n)
    ensures ByteLength(x) == n
  {
    hide ByteLength, P256;
    P256Mono(n, ByteLength(x));
    ByteLengthBounds(x);
  }

  lemma P256Mono(m: nat, n: nat)
    ensures n < m ==> P256(n) <= P256(m - 1)
    ensures m < n ==> P256(m) <= P256(n - 1)
  {
    hide Pow;
    if m < n { PowMono(256, m, n - 1); } else if n < m { PowMono(256, n, m - 1); }
  }

  lemma P256Bits(n: nat)
    ensures P256(n) == Pow(2, 8 * n)
  {
    assert Pow(2, 8) == 256;
    PowPow(2, 8, n);
  }

  // The size the source computes from the bit length.
  lemma BytesOfBits(x: nat, bits: nat)
    requires IsBitLength(x, bits)
    ensures (bits + 7) / 8 == ByteLength(x)
  {
    if bits > 0 {
      var n := (bits + 7) / 8;
      P256Bits(n - 1);
      P256Bits(n);
      PowMono(2, 8 * (n - 1), bits - 1);
      PowMono(2, bits, 8 * n);
      ByteLengthIs(x, n);
    }
  }

  /* ----- Encoding ----- */

  lemma ThreeBytes()
    ensures P256(0) == 1 && P256(1) == 0x100 && P256(2) == 0x1_0000 && P256(3) == 0x100_0000
  {
    assert Pow(256, 2) == 256 * Pow(256, 1);
  }

  lemma P256Add(m: nat, n: nat)
    ensures P256(m + n) == P256(m) * P256(n)
  {
    PowAdd(256, m, n);
  }

  // The raw mantissa has exactly three bytes.
  lemma RawBounds(x: nat)
    requires x > 0
    ensures 0x1_0000 <= RawMantissa(x) < 0x100_0000
  {
    hide Pow, P256, ByteLength;
    ByteLengthBounds(x);
    ThreeBytes();
    var s := ByteLength(x);
    if s <= 3 {
      P256Add(s - 1, 3 - s);
      P256Add(s, 3 - s);
      MulMono(P256(s - 1), x, P256(3 - s));
      MulStrict(x, P256(s), P256(3 - s));
    } else {
      var d := P256(s - 3);
      P256Add(2, s - 3);
      P256Add(3, s - 3);
      DivMod(x, d);
      DivLess(x, d, 0x100_0000);
      DivAtLeast(x, d, 0x1_0000);
    }
  }

  lemma DivAtLeast(x: nat, d: nat, m: nat)
    requires d > 0 && m * d <= x
    ensures m <= x / d
  {
    DivMod(x, d);
    if x / d < m { MulMono(x / d + 1, m, d); }
  }

  lemma ZeroEncodes()
    ensures ByteLength(0) == 0 && RawMantissa(0) == 0 && SizeOf(0) == 0 && MantissaOf(0) == 0
  {
  }

  // The mantissa leaves the sign bit free, and is zero only for zero.
  lemma MantissaBounds(x: nat)
    ensures MantissaOf(x) < SIGN && (x > 0 ==> MantissaOf(x) >= 0x8000)
  {
    if x == 0 { ZeroEncodes(); } else { RawBounds(x); }
  }

  // What the pair stands for: x itself when the exponent is small, x without its low bytes otherwise.
  lemma MantissaIs(x: nat)
    ensures var s := SizeOf(x); MantissaOf(x) == if s <= 3 then x * P256(3 - s) else x / P256(s - 3)
  {
    hide Pow, P256, ByteLength;
    ThreeBytes();
    var s := ByteLength(x);
    if RawMantissa(x) >= SIGN {
      if s <= 2 {
        P256Add(1, 2 - s);
        assert 3 - (s + 1) == 2 - s;
        MulAssoc(x, 256, P256(2 - s));
        assert x * P256(3 - s) == 256 * (x * P256(2 - s)) by { MulAssoc(x, P256(2 - s), 256); }
      } else if s == 3 {
        assert RawMantissa(x) == x;
      } else {
        P256Add(s - 3, 1);
        assert s + 1 - 3 == s - 3 + 1;
        DivDiv(x, P256(s - 3), 256);
      }
    }
  }

  /* ----- The round trip ----- */

  // x without the bytes below those that are kept.
  function Kept(x: nat): nat {
    if SizeOf(x) <= 3 then x else Times(x / P256(SizeOf(x) - 3), P256(SizeOf(x) - 3))
  }

  lemma KeptIsClose(x: nat)
    ensures Kept(x) <= x
    ensures if SizeOf(x) <= 3 then Kept(x) == x else x - Kept(x) == x % P256(SizeOf(x) - 3) < P256(SizeOf(x) - 3)
  {
    hide SizeOf, P256;
    if SizeOf(x) > 3 { DivMod(x, P256(SizeOf(x) - 3)); }
  }

  lemma SizeFits(x: nat)
    requires x < P2_256()
    ensures SizeOf(x) <= 33 && ByteLength(x) <= 32
  {
    if x > 0 {
      ByteLengthBounds(x);
      P256Bits(32);
      if ByteLength(x) > 32 { PowMono(256, 32, ByteLength(x) - 1); }
    }
  }

  lemma Packed(s: nat, m: nat, sign: bool)
    requires m < SIGN
    ensures var c := s * 0x100_0000 + m + if sign then SIGN else 0;
            c / 0x100_0000 == s && c % SIGN == m && (c / SIGN % 2 == 1 <==> sign)
  {
    var top := if sign then SIGN else 0;
    DivModUnique(s * 0x100_0000 + m + top, 0x100_0000, s, m + top);
    var h := 2 * s + if sign then 1 else 0;
    assert s * 0x100_0000 + m + top == h * SIGN + m;
    DivModUnique(h * SIGN + m, SIGN, h, m);
  }

  lemma EncodedParts(x: nat, negative: bool)
    ensures Exponent(Encode(x, negative)) == SizeOf(x) && Mantissa(Encode(x, negative)) == MantissaOf(x)
    ensures Encode(x, negative) / SIGN % 2 == 1 <==> negative && MantissaOf(x) != 0
  {
    hide SizeOf, MantissaOf;
    MantissaBounds(x);
    Packed(SizeOf(x), MantissaOf(x), negative && MantissaOf(x) != 0);
  }

  // Decoding gives back x without its low bytes, never overflows, and keeps the sign of anything but zero.
  lemma RoundTrip(x: nat, negative: bool)
    requires x < P2_256()
    ensures Decode(Encode(x, negative)) == Decoded(Kept(x), negative && x != 0, false)
  {
    hide Encode, SizeOf, MantissaOf, P256, P2_256;
    EncodedParts(x, negative);
    MantissaBounds(x);
    MantissaIs(x);
    SizeFits(x);
    KeptIsClose(x);
    if x == 0 { ZeroEncodes(); }
    var s, m := SizeOf(x), MantissaOf(x);
    if s <= 3 {
      DivModUnique(x * P256(3 - s), P256(3 - s), x, 0);
    } else {
      assert m * P256(s - 3) == Kept(x);
      DivModUnique(Kept(x), P2_256(), 0, Kept(x));
      SmallMantissa(x);
    }
  }

  // The tests for overflow fail for what was encoded.
  lemma SmallMantissa(x: nat)
    requires x < P2_256() && SizeOf(x) > 3
    ensures SizeOf(x) == 33 ==> MantissaOf(x) <= 0xffff
  {
    if SizeOf(x) == 33 { SizeFits(x); RawBounds(x); }
  }

  // Encoding again changes nothing.
  lemma EncodeIsIdempotent(x: nat, negative: bool)
    requires x < P2_256()
    ensures Encode(Decode(Encode(x, negative)).value, negative) == Encode(x, negative)
  {
    RoundTrip(x, negative);
    hide Decode, Encode;
    SameParts(x);
    SameEncoding(x, Kept(x), negative);
  }

  lemma SameEncoding(x: nat, y: nat, negative: bool)
    requires SizeOf(x) == SizeOf(y) && MantissaOf(x) == MantissaOf(y)
    ensures Encode(x, negative) == Encode(y, negative)
  {
  }

  lemma SameParts(x: nat)
    ensures SizeOf(Kept(x)) == SizeOf(x) && MantissaOf(Kept(x)) == MantissaOf(x)
  {
    hide P256;
    if SizeOf(x) > 3 {
      if x == 0 { ZeroEncodes(); } else { SameRaw(x); }
    }
  }

  // Without the dropped bytes the length is the same, and the raw mantissa keeps all but the byte that does not count.
  lemma SameRaw(x: nat)
    requires x > 0 && SizeOf(x) > 3
    ensures ByteLength(Kept(x)) == ByteLength(x)
    ensures RawMantissa(Kept(x)) == if RawMantissa(x) >= SIGN then MantissaOf(x) * 256 else RawMantissa(x)
  {
    hide Pow, P256, ByteLength;
    ByteLengthBounds(x);
    RawBounds(x);
    MantissaIs(x);
    ThreeBytes();
    var s, m := ByteLength(x), MantissaOf(x);
    var d := P256(SizeOf(x) - 3);
    KeptIsClose(x);
    assert Kept(x) == m * d;
    if RawMantissa(x) >= SIGN {
      P256Add(2, s - 2);
      P256Add(1, s - 2);
      KeptLength(x, m * d, m, d, s, 0x100);
      P256Add(s - 3, 1);
      assert m * d == (m * 256) * P256(s - 3) by { MulAssoc(m, 256, P256(s - 3)); }
      if s > 3 { DivModUnique(m * d, P256(s - 3), m * 256, 0); }
    } else {
      P256Add(2, s - 3);
      KeptLength(x, m * d, m, d, s, 0x1_0000);
      DivModUnique(m * d, P256(s - 3), m, 0);
    }
  }

  lemma KeptLength(x: nat, y: nat, m: nat, d: nat, s: nat, least: nat)
    requires s >= 1 && P256(s - 1) <= x < P256(s) && y == m * d <= x && m >= least && P256(s - 1) == least * d
    ensures ByteLength(y) == s
  {
    MulMono(least, m, d);
    ByteLengthIs(y, s);
  }

  /* ----- The other way round ----- */

  // The forms that encoding gives for non-negative values.
  predicate Canonical(c: nat) {
    && c / SIGN % 2 == 0 && !Decode(c).overflow
    && (c == 0 || (Mantissa(c) >= 0x8000 && (Exponent(c) <= 3 ==> Mantissa(c) % P256(3 - Exponent(c)) == 0)))
  }

  // Exponent and mantissa locate v: 2^24 v lies between two multiples of 256^s.
  ghost predicate Locates(s: nat, m: nat, v: nat) {
    m * P256(s) <= v * 0x100_0000 < (m + 1) * P256(s)
  }

  lemma LocatedOnce(s: nat, m: nat, s': nat, m': nat, v: nat)
    requires Locates(s, m, v) && Locates(s', m', v)
    requires 0x8000 <= m < SIGN && 0x8000 <= m' < SIGN
    ensures s == s' && m == m'
  {
    if s < s' {
      Apart(s, m, s', m');
    } else if s' < s {
      Apart(s', m', s, m);
    } else if m < m' {
      MulMono(m + 1, m', P256(s));
    } else if m' < m {
      MulMono(m' + 1, m, P256(s));
    }
  }

  lemma Apart(s: nat, m: nat, s': nat, m': nat)
    requires s < s' && m < SIGN && m' >= 0x8000
    ensures (m + 1) * P256(s) <= m' * P256(s')
  {
    PowMono(256, s + 1, s');
    assert P256(s + 1) == 256 * P256(s);
    MulMono(m + 1, SIGN, P256(s));
    MulMono(0x8000, m', P256(s'));
  }

  lemma EncodingLocates(v: nat)
    ensures Locates(SizeOf(v), MantissaOf(v), v)
  {
    hide SizeOf, MantissaOf, P256;
    MantissaIs(v);
    ThreeBytes();
    var s, m := SizeOf(v), MantissaOf(v);
    if s <= 3 {
      P256Add(3 - s, s);
      ExactLocates(v, P256(3 - s), P256(s));
    } else {
      P256Add(3, s - 3);
      DivMod(v, P256(s - 3));
      FloorLocates(v, P256(s - 3));
    }
  }

  lemma ExactLocates(v: nat, p: nat, q: nat)
    requires p * q == 0x100_0000 && q >= 1
    ensures (v * p) * q == v * 0x100_0000 && v * p * q < (v * p + 1) * q
  {
    MulAssoc(v, p, q);
    assert (v * p + 1) * q == v * p * q + q;
  }

  lemma FloorLocates(v: nat, d: nat)
    requires d >= 1
    ensures v / d * (0x100_0000 * d) <= v * 0x100_0000 < (v / d + 1) * (0x100_0000 * d)
  {
    DivMod(v, d);
    assert (v / d + 1) * d == v / d * d + d;
    assert v / d * (0x100_0000 * d) == 0x100_0000 * (v / d * d) by {
      MulAssoc(v / d, 0x100_0000, d);
      MulAssoc(0x100_0000, v / d, d);
    }
    assert (v / d + 1) * (0x100_0000 * d) == 0x100_0000 * ((v / d + 1) * d) by {
      MulAssoc(v / d + 1, 0x100_0000, d);
      MulAssoc(0x100_0000, v / d + 1, d);
    }
  }

  // Decoding overflows exactly when the number it stands for does not fit 256 bits.
  lemma OverflowIff(c: nat)
    ensures Decode(c).overflow <==> Exponent(c) > 3 && Mantissa(c) * P256(Exponent(c) - 3) >= P2_256()
  {
    hide P256, P2_256, Exponent, Mantissa;
    MantissaSmall(c);
    if Exponent(c) > 3 { TooLargeIff(Exponent(c), Mantissa(c)); }
  }

  // The number a compact form stands for: its mantissa times a power of 256, three bytes below the exponent.
  function Meant(c: nat): nat { c % 0x80_0000 * P256(c / 0x100_0000) / 0x100_0000 }

  lemma CancelFactor(m: nat, a: nat, d: nat)
    requires a >= 1 && d >= 1
    ensures m * a / (a * d) == m / d
  {
    DivMod(m, d);
    var q, r := m / d, m % d;
    MulAssoc(q, d, a);
    MulMono(r + 1, d, a);
    DivModUnique(m * a, a * d, q, r * a);
  }

  lemma MeantIs(size: nat, m: nat)
    ensures m * P256(size) / 0x100_0000 == if size <= 3 then m / P256(3 - size) else m * P256(size - 3)
  {
    hide P256;
    ThreeBytes();
    if size <= 3 {
      P256Add(size, 3 - size);
      CancelFactor(m, P256(size), P256(3 - size));
    } else {
      P256Add(size - 3, 3);
      MulAssoc(m, P256(size - 3), 0x100_0000);
      DivModUnique(m * P256(size), 0x100_0000, m * P256(size - 3), 0);
    }
  }

  // Decoding gives that number modulo 2^256, its sign unless it is zero, and whether it is too large.
  lemma DecodeMeans(c: nat)
    ensures Decode(c).value == Meant(c) % P2_256()
    ensures Decode(c).negative <==> Meant(c) != 0 && c / 0x80_0000 % 2 == 1
    ensures Decode(c).overflow <==> Meant(c) >= P2_256()
  {
    hide P256, P2_256;
    OverflowIff(c);
    MeantIs(Exponent(c), Mantissa(c));
    MantissaSmall(c);
    HighBytes();
    var size, m := Exponent(c), Mantissa(c);
    if size <= 3 {
      ShareFits(m, P256(3 - size));
      SmallFits();
      DivModUnique(m / P256(3 - size), P2_256(), 0, m / P256(3 - size));
    } else if m != 0 {
      MulMono(1, m, P256(size - 3));
    }
  }

  lemma SmallFits()
    ensures SIGN < P2_256()
  {
    hide P256;
    HighBytes();
  }

  lemma TooLargeIff(size: nat, m: nat)
    requires size > 3 && m < SIGN
    ensures m * P256(size - 3) >= P2_256()
            <==> m != 0 && (size > 34 || (m > 0xff && size > 33) || (m > 0xffff && size > 32))
  {
    hide P256, P2_256;
    HighBytes();
    if size > 34 {
      P256Grows(32, size - 3);
      if m > 0 { MulMono(1, m, P256(size - 3)); }
    } else if size == 34 {
      AtLeastIff(m, 0x100, P256(31));
    } else if size == 33 {
      AtLeastIff(m, 0x1_0000, P256(30));
    } else {
      P256Grows(size - 3, 29);
      AtLeastIff(m, 0x100_0000, P256(29));
      MulMono(P256(size - 3), P256(29), m);
    }
  }

  lemma AtLeastIff(m: nat, k: nat, p: nat)
    requires p >= 1
    ensures m * p >= k * p <==> m >= k
  {
    if m >= k { MulMono(k, m, p); } else { MulStrict(m, k, p); }
  }

  lemma MantissaSmall(c: nat)
    ensures Mantissa(c) < SIGN
  {
  }

  lemma P256Grows(m: nat, n: nat)
    requires m <= n
    ensures P256(m) <= P256(n)
  {
    PowMono(256, m, n);
  }

  lemma HighBytes()
    ensures P256(32) == P2_256() && 0x100 * P256(31) == P256(32) && 0x1_0000 * P256(30) == P256(32) &&
            0x100_0000 * P256(29) == P256(32)
  {
    P256Bits(32);
    ThreeBytes();
    P256Add(1, 31);
    P256Add(2, 30);
    P256Add(3, 29);
  }

  // Encoding after decoding gives the same form exactly for the canonical ones.
  lemma CanonicalIff(c: nat)
    ensures Encode(Decode(c).value, false) == c <==> Canonical(c)
  {
    hide Encode, Decode, Canonical;
    if Canonical(c) { CanonicalReturns(c); }
    if Encode(Decode(c).value, false) == c {
      ValueFits(c);
      EncodedIsCanonical(Decode(c).value, c);
    }
  }

  lemma ValueFits(c: nat)
    ensures Decode(c).value < P2_256()
  {
    hide P256;
    HighBytes();
    ThreeBytes();
    P256Grows(3, 32);
    var size, word := Exponent(c), Mantissa(c);
    if size <= 3 { ShareFits(word, P256(3 - size)); }
  }

  lemma EncodedIsCanonical(v: nat, c: nat)
    requires v < P2_256() && c == Encode(v, false)
    ensures Canonical(c)
  {
    hide Encode, Decode, SizeOf, MantissaOf, P256, Exponent, Mantissa;
    RoundTrip(v, false);
    EncodedParts(v, false);
    MantissaBounds(v);
    MantissaIs(v);
    var s := SizeOf(v);
    assert c / SIGN % 2 == 0;
    if v == 0 {
      EncodedZero();
    } else if s <= 3 {
      DivModUnique(v * P256(3 - s), P256(3 - s), v, 0);
    }
  }

  lemma EncodedZero()
    ensures Encode(0, false) == 0
  {
    ZeroEncodes();
  }

  lemma CanonicalReturns(c: nat)
    requires Canonical(c)
    ensures Encode(Decode(c).value, false) == c
  {
    var v, s, m := Decode(c).value, Exponent(c), Mantissa(c);
    if c == 0 {
      DecodedZero();
      EncodedZero();
    } else {
      CanonicalLocates(c);
      EncodingLocates(v);
      MantissaBounds(v);
      NotZero(v, s, m);
      LocatedOnce(s, m, SizeOf(v), MantissaOf(v), v);
      Unpacked(c);
    }
  }

  lemma DecodedZero()
    ensures Decode(0).value == 0
  {
    hide P256;
    DivModUnique(0, P256(3), 0, 0);
  }

  lemma NotZero(v: nat, s: nat, m: nat)
    requires Locates(s, m, v) && m > 0
    ensures v > 0
  {
    MulMono(1, m, P256(s));
  }

  lemma Unpacked(c: nat)
    requires c / SIGN % 2 == 0
    ensures c == Exponent(c) * 0x100_0000 + Mantissa(c)
  {
    var h := c / SIGN;
    DivMod(c, SIGN);
    DivDiv(c, SIGN, 2);
  }

  lemma CanonicalLocates(c: nat)
    requires Canonical(c) && c != 0
    ensures Locates(Exponent(c), Mantissa(c), Decode(c).value)
  {
    hide P256, Exponent, Mantissa, P2_256;
    var v, s, m := Decode(c).value, Exponent(c), Mantissa(c);
    ThreeBytes();
    if s <= 3 {
      DivMod(m, P256(3 - s));
      P256Add(3 - s, s);
      ExactLocates(v, P256(3 - s), P256(s));
    } else {
      OverflowIff(c);
      DivModUnique(m * P256(s - 3), P2_256(), 0, m * P256(s - 3));
      P256Add(3, s - 3);
      FloorLocates(v, P256(s - 3));
      DivModUnique(v, P256(s - 3), m, 0);
    }
  }

  /* ----- The code ----- */

  const UINT32: nat := 0x1_0000_0000

  lemma RangeIs256()
    ensures B(8) == P2_256()
  {
    BitsOfB(8);
  }

  method SetCompact(u: BaseUint, nCompact: nat) returns (negative: bool, overflow: bool)
    requires u.pn.Length == 8 && nCompact < UINT32
    modifies u.pn
    ensures Decoded(u.Value(), negative, overflow) == Decode(nCompact)
  {
    hide Pow, P256, P2_256, B;
    var nSize := nCompact / 0x100_0000;
    var nWord := nCompact % SIGN;
    RangeIs256();
    if nSize <= 3 {
      P256Bits(3 - nSize);
      ShareFits(nWord, P256(3 - nSize));
      nWord := nWord / Pow(2, 8 * (3 - nSize));
      u.SetLow64(nWord);
    } else {
      P256Bits(nSize - 3);
      u.SetLow64(nWord);
      u.ShiftLeft(8 * (nSize - 3));
    }
    negative := nWord != 0 && nCompact / SIGN % 2 == 1;
    overflow := nWord != 0 && (nSize > 34 || (nWord > 0xff && nSize > 33) || (nWord > 0xffff && nSize > 32));
  }

  // The mantissa before room is made for the sign bit.
  method RawCompact(u: BaseUint, nSize: nat) returns (n: nat)
    requires u.pn.Length == 8 && nSize == ByteLength(u.Value())
    ensures n == RawMantissa(u.Value()) < 0x100_0000
  {
    hide Pow, P256, P2_256, B, ByteLength, RawMantissa, Val, Times, Truncated;
    ghost var x := u.Value();
    RawFits(x);
    RawMantissaIs(x);
    FitsIsKept(RawMantissa(x), UINT64);
    FitsIsKept(RawMantissa(x), UINT32);
    if nSize <= 3 {
      FitsIsKept(x, UINT64);
      n := u.GetLow64();
      n := Truncated(Truncated(Times(n, Pow(2, 8 * (3 - nSize))), UINT64), UINT32);
    } else {
      var bn := new BaseUint.Copy(u);
      bn.ShiftRight(8 * (nSize - 3));
      n := bn.GetLow64();
      n := Truncated(n, UINT32);
    }
  }

  lemma RawFits(x: nat)
    ensures RawMantissa(x) < 0x100_0000
  {
    if x > 0 { RawBounds(x); } else { ZeroEncodes(); }
  }

  lemma RawMantissaIs(x: nat)
    ensures var s := ByteLength(x);
            if s <= 3 then x < 0x100_0000 && RawMantissa(x) == Times(x, Pow(2, 8 * (3 - s)))
            else Pow(2, 8 * (s - 3)) >= 1 && RawMantissa(x) == x / Pow(2, 8 * (s - 3))
  {
    var s := ByteLength(x);
    if s <= 3 {
      P256Bits(3 - s);
      RawFits(x);
      MulAtLeast(P256(3 - s), x);
    } else {
      P256Bits(s - 3);
    }
  }

  method GetCompact(u: BaseUint, fNegative: bool) returns (nCompact: nat)
    requires u.pn.Length == 8
    ensures nCompact == Encode(u.Value(), fNegative) < UINT32
  {
    hide Pow, P256, P2_256, B, ByteLength, RawMantissa, Or, Val;
    ghost var x := u.Value();
    var bits := u.Bits();
    BytesOfBits(x, bits);
    RangeIs256();
    ValBound(u.pn[..]);
    SizeFits(x);
    MantissaBounds(x);
    var nSize := (bits + 7) / 8;
    nCompact := RawCompact(u, nSize);
    if nCompact / SIGN % 2 == 1 {
      nCompact := nCompact / 256;
      nSize := nSize + 1;
    }
    assert nCompact == MantissaOf(x) < SIGN && nSize == SizeOf(x) < 256;
    OrSize(nSize, nCompact);
    nCompact := Or(nCompact, nSize * 0x100_0000);
    Packed(nSize, MantissaOf(x), false);
    OrSign(nSize, MantissaOf(x));
    OrNothing(nCompact);
    nCompact := Or(nCompact, if fNegative && nCompact % SIGN != 0 then SIGN else 0);
  }

  lemma OrSize(size: nat, m: nat)
    requires m < SIGN
    ensures Or(m, size * 0x100_0000) == size * 0x100_0000 + m
  {
    P256Bits(3);
    ThreeBytes();
    OrAdds(m, size, 24);
  }

  lemma OrSign(size: nat, m: nat)
    requires m < SIGN
    ensures Or(size * 0x100_0000 + m, SIGN) == size * 0x100_0000 + m + SIGN
  {
    hide Or;
    P256Bits(3);
    ThreeBytes();
    assert Pow(2, 24) == 2 * Pow(2, 23);
    OrAdds(m, 1, 23);
    OrZero(size);
    OrCommutes(size, 0);
    OrSplits(m, SIGN, size, 0, 24);
  }

  lemma OrNothing(n: nat)
    ensures Or(n, 0) == n
  {
    OrZero(n);
    OrCommutes(n, 0);
  }
}
