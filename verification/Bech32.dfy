/**
 Bech32: a human-readable part, the separator 1, and data of five bits a symbol that ends
 in a checksum of six. BIP 173 defines the form; the length limit here is 1023.
 */
module Bech32Checksum {

  type Byte = bv8
  type Bytes = seq<Byte>

  const STATES: bv32 := 0x40000000

  /* ----- One step of the checksum ----- */

  function Xor(a: bv32, b: bv32): bv32 { a ^ b }

  predicate Bit(c: bv32, bit: bv32) { c & bit != 0 }

  function Part(set_: bool, k: bv32): bv32 {
    if set_ then k else 0
  }

  const K1: bv32 := 0x3b6a57b2
  const K2: bv32 := 0x26508e6d
  const K4: bv32 := 0x1ea119fa
  const K8: bv32 := 0x3d4233dd
  const K16: bv32 := 0x2a1462b3

  // The constants whose bit is set, added up.
  function Multiple(b1: bool, b2: bool, b4: bool, b8: bool, b16: bool): bv32 {
    Xor(Xor(Xor(Xor(Part(b1, K1), Part(b2, K2)), Part(b4, K4)), Part(b8, K8)), Part(b16, K16))
  }

  // The multiple of x^6 modulo the generator for the leading coefficient.
  function Reduce(c0: bv32): bv32 {
    Multiple(Bit(c0, 1), Bit(c0, 2), Bit(c0, 4), Bit(c0, 8), Bit(c0, 16))
  }

  function Low(c: bv32): bv32 { (c & 0x1ffffff) << 5 }

  function High(c: bv32): bv32 { c >> 25 }

  function Shift(c: bv32): bv32 { Xor(Low(c), Reduce(High(c))) }

  // The polynomial times x, plus the next value, modulo the generator.
  function PolyStep(c: bv32, v: Byte): bv32 { Xor(Shift(c), v as bv32) }

  /* Facts about exclusive or, first on the bits and then about the function that stands for it. */

  lemma RawSwap(a: bv32, b: bv32, c: bv32, d: bv32)
    ensures (a ^ b) ^ (c ^ d) == (a ^ c) ^ (b ^ d)
  {
  }

  lemma RawBits(a: bv32, b: bv32)
    ensures ((a ^ b) & 1 != 0) == ((a & 1 != 0) != (b & 1 != 0))
    ensures ((a ^ b) & 2 != 0) == ((a & 2 != 0) != (b & 2 != 0))
    ensures ((a ^ b) & 4 != 0) == ((a & 4 != 0) != (b & 4 != 0))
    ensures ((a ^ b) & 8 != 0) == ((a & 8 != 0) != (b & 8 != 0))
    ensures ((a ^ b) & 16 != 0) == ((a & 16 != 0) != (b & 16 != 0))
  {
  }

  lemma RawZero(k: bv32)
    ensures k ^ k == 0 && k ^ 0 == k && 0 ^ k == k
  {
  }

  lemma XorIs(a: bv32, b: bv32)
    ensures Xor(a, b) == a ^ b
  {
  }

  lemma XorSwap(a: bv32, b: bv32, c: bv32, d: bv32)
    ensures Xor(Xor(a, b), Xor(c, d)) == Xor(Xor(a, c), Xor(b, d))
  {
    hide Xor;
    calc {
      Xor(Xor(a, b), Xor(c, d));
      { XorIs(a, b); XorIs(c, d); }
      Xor(a ^ b, c ^ d);
      { XorIs(a ^ b, c ^ d); }
      (a ^ b) ^ (c ^ d);
      { RawSwap(a, b, c, d); }
      (a ^ c) ^ (b ^ d);
      { XorIs(a ^ c, b ^ d); }
      Xor(a ^ c, b ^ d);
      { XorIs(a, c); XorIs(b, d); }
      Xor(Xor(a, c), Xor(b, d));
    }
  }

  lemma BitOfXor(a: bv32, b: bv32, bit: bv32)
    requires ((a ^ b) & bit != 0) == ((a & bit != 0) != (b & bit != 0))
    ensures Bit(Xor(a, b), bit) == (Bit(a, bit) != Bit(b, bit))
  {
    hide Xor;
    XorIs(a, b);
  }

  lemma BitsOfXor(a: bv32, b: bv32)
    ensures Bit(Xor(a, b), 1) == (Bit(a, 1) != Bit(b, 1))
    ensures Bit(Xor(a, b), 2) == (Bit(a, 2) != Bit(b, 2))
    ensures Bit(Xor(a, b), 4) == (Bit(a, 4) != Bit(b, 4))
    ensures Bit(Xor(a, b), 8) == (Bit(a, 8) != Bit(b, 8))
    ensures Bit(Xor(a, b), 16) == (Bit(a, 16) != Bit(b, 16))
  {
    hide Xor, Bit;
    RawBits(a, b);
    BitOfXor(a, b, 1);
    BitOfXor(a, b, 2);
    BitOfXor(a, b, 4);
    BitOfXor(a, b, 8);
    BitOfXor(a, b, 16);
  }

  lemma XorZero(k: bv32)
    ensures Xor(k, k) == 0 && Xor(k, 0) == k && Xor(0, k) == k
  {
    RawZero(k);
  }

  // Exclusive or is commutative and associative, and undoes itself.
  lemma XorRotate(a: bv32, b: bv32, c: bv32)
    ensures Xor(Xor(a, b), c) == Xor(Xor(a, c), b)
  {
    hide Xor;
    XorSwap(a, b, c, 0);
    XorZero(c);
    XorZero(b);
  }

  lemma XorCommutes(a: bv32, b: bv32)
    ensures Xor(a, b) == Xor(b, a)
  {
    hide Xor;
    XorRotate(0, a, b);
    XorZero(a);
    XorZero(b);
  }

  lemma XorUndoes(a: bv32, b: bv32)
    ensures Xor(Xor(a, b), b) == a && Xor(a, Xor(a, b)) == b
  {
    hide Xor;
    XorSwap(a, b, 0, b);
    XorSwap(a, 0, a, b);
    XorZero(a);
    XorZero(b);
    XorZero(0);
  }

  lemma PartIsLinear(p: bool, q: bool, k: bv32)
    ensures Part(p != q, k) == Xor(Part(p, k), Part(q, k))
  {
    hide Xor;
    XorZero(k);
    XorZero(0);
  }

  lemma FiveSwap(a1: bv32, b1: bv32, a2: bv32, b2: bv32, a3: bv32, b3: bv32, a4: bv32, b4: bv32, a5: bv32, b5: bv32)
    ensures Xor(Xor(Xor(Xor(Xor(a1, b1), Xor(a2, b2)), Xor(a3, b3)), Xor(a4, b4)), Xor(a5, b5))
         == Xor(Xor(Xor(Xor(Xor(a1, a2), a3), a4), a5), Xor(Xor(Xor(Xor(b1, b2), b3), b4), b5))
  {
    hide Xor;
    XorSwap(a1, b1, a2, b2);
    XorSwap(Xor(a1, a2), Xor(b1, b2), a3, b3);
    XorSwap(Xor(Xor(a1, a2), a3), Xor(Xor(b1, b2), b3), a4, b4);
    XorSwap(Xor(Xor(Xor(a1, a2), a3), a4), Xor(Xor(Xor(b1, b2), b3), b4), a5, b5);
  }

  lemma MultipleIsLinear(x1: bool, y1: bool, x2: bool, y2: bool, x4: bool, y4: bool, x8: bool, y8: bool, x16: bool,
      y16: bool)
    ensures Multiple(x1 != y1, x2 != y2, x4 != y4, x8 != y8, x16 != y16)
            == Xor(Multiple(x1, x2, x4, x8, x16), Multiple(y1, y2, y4, y8, y16))
  {
    hide Xor, Part;
    PartIsLinear(x1, y1, K1);
    PartIsLinear(x2, y2, K2);
    PartIsLinear(x4, y4, K4);
    PartIsLinear(x8, y8, K8);
    PartIsLinear(x16, y16, K16);
    FiveSwap(Part(x1, K1), Part(y1, K1), Part(x2, K2), Part(y2, K2), Part(x4, K4), Part(y4, K4), Part(x8, K8),
        Part(y8, K8), Part(x16, K16), Part(y16, K16));
  }

  lemma ReduceIsLinear(a: bv32, b: bv32)
    ensures Reduce(Xor(a, b)) == Xor(Reduce(a), Reduce(b))
  {
    hide Multiple, Xor, Bit;
    BitsOfXor(a, b);
    MultipleIsLinear(Bit(a, 1), Bit(b, 1), Bit(a, 2), Bit(b, 2), Bit(a, 4), Bit(b, 4), Bit(a, 8), Bit(b, 8),
        Bit(a, 16), Bit(b, 16));
  }

  lemma PartsOfXor(a: bv32, b: bv32)
    ensures High(Xor(a, b)) == Xor(High(a), High(b)) && Low(Xor(a, b)) == Xor(Low(a), Low(b))
  {
  }

  lemma ShiftIsLinear(a: bv32, b: bv32)
    ensures Shift(Xor(a, b)) == Xor(Shift(a), Shift(b))
  {
    hide Reduce, Xor, Low, High;
    PartsOfXor(a, b);
    ReduceIsLinear(High(a), High(b));
    XorSwap(Low(a), Low(b), Reduce(High(a)), Reduce(High(b)));
  }

  lemma ShiftStays(c: bv32)
    requires c < STATES
    ensures Shift(c) < STATES
  {
  }

  // The step loses nothing: only zero goes to zero.
  lemma ShiftIsInjective(c: bv32)
    requires c < STATES && Shift(c) == 0
    ensures c == 0
  {
  }

  lemma ShiftSmall(c: bv32)
    requires c < 0x2000000
    ensures Shift(c) == c << 5
  {
  }

  /* ----- Many steps ----- */

  function Fold(c: bv32, v: Bytes): bv32 {
    if v == [] then c else PolyStep(Fold(c, v[..|v| - 1]), v[|v| - 1])
  }

  function PolyMod(v: Bytes): bv32 { Fold(1, v) }

  // n steps with nothing to add.
  function ZeroSteps(c: bv32, n: nat): bv32 {
    if n == 0 then c else Shift(ZeroSteps(c, n - 1))
  }

  lemma {:induction false} FoldJoins(c: bv32, a: Bytes, b: Bytes)
    ensures Fold(c, a + b) == Fold(Fold(c, a), b)
  {
    if b == [] {
      assert a + b == a;
    } else {
      var init := b[..|b| - 1];
      assert (a + b)[..|a + b| - 1] == a + init && (a + b)[|a + b| - 1] == b[|b| - 1];
      FoldJoins(c, a, init);
    }
  }

  // The checksum is linear: a difference in the state goes its own way.
  lemma {:induction false} FoldIsLinear(a: bv32, b: bv32, v: Bytes)
    ensures Fold(Xor(a, b), v) == Xor(Fold(a, v), ZeroSteps(b, |v|))
  {
    hide Xor, Shift;
    if v != [] {
      var init, last := v[..|v| - 1], v[|v| - 1];
      FoldIsLinear(a, b, init);
      var f, z := Fold(a, init), ZeroSteps(b, |init|);
      ShiftIsLinear(f, z);
      XorRotate(Shift(f), Shift(z), last as bv32);
    }
  }

  lemma {:induction false} ZeroStepsKeep(c: bv32, n: nat)
    requires c < STATES && c != 0
    ensures ZeroSteps(c, n) < STATES && ZeroSteps(c, n) != 0
  {
    if n > 0 {
      hide Shift;
      ZeroStepsKeep(c, n - 1);
      var z := ZeroSteps(c, n - 1);
      ShiftStays(z);
      if Shift(z) == 0 { ShiftIsInjective(z); }
    }
  }

  lemma DifferenceIsSmall(x: Byte, y: Byte)
    requires x != y
    ensures Xor(x as bv32, y as bv32) != 0 && Xor(x as bv32, y as bv32) < STATES
  {
  }

  lemma FoldLast(c: bv32, before: Bytes, x: Byte)
    ensures Fold(c, before + [x]) == Xor(Shift(Fold(c, before)), x as bv32)
  {
    hide Xor, Shift;
    assert (before + [x])[..|before|] == before;
  }

  // Changing one value changes the checksum, whatever comes before and after.
  lemma OneErrorShows(c: bv32, v: Bytes, i: nat, y: Byte)
    requires i < |v| && y != v[i]
    ensures Fold(c, v[i := y]) != Fold(c, v)
  {
    hide Xor, Shift, Fold;
    var before, x, rest := v[..i], v[i], v[i + 1..];
    assert v == (before + [x]) + rest && v[i := y] == (before + [y]) + rest;
    FoldJoins(c, before + [x], rest);
    FoldJoins(c, before + [y], rest);
    FoldLast(c, before, x);
    FoldLast(c, before, y);
    var s, d := Shift(Fold(c, before)), Xor(x as bv32, y as bv32);
    assert Xor(s, y as bv32) == Xor(Xor(s, x as bv32), d) by {
      XorSwap(s, x as bv32, y as bv32, x as bv32);
      XorCommutes(x as bv32, y as bv32);
      XorZero(x as bv32);
      XorZero(Xor(s, y as bv32));
    }
    DifferenceIsSmall(x, y);
    DifferentStates(Xor(s, x as bv32), d, rest);
  }

  lemma XorChanges(a: bv32, z: bv32)
    requires z != 0
    ensures Xor(a, z) != a
  {
    hide Xor;
    XorUndoes(a, z);
    XorZero(a);
  }

  /* ----- Six values make up a state ----- */

  predicate Fives(v: Bytes) {
    forall i | 0 <= i < |v| :: v[i] < 32
  }

  function Five(x: bv32): Byte { (x & 31) as bv8 }

  // The value i of the six in m, shifted by 5 * (5 - i) bits.
  function Group(m: bv32, i: nat): Byte
    requires i < 6
  {
    match i
    case 0 => Five(m >> 25)
    case 1 => Five(m >> 20)
    case 2 => Five(m >> 15)
    case 3 => Five(m >> 10)
    case 4 => Five(m >> 5)
    case _ => Five(m)
  }

  function Groups(m: bv32): (r: Bytes)
    ensures |r| == 6
  {
    [Group(m, 0), Group(m, 1), Group(m, 2), Group(m, 3), Group(m, 4), Group(m, 5)]
  }

  function Append(c: bv32, v: Byte): bv32 { (c << 5) ^ (v as bv32) }

  lemma AppendIsStep(c: bv32, v: Byte)
    requires c < 0x2000000
    ensures PolyStep(c, v) == Append(c, v)
  {
    hide Shift;
    ShiftSmall(c);
  }

  lemma AppendGrows(c: bv32, v: Byte)
    requires v < 32
    ensures c < 1 ==> Append(c, v) < 32
    ensures c < 32 ==> Append(c, v) < 1024
    ensures c < 1024 ==> Append(c, v) < 0x8000
    ensures c < 0x8000 ==> Append(c, v) < 0x100000
    ensures c < 0x100000 ==> Append(c, v) < 0x2000000
  {
  }

  function Pack(r: Bytes): bv32
    requires |r| == 6
  {
    Append(Append(Append(Append(Append(Append(0, r[0]), r[1]), r[2]), r[3]), r[4]), r[5])
  }

  // From zero, six values fill the state without any reduction.
  lemma FoldPacks(r: Bytes)
    requires |r| == 6 && Fives(r)
    ensures Fold(0, r) == Pack(r)
  {
    hide Append, PolyStep;
    var c1 := Append(0, r[0]);
    var c2 := Append(c1, r[1]);
    var c3 := Append(c2, r[2]);
    var c4 := Append(c3, r[3]);
    var c5 := Append(c4, r[4]);
    AppendGrows(0, r[0]);
    AppendGrows(c1, r[1]);
    AppendGrows(c2, r[2]);
    AppendGrows(c3, r[3]);
    AppendGrows(c4, r[4]);
    AppendIsStep(0, r[0]);
    AppendIsStep(c1, r[1]);
    AppendIsStep(c2, r[2]);
    AppendIsStep(c3, r[3]);
    AppendIsStep(c4, r[4]);
    AppendIsStep(c5, r[5]);
    assert r[..1][..0] == [] && r[..2][..1] == r[..1] && r[..3][..2] == r[..2] && r[..4][..3] == r[..3] &&
           r[..5][..4] == r[..4];
    assert Fold(0, r[..1]) == c1;
    assert Fold(0, r[..2]) == c2;
    assert Fold(0, r[..3]) == c3;
    assert Fold(0, r[..4]) == c4;
    assert Fold(0, r[..5]) == c5;
  }

  lemma RawPack(m: bv32)
    requires m < STATES
    ensures (((((((((((m >> 25) & 31) << 5) ^ ((m >> 20) & 31)) << 5) ^ ((m >> 15) & 31)) << 5)
            ^ ((m >> 10) & 31)) << 5) ^ ((m >> 5) & 31)) << 5) ^ (m & 31) == m
  {
  }

  lemma RawGroups(a: bv32, b: bv32, c: bv32, d: bv32, e: bv32, f: bv32)
    requires a < 32 && b < 32 && c < 32 && d < 32 && e < 32 && f < 32
    ensures var m := (((((((((a << 5) ^ b) << 5) ^ c) << 5) ^ d) << 5) ^ e) << 5) ^ f;
            (m >> 25) & 31 == a && (m >> 20) & 31 == b && (m >> 15) & 31 == c && (m >> 10) & 31 == d &&
                (m >> 5) & 31 == e && m & 31 == f
  {
  }

  lemma PackGroups(m: bv32)
    requires m < STATES
    ensures Fives(Groups(m)) && Pack(Groups(m)) == m
  {
    hide Pack, Group;
    GroupValues(m);
    PackIs(Groups(m));
    RawPack(m);
  }

  lemma PackIs(r: Bytes)
    requires |r| == 6
    ensures Pack(r)
            == (((((((((((r[0] as bv32) << 5) ^ (r[1] as bv32)) << 5) ^ (r[2] as bv32)) << 5) ^ (r[3] as bv32)) << 5)
               ^ (r[4] as bv32)) << 5) ^ (r[5] as bv32))
  {
    RawFirst(r[0] as bv32);
  }

  lemma RawFirst(a: bv32)
    ensures (0 << 5) ^ a == a
  {
  }

  lemma GroupValues(m: bv32)
    ensures Group(m, 0) < 32 && (Group(m, 0) as bv32) == (m >> 25) & 31
    ensures Group(m, 1) < 32 && (Group(m, 1) as bv32) == (m >> 20) & 31
    ensures Group(m, 2) < 32 && (Group(m, 2) as bv32) == (m >> 15) & 31
    ensures Group(m, 3) < 32 && (Group(m, 3) as bv32) == (m >> 10) & 31
    ensures Group(m, 4) < 32 && (Group(m, 4) as bv32) == (m >> 5) & 31
    ensures Group(m, 5) < 32 && (Group(m, 5) as bv32) == m & 31
  {
    hide Five;
    Narrow(m >> 25);
    Narrow(m >> 20);
    Narrow(m >> 15);
    Narrow(m >> 10);
    Narrow(m >> 5);
    Narrow(m);
  }

  lemma Narrow(x: bv32)
    ensures Five(x) < 32 && (Five(x) as bv32) == x & 31
  {
  }

  lemma GroupsPack(r: Bytes)
    requires |r| == 6 && Fives(r)
    ensures Groups(Pack(r)) == r
  {
    RawGroups(r[0] as bv32, r[1] as bv32, r[2] as bv32, r[3] as bv32, r[4] as bv32, r[5] as bv32);
  }

  lemma StepStays(c: bv32, v: Byte)
    requires c < STATES
    ensures PolyStep(c, v) < STATES
  {
    hide Shift;
    ShiftStays(c);
    XorStays(Shift(c), v as bv32);
  }

  lemma XorStays(a: bv32, b: bv32)
    requires a < STATES && b < STATES
    ensures Xor(a, b) < STATES
  {
  }

  lemma {:induction false} FoldStays(c: bv32, v: Bytes)
    requires c < STATES
    ensures Fold(c, v) < STATES
  {
    if v != [] {
      FoldStays(c, v[..|v| - 1]);
      StepStays(Fold(c, v[..|v| - 1]), v[|v| - 1]);
    }
  }

  const ZEROS: Bytes := [0, 0, 0, 0, 0, 0]

  // What to append to make the checksum one.
  function Checksum(v: Bytes): Bytes {
    Groups(Xor(PolyMod(v + ZEROS), 1))
  }

  lemma ZerosPack()
    ensures Fold(0, ZEROS) == 0
  {
    FoldPacks(ZEROS);
  }

  // From any state, six values add their packed form to what six zeros would give.
  lemma SixFrom(c: bv32, r: Bytes)
    requires |r| == 6 && Fives(r)
    ensures Fold(c, r) == Xor(Pack(r), ZeroSteps(c, 6))
  {
    hide Xor, Pack;
    XorZero(c);
    FoldIsLinear(0, c, r);
    FoldPacks(r);
  }

  lemma SixMore(v: Bytes, r: Bytes)
    requires |r| == 6 && Fives(r)
    ensures PolyMod(v + r) == Xor(Pack(r), ZeroSteps(Fold(1, v), 6))
  {
    hide Fold;
    FoldJoins(1, v, r);
    SixFrom(Fold(1, v), r);
  }

  lemma DifferentStates(a: bv32, d: bv32, v: Bytes)
    requires d != 0 && d < STATES
    ensures Fold(Xor(a, d), v) != Fold(a, v)
  {
    hide Xor, Shift;
    FoldIsLinear(a, d, v);
    ZeroStepsKeep(d, |v|);
    XorChanges(Fold(a, v), ZeroSteps(d, |v|));
  }

  lemma DifferentPacks(x: Bytes, y: Bytes)
    requires |x| == |y| == 6 && Fives(x) && Fives(y) && x != y
    ensures Xor(Pack(x), Pack(y)) != 0 && Xor(Pack(x), Pack(y)) < STATES
  {
    hide Xor, Pack, Groups;
    GroupsPack(x);
    GroupsPack(y);
    FoldPacks(x);
    FoldPacks(y);
    FoldStays(0, x);
    FoldStays(0, y);
    XorStays(Pack(x), Pack(y));
    XorUndoes(Pack(x), Pack(y));
    XorCommutes(0, Pack(y));
    XorZero(Pack(y));
  }

  // Changing any of six consecutive values changes the checksum, at any length.
  lemma BurstShows(c: bv32, before: Bytes, x: Bytes, y: Bytes, rest: Bytes)
    requires |x| == |y| == 6 && Fives(x) && Fives(y) && x != y
    ensures Fold(c, before + x + rest) != Fold(c, before + y + rest)
  {
    hide Xor, Pack, Fold, ZeroSteps;
    var s := Fold(c, before);
    FoldJoins(c, before, x);
    FoldJoins(c, before, y);
    FoldJoins(c, before + x, rest);
    FoldJoins(c, before + y, rest);
    SixFrom(s, x);
    SixFrom(s, y);
    var p, q, z := Pack(x), Pack(y), ZeroSteps(s, 6);
    assert Xor(q, z) == Xor(Xor(p, z), Xor(p, q)) by {
      XorSwap(p, z, p, q);
      XorZero(p);
      XorCommutes(z, q);
      XorZero(Xor(z, q));
    }
    DifferentPacks(x, y);
    DifferentStates(Fold(s, x), Xor(Pack(x), Pack(y)), rest);
  }

  // Six values complete v exactly when they are its checksum.
  lemma ChecksumIff(v: Bytes, r: Bytes)
    requires |r| == 6 && Fives(r)
    ensures PolyMod(v + r) == 1 <==> r == Checksum(v)
  {
    hide Xor, Pack, Groups, Fold, ZeroSteps;
    var p, z := Pack(r), PolyMod(v + ZEROS);
    SixMore(v, r);
    SixMore(v, ZEROS);
    assert z == ZeroSteps(Fold(1, v), 6) by {
      ZerosPack();
      FoldPacks(ZEROS);
      XorZero(ZeroSteps(Fold(1, v), 6));
    }
    FoldStays(1, v + ZEROS);
    XorStays(z, 1);
    PackGroups(Xor(z, 1));
    GroupsPack(r);
    assert Xor(p, z) == 1 <==> p == Xor(z, 1) by {
      hide Groups, PolyMod;
      XorUndoes(p, z);
      XorUndoes(1, z);
      XorCommutes(1, z);
    }
  }

  lemma ChecksumIsFives(v: Bytes)
    ensures |Checksum(v)| == 6 && Fives(Checksum(v))
  {
    hide Xor, Groups;
    FoldStays(1, v + ZEROS);
    XorStays(PolyMod(v + ZEROS), 1);
    PackGroups(Xor(PolyMod(v + ZEROS), 1));
  }

}

module Bech32 {
  import opened Options
  import opened Bech32Checksum
  import C = Bech32Checksum

  // A string of bytes.
  type Text = seq<Byte>

  const SEPARATOR: Byte := 0x31
  const NO_SYMBOL: Byte := 0xff
  const MAX_LENGTH: nat := 1023

  predicate IsPrintable(c: Byte) { 33 <= c <= 126 }

  predicate IsLower(c: Byte) { 0x61 <= c <= 0x7a }

  predicate IsUpper(c: Byte) { 0x41 <= c <= 0x5a }

  function LowerCase(c: Byte): Byte { if IsUpper(c) then c + 0x20 else c }

  function LowSymbol(v: Byte): Byte {
    match v
    case 0 => 0x71  // q
    case 1 => 0x70  // p
    case 2 => 0x7a  // z
    case 3 => 0x72  // r
    case 4 => 0x79  // y
    case 5 => 0x39  // 9
    case 6 => 0x78  // x
    case 7 => 0x38  // 8
    case 8 => 0x67  // g
    case 9 => 0x66  // f
    case 10 => 0x32  // 2
    case 11 => 0x74  // t
    case 12 => 0x76  // v
    case 13 => 0x64  // d
    case 14 => 0x77  // w
    case 15 => 0x30  // 0
    case _ => 0
  }

  function HighSymbol(v: Byte): Byte {
    match v
    case 16 => 0x73  // s
    case 17 => 0x33  // 3
    case 18 => 0x6a  // j
    case 19 => 0x6e  // n
    case 20 => 0x35  // 5
    case 21 => 0x34  // 4
    case 22 => 0x6b  // k
    case 23 => 0x68  // h
    case 24 => 0x63  // c
    case 25 => 0x65  // e
    case 26 => 0x36  // 6
    case 27 => 0x6d  // m
    case 28 => 0x75  // u
    case 29 => 0x61  // a
    case 30 => 0x37  // 7
    case 31 => 0x6c  // l
    case _ => 0
  }

  // The symbol of a value.
  function Symbol(v: Byte): Byte { if v < 16 then LowSymbol(v) else HighSymbol(v) }

  function DigitValue(c: Byte): Byte {
    match c
    case 0x30 => 15  // 0
    case 0x32 => 10  // 2
    case 0x33 => 17  // 3
    case 0x34 => 21  // 4
    case 0x35 => 20  // 5
    case 0x36 => 26  // 6
    case 0x37 => 30  // 7
    case 0x38 => 7  // 8
    case 0x39 => 5  // 9
    case _ => NO_SYMBOL
  }

  function FirstLetterValue(c: Byte): Byte {
    match c
    case 0x61 => 29  // a
    case 0x63 => 24  // c
    case 0x64 => 13  // d
    case 0x65 => 25  // e
    case 0x66 => 9  // f
    case 0x67 => 8  // g
    case 0x68 => 23  // h
    case 0x6a => 18  // j
    case 0x6b => 22  // k
    case 0x6c => 31  // l
    case 0x6d => 27  // m
    case _ => NO_SYMBOL
  }

  function LastLetterValue(c: Byte): Byte {
    match c
    case 0x6e => 19  // n
    case 0x70 => 1  // p
    case 0x71 => 0  // q
    case 0x72 => 3  // r
    case 0x73 => 16  // s
    case 0x74 => 11  // t
    case 0x75 => 28  // u
    case 0x76 => 12  // v
    case 0x77 => 14  // w
    case 0x78 => 6  // x
    case 0x79 => 4  // y
    case 0x7a => 2  // z
    case _ => NO_SYMBOL
  }

  // The value of a symbol, of either case.
  function SymbolValue(c: Byte): Byte {
    var d := LowerCase(c);
    if d < 0x41 then DigitValue(d) else if d < 0x6e then FirstLetterValue(d) else LastLetterValue(d)
  }

  predicate IsSymbolOf(c: Byte, v: Byte) {
    SymbolValue(c) == v && IsPrintable(c) && !IsUpper(c) && c != SEPARATOR
  }

  lemma FirstSymbols(v: Byte)
    requires v < 8
    ensures IsSymbolOf(Symbol(v), v)
  {
  }

  lemma SecondSymbols(v: Byte)
    requires 8 <= v < 16
    ensures IsSymbolOf(Symbol(v), v)
  {
  }

  lemma ThirdSymbols(v: Byte)
    requires 16 <= v < 24
    ensures IsSymbolOf(Symbol(v), v)
  {
  }

  lemma FourthSymbols(v: Byte)
    requires 24 <= v < 32
    ensures IsSymbolOf(Symbol(v), v)
  {
  }

  lemma SymbolHasValue(v: Byte)
    requires v < 32
    ensures IsSymbolOf(Symbol(v), v)
  {
    hide Symbol, IsSymbolOf;
    if v < 8 {
      FirstSymbols(v);
    } else if v < 16 {
      SecondSymbols(v);
    } else if v < 24 {
      ThirdSymbols(v);
    } else {
      FourthSymbols(v);
    }
  }

  predicate HasSymbol(c: Byte, v: Byte) {
    v < 32 && Symbol(v) == LowerCase(c) && IsPrintable(c) && c != SEPARATOR
  }

  lemma DigitHasSymbol(c: Byte)
    requires c < 0x41 && SymbolValue(c) != NO_SYMBOL
    ensures HasSymbol(c, SymbolValue(c))
  {
  }

  lemma FirstLetterHasSymbol(c: Byte)
    requires 0x61 <= c < 0x6e && SymbolValue(c) != NO_SYMBOL
    ensures HasSymbol(c, SymbolValue(c))
  {
  }

  lemma LastLetterHasSymbol(c: Byte)
    requires 0x6e <= c && SymbolValue(c) != NO_SYMBOL
    ensures HasSymbol(c, SymbolValue(c))
  {
  }

  lemma LetterHasSymbol(c: Byte)
    requires 0x61 <= c && SymbolValue(c) != NO_SYMBOL
    ensures HasSymbol(c, SymbolValue(c))
  {
    hide SymbolValue, HasSymbol;
    if c < 0x6e { FirstLetterHasSymbol(c); } else { LastLetterHasSymbol(c); }
  }

  lemma CapitalHasSymbol(c: Byte)
    requires 0x41 <= c < 0x61 && SymbolValue(c) != NO_SYMBOL
    ensures HasSymbol(c, SymbolValue(c))
  {
    hide Symbol, SymbolValue;
    Capital(c);
    if IsUpper(c) { LetterHasSymbol(LowerCase(c)); }
  }

  lemma Capital(c: Byte)
    requires 0x41 <= c < 0x61
    ensures !IsUpper(c) ==> SymbolValue(c) == NO_SYMBOL
    ensures IsUpper(c) ==> 0x61 <= LowerCase(c) && SymbolValue(LowerCase(c)) == SymbolValue(c)
    ensures IsUpper(c) ==> LowerCase(LowerCase(c)) == LowerCase(c)
  {
  }

  lemma ValueHasSymbol(c: Byte)
    requires SymbolValue(c) != NO_SYMBOL
    ensures HasSymbol(c, SymbolValue(c))
  {
    hide Symbol, SymbolValue, HasSymbol;
    if c < 0x41 { DigitHasSymbol(c); } else if c < 0x61 { CapitalHasSymbol(c); } else { LetterHasSymbol(c); }
  }

  /* ----- Encoding and decoding ----- */

  function HighBits(c: Byte): Byte { c >> 5 }

  function LowBits(c: Byte): Byte { c & 0x1f }

  function ExpandHRP(hrp: Text): Bytes {
    seq(|hrp|, i requires 0 <= i < |hrp| => HighBits(hrp[i])) + [0]
        + seq(|hrp|, i requires 0 <= i < |hrp| => LowBits(hrp[i]))
  }

  function Symbols(v: Bytes): Text {
    seq(|v|, i requires 0 <= i < |v| => Symbol(v[i]))
  }

  function Values(t: Text): Bytes {
    seq(|t|, i requires 0 <= i < |t| => SymbolValue(t[i]))
  }

  function LowerAll(t: Text): Text {
    seq(|t|, i requires 0 <= i < |t| => LowerCase(t[i]))
  }

  predicate AllPrintable(t: Text) { forall i | 0 <= i < |t| :: IsPrintable(t[i]) }

  predicate HasLower(t: Text) { exists i :: 0 <= i < |t| && IsLower(t[i]) }

  predicate HasUpper(t: Text) { exists i :: 0 <= i < |t| && IsUpper(t[i]) }

  predicate AllSymbols(t: Text) { forall i | 0 <= i < |t| :: SymbolValue(t[i]) != NO_SYMBOL }

  function LastSeparator(t: Text): (pos: int)
    ensures -1 <= pos < |t|
  {
    if t == [] then -1
    else if t[|t| - 1] == SEPARATOR then |t| - 1
    else LastSeparator(t[..|t| - 1])
  }

  function ChecksumOf(hrp: Text, v: Bytes): Bytes {
    C.Checksum(ExpandHRP(hrp) + v)
  }

  // Nothing when some value does not fit five bits.
  function Encode(hrp: Text, v: Bytes): Text {
    if Fives(v) then hrp + [SEPARATOR] + Symbols(v + ChecksumOf(hrp, v)) else []
  }

  predicate Verifies(hrp: Text, values: Bytes) {
    PolyMod(ExpandHRP(hrp) + values) == 1
  }

  function DecodeAt(t: Text, pos: nat): Option<(Text, Bytes)>
    requires pos + 7 <= |t|
  {
    var hrp, values := LowerAll(t[..pos]), Values(t[pos + 1..]);
    if !AllSymbols(t[pos + 1..]) || !Verifies(hrp, values) then None else Some((hrp, values[..|values| - 6]))
  }

  function Decode(t: Text): Option<(Text, Bytes)> {
    var pos := LastSeparator(t);
    if !AllPrintable(t) || (HasLower(t) && HasUpper(t)) then None
    else if |t| > MAX_LENGTH || pos <= 0 || pos + 7 > |t| then None
    else DecodeAt(t, pos)
  }

  /* ----- The last separator ----- */

  lemma {:induction false} SeparatorAt(t: Text, pos: nat)
    requires pos < |t| && t[pos] == SEPARATOR && forall i | pos < i < |t| :: t[i] != SEPARATOR
    ensures LastSeparator(t) == pos
  {
    if pos < |t| - 1 { SeparatorAt(t[..|t| - 1], pos); }
  }

  lemma {:induction false} SeparatorIsLast(t: Text)
    ensures var pos := LastSeparator(t);
            (pos >= 0 ==> t[pos] == SEPARATOR) && forall i | pos < i < |t| :: t[i] != SEPARATOR
  {
    if t != [] && t[|t| - 1] != SEPARATOR {
      var init := t[..|t| - 1];
      SeparatorIsLast(init);
      assert forall i | 0 <= i < |t| - 1 :: t[i] == init[i];
    }
  }

  /* ----- The round trips ----- */

  lemma SymbolsRead(v: Bytes)
    requires Fives(v)
    ensures Values(Symbols(v)) == v && AllSymbols(Symbols(v)) && AllPrintable(Symbols(v)) && !HasUpper(Symbols(v))
    ensures forall i | 0 <= i < |v| :: Symbols(v)[i] != SEPARATOR
  {
    hide Symbol, SymbolValue;
    forall i | 0 <= i < |v| ensures IsSymbolOf(Symbols(v)[i], v[i]) { SymbolHasValue(v[i]); }
    assert forall i | 0 <= i < |v| :: v[i] != NO_SYMBOL;
  }

  lemma ValuesWrite(t: Text)
    requires AllSymbols(t)
    ensures Fives(Values(t)) && Symbols(Values(t)) == LowerAll(t)
  {
    hide Symbol, SymbolValue;
    forall i | 0 <= i < |t| ensures HasSymbol(t[i], Values(t)[i]) { ValueHasSymbol(t[i]); }
  }

  // A human-readable part as it should be.
  predicate GoodHrp(hrp: Text) {
    hrp != [] && AllPrintable(hrp) && !HasUpper(hrp)
  }

  lemma LowerIs(hrp: Text)
    ensures LowerAll(hrp) == hrp <==> !HasUpper(hrp)
  {
    forall i | 0 <= i < |hrp| ensures LowerAll(hrp)[i] == hrp[i] <==> !IsUpper(hrp[i]) { LowerCaseIs(hrp[i]); }
  }

  lemma LowerCaseIs(c: Byte)
    ensures LowerCase(c) == c <==> !IsUpper(c)
  {
  }

  // The parts of what was encoded, as decoding finds them.
  lemma EncodedParts(hrp: Text, v: Bytes)
    requires Fives(v)
    ensures var t, all := Encode(hrp, v), v + ChecksumOf(hrp, v);
            && |all| == |v| + 6 && |t| == |hrp| + 1 + |all| && LastSeparator(t) == |hrp|
            && t[..|hrp|] == hrp && t[|hrp| + 1..] == Symbols(all) && Fives(all) && Verifies(hrp, all)
  {
    hide Symbol, SymbolValue, PolyMod;
    var t, all := Encode(hrp, v), v + ChecksumOf(hrp, v);
    var prefix := ExpandHRP(hrp) + v;
    ChecksumIsFives(prefix);
    ChecksumIff(prefix, ChecksumOf(hrp, v));
    assert ExpandHRP(hrp) + all == prefix + ChecksumOf(hrp, v);
    SymbolsRead(all);
    SeparatorAt(t, |hrp|);
  }

  lemma EncodedCharacters(hrp: Text, v: Bytes)
    requires Fives(v)
    ensures AllPrintable(Encode(hrp, v)) <==> AllPrintable(hrp)
    ensures HasUpper(Encode(hrp, v)) <==> HasUpper(hrp)
  {
    hide Symbol, SymbolValue;
    var t, all := Encode(hrp, v), v + ChecksumOf(hrp, v);
    EncodedParts(hrp, v);
    SymbolsRead(all);
    assert t == hrp + [SEPARATOR] + Symbols(all);
    assert forall i | 0 <= i < |hrp| :: t[i] == hrp[i];
    assert forall i | |hrp| < i < |t| :: t[i] == Symbols(all)[i - |hrp| - 1];
    if HasUpper(t) {
      var i :| 0 <= i < |t| && IsUpper(t[i]);
      assert i < |hrp|;
    }
  }

  // Decoding gives back what was encoded exactly when the human-readable part is as it should be, the values fit
  // five bits and the whole is not too long.
  lemma RoundTripIff(hrp: Text, v: Bytes)
    ensures Decode(Encode(hrp, v)) == Some((hrp, v)) <==> GoodHrp(hrp) && Fives(v) && |hrp| + |v| + 7 <= MAX_LENGTH
  {
    hide Symbol, SymbolValue, Encode, PolyMod, Verifies, HasUpper, HasLower, AllPrintable;
    if !Fives(v) {
      BadValues(hrp, v);
    } else {
      var t, all := Encode(hrp, v), v + ChecksumOf(hrp, v);
      EncodedParts(hrp, v);
      EncodedCharacters(hrp, v);
      SymbolsRead(all);
      LowerIs(hrp);
      assert all[..|all| - 6] == v;
    }
  }

  lemma BadValues(hrp: Text, v: Bytes)
    requires !Fives(v)
    ensures Decode(Encode(hrp, v)) == None
  {
  }

  // What was decoded encodes to the same string in lower case.
  lemma DecodeThenEncode(t: Text)
    requires Decode(t).Some?
    ensures Encode(Decode(t).value.0, Decode(t).value.1) == LowerAll(t)
  {
    hide Symbol, SymbolValue, PolyMod, HasUpper, HasLower, AllPrintable, C.Checksum;
    var pos := LastSeparator(t);
    SeparatorIsLast(t);
    var hrp, all := LowerAll(t[..pos]), Values(t[pos + 1..]);
    var v, r := all[..|all| - 6], all[|all| - 6..];
    ValuesWrite(t[pos + 1..]);
    assert all == v + r && ExpandHRP(hrp) + all == (ExpandHRP(hrp) + v) + r;
    ChecksumIff(ExpandHRP(hrp) + v, r);
    assert LowerCase(SEPARATOR) == SEPARATOR;
    assert LowerAll(t) == hrp + [SEPARATOR] + LowerAll(t[pos + 1..]);
  }

  // What is accepted: printable characters of one case, at most 1023 of them, a human-readable part, a separator that
  // is the last one, and at least six symbols after it that verify.
  lemma DecodeIff(t: Text, pos: nat)
    requires pos < |t| && t[pos] == 0x31 && forall i | pos < i < |t| :: t[i] != 0x31
    ensures Decode(t).Some?
       <==> && (forall i | 0 <= i < |t| :: 33 <= t[i] <= 126)
            && ((forall i | 0 <= i < |t| :: !(0x61 <= t[i] <= 0x7a)) ||
                (forall i | 0 <= i < |t| :: !(0x41 <= t[i] <= 0x5a)))
            && |t| <= 1023 && 1 <= pos && pos + 7 <= |t|
            && AllSymbols(t[pos + 1..]) && PolyMod(ExpandHRP(LowerAll(t[..pos])) + Values(t[pos + 1..])) == 1
    ensures Decode(t).Some? ==>
              Decode(t) == Some((LowerAll(t[..pos]), Values(t[pos + 1..|t| - 6])))
  {
    hide SymbolValue, PolyMod, ExpandHRP, LowerAll, LastSeparator, AllSymbols;
    SeparatorAt(t, pos);
    if Decode(t).Some? { assert Values(t[pos + 1..])[..|t| - pos - 7] == Values(t[pos + 1..|t| - 6]); }
  }

  lemma NoSeparatorFails(t: Text)
    requires forall i | 0 <= i < |t| :: t[i] != 0x31
    ensures Decode(t) == None
  {
    SeparatorIsLast(t);
  }

  // Replacing one symbol of the data by one of another value is always noticed.
  lemma OneSymbolErrorShows(t: Text, i: nat, c: Byte)
    requires Decode(t).Some? && LastSeparator(t) < i < |t|
    requires SymbolValue(c) != NO_SYMBOL && SymbolValue(c) != SymbolValue(t[i])
    ensures Decode(t[i := c]) == None
  {
    hide Symbol, SymbolValue, Fold, HasUpper, HasLower, AllPrintable;
    var pos, t' := LastSeparator(t), t[i := c];
    SeparatorIsLast(t);
    ValueHasSymbol(c);
    SeparatorAt(t', pos);
    var hrp, all := LowerAll(t[..pos]), Values(t[pos + 1..]);
    assert t'[..pos] == t[..pos];
    var k := i - pos - 1;
    assert Values(t'[pos + 1..]) == all[k := SymbolValue(c)];
    var head := ExpandHRP(hrp);
    assert head + all[k := SymbolValue(c)] == (head + all)[|head| + k := SymbolValue(c)];
    OneErrorShows(1, head + all, |head| + k, SymbolValue(c));
  }

  // Replacing six consecutive symbols of a valid string by six others is noticed, whichever of them differ.
  lemma BurstOfSymbolsShows(t: Text, i: nat, u: Text)
    requires Decode(t).Some? && LastSeparator(t) < i && |u| == 6 && i + 6 <= |t|
    requires AllSymbols(u) && Values(u) != Values(t[i..i + 6])
    ensures Decode(t[..i] + u + t[i + 6..]) == None
  {
    hide Symbol, SymbolValue, PolyMod, HasUpper, HasLower, AllPrintable, Values, LastSeparator, AllSymbols, LowerAll,
         ExpandHRP;
    var pos, t' := LastSeparator(t), t[..i] + u + t[i + 6..];
    BurstKeepsSeparator(t, i, u);
    var d, k := t[pos + 1..], i - pos - 1;
    var a, x, c := d[..k], d[k..k + 6], d[k + 6..];
    assert t'[..pos] == t[..pos] && t'[pos + 1..] == a + u + c && d == a + x + c && x == t[i..i + 6];
    SymbolsInside(d, k);
    BurstFails(ExpandHRP(LowerAll(t[..pos])), a, x, u, c);
  }

  lemma SymbolsInside(d: Text, k: nat)
    requires k + 6 <= |d| && AllSymbols(d)
    ensures AllSymbols(d[k..k + 6])
  {
    hide SymbolValue;
  }

  lemma BurstFails(head: Bytes, a: Text, x: Text, u: Text, c: Text)
    requires |x| == |u| == 6 && AllSymbols(x) && AllSymbols(u) && Values(x) != Values(u)
    ensures PolyMod(head + Values(a + x + c)) != PolyMod(head + Values(a + u + c))
  {
    hide Fold, Values, AllSymbols;
    ValuesJoin(a, x, c);
    ValuesJoin(a, u, c);
    SymbolsAreFives(x);
    SymbolsAreFives(u);
    BurstShows(1, head + Values(a), Values(x), Values(u), Values(c));
    assert head + (Values(a) + Values(x) + Values(c)) == head + Values(a) + Values(x) + Values(c);
    assert head + (Values(a) + Values(u) + Values(c)) == head + Values(a) + Values(u) + Values(c);
  }

  lemma BurstKeepsSeparator(t: Text, i: nat, u: Text)
    requires 0 <= LastSeparator(t) < i && |u| == 6 && i + 6 <= |t| && AllSymbols(u)
    ensures LastSeparator(t[..i] + u + t[i + 6..]) == LastSeparator(t)
  {
    hide Symbol, SymbolValue;
    var pos, t' := LastSeparator(t), t[..i] + u + t[i + 6..];
    SeparatorIsLast(t);
    forall m | pos < m < |t'| ensures t'[m] != SEPARATOR {
      if i <= m < i + 6 { ValueHasSymbol(u[m - i]); }
    }
    SeparatorAt(t', pos);
  }

  lemma ValuesJoin(a: Text, b: Text, c: Text)
    ensures Values(a + b + c) == Values(a) + Values(b) + Values(c)
  {
    hide SymbolValue;
  }

  lemma SymbolsAreFives(u: Text)
    requires AllSymbols(u)
    ensures Fives(Values(u)) && |Values(u)| == |u|
  {
    hide Symbol, SymbolValue;
    forall k | 0 <= k < |u| ensures SymbolValue(u[k]) < 32 {
      ValueHasSymbol(u[k]);
    }
  }
}

/** The code: loops over the values and the string. */
module Bech32Codec {
  import opened Options
  import opened Bech32Checksum
  import opened Bech32
  import C = Bech32Checksum
  import T = Bech32

  method Step(c: bv32, v: Byte) returns (r: bv32)
    ensures r == PolyStep(c, v)
  {
    hide Part, Bit;
    var c0 := High(c);
    r := Xor(Low(c), v as bv32);
    r := AddIf(r, Bit(c0, 1), K1);
    r := AddIf(r, Bit(c0, 2), K2);
    r := AddIf(r, Bit(c0, 4), K4);
    r := AddIf(r, Bit(c0, 8), K8);
    r := AddIf(r, Bit(c0, 16), K16);
    AddedLast(Low(c), v as bv32, Part(Bit(c0, 1), K1), Part(Bit(c0, 2), K2), Part(Bit(c0, 4), K4),
        Part(Bit(c0, 8), K8), Part(Bit(c0, 16), K16));
  }

  method AddIf(c: bv32, b: bool, k: bv32) returns (r: bv32)
    ensures r == Xor(c, Part(b, k))
  {
    r := c;
    if b {
      r := Xor(c, k);
    } else {
      XorZero(c);
    }
  }

  lemma AddedLast(low: bv32, v: bv32, p1: bv32, p2: bv32, p3: bv32, p4: bv32, p5: bv32)
    ensures Xor(Xor(Xor(Xor(Xor(Xor(low, v), p1), p2), p3), p4), p5)
            == Xor(Xor(low, Xor(Xor(Xor(Xor(p1, p2), p3), p4), p5)), v)
  {
    hide Xor;
    XorRotate(low, v, p1);
    XorRotate(Xor(low, p1), v, p2);
    XorRotate(Xor(Xor(low, p1), p2), v, p3);
    XorRotate(Xor(Xor(Xor(low, p1), p2), p3), v, p4);
    XorRotate(Xor(Xor(Xor(Xor(low, p1), p2), p3), p4), v, p5);
    XorAssoc(low, p1, p2);
    XorAssoc(low, Xor(p1, p2), p3);
    XorAssoc(low, Xor(Xor(p1, p2), p3), p4);
    XorAssoc(low, Xor(Xor(Xor(p1, p2), p3), p4), p5);
  }

  lemma XorAssoc(a: bv32, b: bv32, c: bv32)
    ensures Xor(Xor(a, b), c) == Xor(a, Xor(b, c))
  {
    hide Xor;
    XorSwap(a, b, 0, c);
    XorZero(c);
    XorZero(a);
  }

  method PolyMod(v: Bytes) returns (c: bv32)
    ensures c == C.PolyMod(v)
  {
    c := 1;
    for i := 0 to |v|
      invariant c == Fold(1, v[..i])
    {
      assert v[..i + 1][..i] == v[..i];
      c := Step(c, v[i]);
    }
    assert v[..|v|] == v;
  }

  method ExpandHRP(hrp: Text) returns (ret: Bytes)
    ensures ret == T.ExpandHRP(hrp)
  {
    var n := |hrp|;
    var a := new Byte[2 * n + 1](i => 0);
    for i := 0 to n
      invariant forall k | 0 <= k < i :: a[k] == HighBits(hrp[k])
      invariant forall k | n < k < n + 1 + i :: a[k] == LowBits(hrp[k - n - 1])
    {
      a[i] := HighBits(hrp[i]);
      a[i + n + 1] := LowBits(hrp[i]);
    }
    a[n] := 0;
    ret := a[..];
  }

  method VerifyChecksum(hrp: Text, values: Bytes) returns (ok: bool)
    ensures ok <==> Verifies(hrp, values)
  {
    var expanded := ExpandHRP(hrp);
    var mod := PolyMod(expanded + values);
    ok := mod == 1;
  }

  method CreateChecksum(hrp: Text, values: Bytes) returns (ret: Bytes)
    ensures ret == ChecksumOf(hrp, values)
  {
    hide Group;
    var expanded := ExpandHRP(hrp);
    var mod := PolyMod(expanded + values + ZEROS);
    mod := Xor(mod, 1);
    ret := [];
    for i := 0 to 6
      invariant ret == Groups(mod)[..i]
    {
      ret := ret + [Group(mod, i)];
    }
  }

  method Encode(hrp: Text, values: Bytes) returns (ret: Text)
    ensures ret == T.Encode(hrp, values)
  {
    hide C.Checksum, Symbol;
    var checksum := CreateChecksum(hrp, values);
    var combined := values + checksum;
    ChecksumIsFives(T.ExpandHRP(hrp) + values);
    ret := hrp + [SEPARATOR];
    for i := 0 to |combined|
      invariant Fives(combined[..i]) && ret == hrp + [SEPARATOR] + Symbols(combined[..i])
    {
      if combined[i] >= 32 {
        assert i < |values| && values[i] >= 32;
        return [];
      }
      assert Symbols(combined[..i + 1]) == Symbols(combined[..i]) + [Symbol(combined[i])];
      ret := ret + [Symbol(combined[i])];
    }
    assert combined[..|combined|] == combined;
    assert forall i | 0 <= i < |values| :: values[i] == combined[i];
  }

  // The pass over all characters.
  method Inspect(t: Text) returns (ok: bool, lower: bool, upper: bool)
    ensures ok <==> AllPrintable(t)
    ensures ok ==> (lower <==> HasLower(t)) && (upper <==> HasUpper(t))
  {
    lower, upper := false, false;
    for i := 0 to |t|
      invariant AllPrintable(t[..i])
      invariant lower <==> exists k :: 0 <= k < i && IsLower(t[k])
      invariant upper <==> exists k :: 0 <= k < i && IsUpper(t[k])
    {
      if t[i] < 33 || t[i] > 126 {
        assert !IsPrintable(t[i]);
        return false, lower, upper;
      }
      if t[i] >= 0x61 && t[i] <= 0x7a {
        assert IsLower(t[i]);
        lower := true;
      }
      if t[i] >= 0x41 && t[i] <= 0x5a {
        assert IsUpper(t[i]);
        upper := true;
      }
    }
    assert t[..|t|] == t;
    ok := true;
  }

  // The position of the last separator, or -1.
  method FindSeparator(t: Text) returns (pos: int)
    ensures pos == LastSeparator(t)
  {
    pos := |t| - 1;
    assert t[..pos + 1] == t;
    while pos >= 0 && t[pos] != SEPARATOR
      invariant -1 <= pos < |t| && LastSeparator(t[..pos + 1]) == LastSeparator(t)
    {
      assert t[..pos + 1][..pos] == t[..pos];
      pos := pos - 1;
    }
    if pos >= 0 {
      assert t[..pos + 1][pos] == SEPARATOR;
    }
  }

  method ReadValues(t: Text) returns (ok: bool, values: Bytes)
    ensures ok <==> AllSymbols(t)
    ensures ok ==> values == Values(t) && |values| == |t|
  {
    hide SymbolValue;
    values := [];
    for i := 0 to |t|
      invariant AllSymbols(t[..i]) && values == Values(t[..i])
    {
      var rev := SymbolValue(t[i]);
      if rev == NO_SYMBOL {
        return false, values;
      }
      assert Values(t[..i + 1]) == Values(t[..i]) + [rev];
      values := values + [rev];
    }
    assert t[..|t|] == t;
    ok := true;
  }

  method Lower(t: Text) returns (ret: Text)
    ensures ret == LowerAll(t)
  {
    ret := [];
    for i := 0 to |t|
      invariant ret == LowerAll(t[..i])
    {
      assert LowerAll(t[..i + 1]) == LowerAll(t[..i]) + [LowerCase(t[i])];
      ret := ret + [LowerCase(t[i])];
    }
    assert t[..|t|] == t;
  }

  method Decode(t: Text) returns (r: Option<(Text, Bytes)>)
    ensures r == T.Decode(t)
  {
    hide AllPrintable, HasLower, HasUpper, AllSymbols, Values, Verifies, LowerAll, LastSeparator;
    var ok, lower, upper := Inspect(t);
    if !ok || (lower && upper) {
      return None;
    }
    var pos := FindSeparator(t);
    if |t| > MAX_LENGTH || pos == -1 || pos == 0 || pos + 7 > |t| {
      return None;
    }
    var valid, values := ReadValues(t[pos + 1..]);
    if !valid {
      return None;
    }
    var hrp := Lower(t[..pos]);
    var verified := VerifyChecksum(hrp, values);
    if !verified {
      return None;
    }
    return Some((hrp, values[..|values| - 6]));
  }
}
