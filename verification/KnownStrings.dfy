/**
 Alphabets, and strings whose encodings are known.
 */
module KnownStrings {
  import opened Options
  import opened Powers
  import opened Radix
  import B = Base58
  import D = Base58Codec
  import C = Bech32Checksum
  import T = Bech32

  const BASE58_START: string := "123456789ABCDEFGHJKLMN"
  const BASE58_REST: string := "PQRSTUVWXYZabcdefghijkmnopqrstuvwxyz"
  const BECH32_ALPHABET: string := "qpzry9x8gf2tvdw0s3jn54khce6mua7l"

  // The symbol of each value is its letter of the alphabet.
  lemma Base58Alphabet(d: nat)
    requires d < 58
    ensures B.Symbol(d) == (BASE58_START + BASE58_REST)[d]
  {
    if d < 22 { Base58First(d); } else { Base58Last(d); }
  }

  lemma Base58First(d: nat)
    requires d < 22
    ensures BASE58_START[d] as int == d + (if d < 9 then 49 else if d < 17 then 56 else 57)
  {
  }

  lemma Base58Last(d: nat)
    requires 22 <= d < 58
    ensures BASE58_REST[d - 22] as int == d + (if d < 33 then 58 else if d < 44 then 64 else 65)
  {
  }

  /* ----- What Base58 accepts ----- */

  const BLANKS: string := " \t\n\U{b}\U{c}\r"

  // Blanks, letters of the alphabet, blanks.
  predicate Splits(t: string, a: string, w: string, z: string) {
    && t == a + w + z && (forall c | c in a + z :: c in BLANKS)
    && (forall c | c in w :: c in BASE58_START + BASE58_REST)
  }

  lemma BlankIff(c: char)
    ensures c in BLANKS <==> B.IsSpace(c)
  {
    assert BLANKS == [' ', 9 as char, 10 as char, 11 as char, 12 as char, 13 as char];
  }

  lemma LetterIff(c: char)
    ensures c in BASE58_START + BASE58_REST <==> B.SymbolValue(c) >= 0
  {
    hide B.Symbol, B.SymbolValue;
    var letters := BASE58_START + BASE58_REST;
    if d :| 0 <= d < |letters| && letters[d] == c {
      Base58Alphabet(d);
      B.SymbolHasValue(d);
    }
    if B.SymbolValue(c) >= 0 {
      B.ValueHasSymbol(c);
      Base58Alphabet(B.SymbolValue(c));
      assert letters[B.SymbolValue(c)] == c;
    }
  }

  lemma {:induction false} SpacesBefore(t: string)
    ensures var n := |t| - |B.DropSpaces(t)|; n >= 0 && B.AllSpaces(t[..n]) && t[n..] == B.DropSpaces(t)
  {
    if t != [] && B.IsSpace(t[0]) {
      SpacesBefore(t[1..]);
      var n := |t| - |B.DropSpaces(t)|;
      assert t[..n] == [t[0]] + t[1..][..n - 1] && t[n..] == t[1..][n - 1..];
    }
  }

  // A string is accepted, lengths aside, if and only if it is letters of the alphabet with blanks around them, and then
  // those letters are what is decoded.
  lemma AcceptedIff(t: string)
    ensures B.WellFormed(t) <==> exists a, w, z :: Splits(t, a, w, z)
    ensures forall a, w, z | Splits(t, a, w, z) :: B.Word(t) == w
  {
    hide B.WellFormed, B.Word, Splits;
    if B.WellFormed(t) { AcceptedSplits(t); }
    forall a, w, z | Splits(t, a, w, z) ensures B.WellFormed(t) && B.Word(t) == w {
      SplitsIs(t, a, w, z);
      SplitIsAccepted(t, a, w, z);
    }
  }

  lemma SplitsIs(t: string, a: string, w: string, z: string)
    ensures Splits(t, a, w, z) <==> t == a + w + z && B.AllSpaces(a) && B.AllSpaces(z) && B.AllSymbols(w)
  {
    hide B.IsSpace, B.SymbolValue;
    forall c ensures c in BLANKS <==> B.IsSpace(c) { BlankIff(c); }
    forall c ensures c in BASE58_START + BASE58_REST <==> B.SymbolValue(c) >= 0 { LetterIff(c); }
    assert forall c :: c in a + z <==> c in a || c in z;
  }

  lemma AcceptedSplits(t: string)
    requires B.WellFormed(t)
    ensures exists a, w, z :: Splits(t, a, w, z)
  {
    hide Splits, B.DropSpaces, B.WordLength, B.AllSpaces, B.AllSymbols;
    SpacesBefore(t);
    var n, rest := |t| - |B.DropSpaces(t)|, B.DropSpaces(t);
    var k := B.WordLength(rest);
    assert t == t[..n] + rest[..k] + rest[k..];
    SplitsIs(t, t[..n], rest[..k], rest[k..]);
  }

  lemma SplitIsAccepted(t: string, a: string, w: string, z: string)
    requires t == a + w + z && B.AllSpaces(a) && B.AllSpaces(z) && B.AllSymbols(w)
    ensures B.WellFormed(t) && B.Word(t) == w
  {
    hide B.IsSpace, B.SymbolValue;
    forall i | 0 <= i < |w| ensures !B.IsSpace(w[i]) { B.ValueHasSymbol(w[i]); }
    if w == [] {
      assert t[..|t|] == t && t[|t|..] == [];
      D.SpacesDropped(t, |t|);
    } else {
      assert t[..|a|] == a && t[|a|] == w[0] && t[|a|..] == w + z;
      D.SpacesDropped(t, |a|);
      assert (w + z)[..|w|] == w && (w + z)[|w|..] == z;
      D.WordReaches(w + z, |w|);
    }
  }

  lemma Bech32Alphabet(v: bv8)
    requires v < 32
    ensures T.Symbol(v) as int == BECH32_ALPHABET[v as int] as int
  {
    if v < 16 { Bech32First(v); } else { Bech32Last(v); }
  }

  lemma Bech32First(v: bv8)
    requires v < 16
    ensures T.Symbol(v) as int == BECH32_ALPHABET[v as int] as int
  {
    match v
    case 0 => case 1 => case 2 => case 3 => case 4 => case 5 => case 6 => case 7 =>
    case 8 => case 9 => case 10 => case 11 => case 12 => case 13 => case 14 => case _ =>
  }

  lemma Bech32Last(v: bv8)
    requires 16 <= v < 32
    ensures T.Symbol(v) as int == BECH32_ALPHABET[v as int] as int
  {
    match v
    case 16 => case 17 => case 18 => case 19 => case 20 => case 21 => case 22 => case 23 =>
    case 24 => case 25 => case 26 => case 27 => case 28 => case 29 => case 30 => case _ =>
  }

  // The byte of "a" is "2g" in base 58, and a zero byte in front of it is a one.
  lemma Base58String()
    ensures B.Encode([0x61]) == "2g" && B.Encode([0, 0x61]) == "12g"
  {
    KnownValue();
    KnownZeros();
    KnownDigits();
    hide B.Symbol, B.CountZeros, Val, Digits, B.Symbols;
  }

  lemma KnownValue()
    ensures Val([0x61], 256) == 97 && Val([0, 0x61], 256) == 97
  {
    hide Times;
    TimesZero(256);
    var a: seq<nat>, b: seq<nat>, z: seq<nat> := [0x61], [0, 0x61], [0];
    assert a[..0] == [] && b[..1] == z && z[..0] == [];
    assert Val(z, 256) == 0;
  }

  lemma KnownZeros()
    ensures B.CountZeros([0x61]) == 0 && B.CountZeros([0, 0x61]) == 1 && B.Ones(0) == "" && B.Ones(1) == "1"
  {
    var b: seq<nat> := [0, 0x61];
    assert b[1..] == [0x61];
    assert B.CountZeros([0x61]) == 0;
  }

  lemma KnownDigits()
    ensures Fit(Digits(97, 58), 58) && B.Symbols(Digits(97, 58)) == "2g"
  {
    assert Digits(0, 58) == [] && Digits(1, 58) == [1] && Digits(97, 58) == [1, 39];
    TwoLetters();
  }

  lemma TimesZero(n: nat)
    ensures Times(0, n) == 0
  {
  }

  lemma TwoLetters()
    ensures B.Symbol(1) == '2' && B.Symbol(39) == 'g'
  {
  }

  // A fold, step by step.
  lemma {:induction false} Folds(c: bv32, v: C.Bytes, states: seq<bv32>)
    requires |states| == |v| + 1 && states[0] == c
    requires forall i | 0 <= i < |v| :: states[i + 1] == C.PolyStep(states[i], v[i])
    ensures C.Fold(c, v) == states[|v|]
  {
    hide C.PolyStep;
    if v != [] {
      var n := |v| - 1;
      Folds(c, v[..n], states[..n + 1]);
      assert states[n + 1] == C.PolyStep(states[n], v[n]);
    }
  }

  const KNOWN: T.Text := [0x41, 0x31, 0x32, 0x55, 0x45, 0x4c, 0x35, 0x4c]

  lemma KnownSymbols()
    ensures T.SymbolValue(0x32) == 10 && T.SymbolValue(0x55) == 28 && T.SymbolValue(0x45) == 25
    ensures T.SymbolValue(0x4c) == 31 && T.SymbolValue(0x35) == 20
  {
  }

  lemma KnownCase()
    ensures T.AllPrintable(KNOWN) && !T.HasLower(KNOWN)
  {
  }

  lemma KnownChecksum()
    ensures C.PolyMod([3, 0, 1, 10, 28, 25, 31, 20, 31]) == 1
  {
    Folds(1, [3, 0, 1, 10, 28, 25, 31, 20, 31],
          [1, 35, 1120, 35841, 1146922, 36701532, 1030421547, 49824646, 610412390, 1]);
  }

  // "A12UEL5L" is the human-readable part "a" and no values.
  lemma Bech32String()
    ensures T.Decode(KNOWN) == Some(([0x61], []))
  {
    hide T.SymbolValue, T.AllPrintable, T.HasLower, T.HasUpper, C.PolyMod, T.LastSeparator;
    KnownCase();
    KnownSymbols();
    KnownChecksum();
    T.SeparatorAt(KNOWN, 1);
    assert T.LowerAll(KNOWN[..1]) == [0x61];
    assert T.AllSymbols(KNOWN[2..]) && T.Values(KNOWN[2..]) == [10, 28, 25, 31, 20, 31];
    assert T.ExpandHRP([0x61]) == [3, 0, 1];
    assert T.ExpandHRP([0x61]) + T.Values(KNOWN[2..]) == [3, 0, 1, 10, 28, 25, 31, 20, 31];
    assert T.Verifies([0x61], T.Values(KNOWN[2..]));
    assert T.Values(KNOWN[2..])[..0] == [];
    assert T.DecodeAt(KNOWN, 1) == Some(([0x61], []));
  }
}
