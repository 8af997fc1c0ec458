/**
 Base58: byte strings as numbers in base 58, with the leading zero bytes written as ones.
 The conversion works in place on a buffer whose size is estimated beforehand; the estimate
 always suffices.
 */
module Radix {
  import opened Powers

  // Digits are written most significant first.
  predicate Fit(d: seq<nat>, base: nat) {
    forall i | 0 <= i < |d| :: d[i] < base
  }

  function Val(d: seq<nat>, base: nat): nat {
    if d == [] then 0 else Times(Val(d[..|d| - 1], base), base) + d[|d| - 1]
  }

  function Digits(v: nat, base: nat): seq<nat>
    requires base >= 2
  {
    if v == 0 then [] else Digits(v / base, base) + [v % base]
  }

  predicate NoLeadingZero(d: seq<nat>) {
    d != [] ==> d[0] != 0
  }

  function Zeros(n: nat): seq<nat> {
    seq(n, i => 0)
  }

  lemma {:induction false} ValBound(d: seq<nat>, base: nat)
    requires Fit(d, base) && base >= 1
    ensures Val(d, base) < Pow(base, |d|)
  {
    if d != [] {
      var init := d[..|d| - 1];
      ValBound(init, base);
      MulMono(Val(init, base) + 1, Pow(base, |init|), base);
      assert (Val(init, base) + 1) * base == Val(init, base) * base + base;
    }
  }

  // A digit put in front counts for the power above the others.
  lemma {:induction false} ValCons(x: nat, d: seq<nat>, base: nat)
    ensures Val([x] + d, base) == Times(x, Pow(base, |d|)) + Val(d, base)
  {
    if d == [] {
      assert ([x] + d)[..0] == [];
    } else {
      var init := d[..|d| - 1];
      assert ([x] + d)[..|d|] == [x] + init;
      ValCons(x, init, base);
      var p := Pow(base, |init|);
      assert (x * p + Val(init, base)) * base == x * (base * p) + Val(init, base) * base by { MulAssoc(x, p, base); }
    }
  }

  lemma {:induction false} ValZeros(n: nat, d: seq<nat>, base: nat)
    ensures Val(Zeros(n) + d, base) == Val(d, base)
  {
    if n == 0 {
      assert Zeros(n) + d == d;
    } else {
      ValZeros(n - 1, d, base);
      assert Zeros(n) + d == [0] + (Zeros(n - 1) + d);
      ValCons(0, Zeros(n - 1) + d, base);
    }
  }

  lemma {:induction false} DigitsHaveValue(v: nat, base: nat)
    requires base >= 2
    ensures Fit(Digits(v, base), base) && NoLeadingZero(Digits(v, base)) && Val(Digits(v, base), base) == v
  {
    if v > 0 {
      Shrinks(v, base);
      DigitsHaveValue(v / base, base);
      DivMod(v, base);
      if v / base == 0 { assert v == v % base; }
    }
  }

  lemma Shrinks(v: nat, base: nat)
    requires v > 0 && base >= 2
    ensures 0 <= v / base < v
  {
    DivLess(v, base, v);
  }

  lemma {:induction false} DigitsAreUnique(d: seq<nat>, base: nat)
    requires base >= 2 && Fit(d, base) && NoLeadingZero(d)
    ensures Digits(Val(d, base), base) == d && (d != [] ==> Val(d, base) > 0)
  {
    if d != [] {
      var init, last := d[..|d| - 1], d[|d| - 1];
      DigitsAreUnique(init, base);
      DivModUnique(Val(d, base), base, Val(init, base), last);
      MulAtLeast(base, Val(init, base));
    }
  }

  lemma {:induction false} LengthBounds(v: nat, base: nat)
    requires base >= 2
    ensures var n := |Digits(v, base)|; v < Pow(base, n) && (n > 0 <==> v > 0) && (v > 0 ==> Pow(base, n - 1) <= v)
  {
    var d := Digits(v, base);
    DigitsHaveValue(v, base);
    ValBound(d, base);
    if v > 0 {
      assert d == [d[0]] + d[1..];
      ValCons(d[0], d[1..], base);
      MulAtLeast(d[0], Pow(base, |d| - 1));
    }
  }

  lemma LengthIs(v: nat, base: nat, n: nat)
    requires base >= 2 && v < Pow(base, n) && (n > 0 ==> Pow(base, n - 1) <= v)
    ensures |Digits(v, base)| == n
  {
    LengthBounds(v, base);
    var m := |Digits(v, base)|;
    if m < n { PowMono(base, m, n - 1); } else if m > n { PowMono(base, n, m - 1); }
  }

  // A buffer holds the digits of its value at its end, after zeros.
  lemma {:induction false} BufferHolds(b: seq<nat>, base: nat)
    requires base >= 2 && Fit(b, base)
    ensures var d := Digits(Val(b, base), base); |d| <= |b| && b == Zeros(|b| - |d|) + d
  {
    if b == [] {
    } else if b[0] != 0 {
      DigitsAreUnique(b, base);
      assert Zeros(0) + b == b;
    } else {
      var rest := b[1..];
      assert b == [0] + rest;
      ValCons(0, rest, base);
      BufferHolds(rest, base);
      var d := Digits(Val(b, base), base);
      assert b == [0] + (Zeros(|rest| - |d|) + d);
    }
  }

  /* ----- The buffer is multiplied and added to, from the end ----- */

  lemma SuffixStep(b: seq<nat>, i: nat, base: nat)
    requires i < |b|
    ensures Val(b[|b| - 1 - i..], base) == Times(b[|b| - 1 - i], Pow(base, i)) + Val(b[|b| - i..], base)
  {
    assert b[|b| - 1 - i..] == [b[|b| - 1 - i]] + b[|b| - i..];
    ValCons(b[|b| - 1 - i], b[|b| - i..], base);
  }

  function NewDigit(carry: nat, mult: nat, x: nat, base: nat): nat
    requires base >= 1
  {
    (carry + Times(mult, x)) % base
  }

  function NewCarry(carry: nat, mult: nat, x: nat, base: nat): nat
    requires base >= 1
  {
    DivLess(carry + Times(mult, x), base, carry + Times(mult, x) + 1);
    (carry + Times(mult, x)) / base
  }

  // The digit at place i, from the end, and the carry.
  lemma CarryStep(low: nat, carry: nat, rest: nat, x: nat, mult: nat, p: nat, base: nat, c: nat)
    requires base > 0 && low + Times(carry, p) == Times(rest, mult) + c
    ensures Times(NewDigit(carry, mult, x, base), p) + low + Times(NewCarry(carry, mult, x, base), Times(base, p))
         == Times(Times(x, p) + rest, mult) + c
  {
    var n := carry + mult * x;
    DivMod(n, base);
    assert (n % base) * p + (n / base) * (base * p) == n * p by { MulAssoc(n / base, base, p); }
    assert n * p == carry * p + (mult * x) * p;
    assert (x * p + rest) * mult == (x * p) * mult + rest * mult;
    assert (mult * x) * p == (x * p) * mult by { MulAssoc(mult, x, p); }
  }

  // From the digits of the value on, a suffix has the whole value.
  lemma SuffixIsWhole(b: seq<nat>, i: nat, base: nat)
    requires base >= 2 && Fit(b, base) && |Digits(Val(b, base), base)| <= i <= |b|
    ensures Val(b[|b| - i..], base) == Val(b, base) && forall k | 0 <= k < |b| - i :: b[k] == 0
  {
    BufferHolds(b, base);
    var n := |b| - i;
    assert forall k | 0 <= k < n :: b[k] == 0;
    assert b == Zeros(n) + b[n..];
    ValZeros(n, b[n..], base);
  }

  // The carry stays below the factor.
  lemma CarryFits(carry: nat, mult: nat, x: nat, base: nat)
    requires carry < mult && x < base
    ensures NewCarry(carry, mult, x, base) < mult && carry + Times(mult, x) < mult * base
    ensures NewDigit(carry, mult, x, base) < base
  {
    assert mult * x + mult <= mult * base by { MulMono(x + 1, base, mult); assert (x + 1) * mult == x * mult + mult; }
    DivLess(carry + mult * x, base, mult);
  }

  // After i places the last i digits are new, and the carry is due at the next.
  ghost predicate Converted(cur: seq<nat>, before: seq<nat>, i: nat, carry: nat, base: nat, mult: nat, c: nat) {
    && |cur| == |before| && i <= |cur| && Fit(cur, base) && cur[..|cur| - i] == before[..|cur| - i]
    && Val(cur[|cur| - i..], base) + Times(carry, Pow(base, i)) == Times(Val(before[|cur| - i..], base), mult) + c
  }

  lemma ConvertNext(cur: seq<nat>, before: seq<nat>, i: nat, carry: nat, base: nat, mult: nat, c: nat)
    requires base >= 2 && Converted(cur, before, i, carry, base, mult, c) && i < |cur|
    ensures var at := |cur| - 1 - i;
            Converted(cur[at := NewDigit(carry, mult, cur[at], base)], before, i + 1,
                      NewCarry(carry, mult, cur[at], base), base, mult, c)
  {
    hide Val, Times, NewDigit, NewCarry, Pow;
    var at := |cur| - 1 - i;
    assert cur[at] == cur[..|cur| - i][at] == before[at];
    var cur' := cur[at := NewDigit(carry, mult, cur[at], base)];
    DigitFits(carry, mult, cur[at], base);
    CarryStep(Val(cur[|cur| - i..], base), carry, Val(before[|cur| - i..], base), cur[at], mult, Pow(base, i), base, c);
    PowNext(base, i);
    SuffixStep(cur', i, base);
    SuffixStep(before, i, base);
    assert cur'[|cur| - i..] == cur[|cur| - i..];
    assert cur'[..at] == cur[..|cur| - i][..at] == before[..at];
  }

  lemma DigitFits(carry: nat, mult: nat, x: nat, base: nat)
    requires base >= 1
    ensures NewDigit(carry, mult, x, base) < base
  {
  }

  lemma PowNext(base: nat, i: nat)
    ensures Pow(base, i + 1) == Times(base, Pow(base, i))
  {
  }

  lemma ConvertStarts(before: seq<nat>, base: nat, mult: nat, c: nat)
    requires base >= 2 && Fit(before, base)
    ensures Converted(before, before, 0, c, base, mult, c)
  {
    assert before[|before|..] == [];
  }

  // While the carry is not zero past the old digits, the new value has more of them.
  lemma ConvertGrows(cur: seq<nat>, before: seq<nat>, i: nat, carry: nat, base: nat, mult: nat, c: nat)
    requires base >= 2 && Fit(before, base) && Converted(cur, before, i, carry, base, mult, c)
    requires carry != 0 && i >= |Digits(Val(before, base), base)|
    ensures Times(Val(before, base), mult) + c >= Pow(base, i)
  {
    SuffixIsWhole(before, i, base);
    MulAtLeast(carry, Pow(base, i));
  }

  lemma ConvertEnds(cur: seq<nat>, before: seq<nat>, i: nat, carry: nat, base: nat, mult: nat, c: nat)
    requires base >= 2 && mult >= 1 && Fit(before, base) && Converted(cur, before, i, carry, base, mult, c)
    requires i <= |before| && |Digits(Val(before, base), base)| <= |before|
    requires var length := |Digits(Val(before, base), base)|; var target := Times(Val(before, base), mult) + c;
             && length <= i && target < Pow(base, |cur|) && (i > length ==> target >= Pow(base, i - 1))
             && (carry == 0 || i == |cur|)
    ensures carry == 0 && Val(cur, base) == Times(Val(before, base), mult) + c && |Digits(Val(cur, base), base)| == i
  {
    hide Val, Digits, Pow, Times;
    SuffixIsWhole(before, i, base);
    NothingCarried(Val(cur[|cur| - i..], base), carry, Pow(base, i), Times(Val(before, base), mult) + c);
    SameValue(cur, before, i, base);
    NewLength(Val(before, base), mult, c, base, i, cur);
  }

  lemma NothingCarried(low: nat, carry: nat, p: nat, target: nat)
    requires low + Times(carry, p) == target && (carry == 0 || target < p)
    ensures carry == 0 && low == target
  {
    if carry != 0 { MulAtLeast(carry, p); }
  }

  lemma SameValue(cur: seq<nat>, before: seq<nat>, i: nat, base: nat)
    requires |cur| == |before| && i <= |cur| && cur[..|cur| - i] == before[..|cur| - i]
    requires forall k | 0 <= k < |before| - i :: before[k] == 0
    ensures Val(cur, base) == Val(cur[|cur| - i..], base)
  {
    var n := |cur| - i;
    assert forall k | 0 <= k < n :: cur[k] == cur[..n][k] == before[..n][k] == before[k];
    assert cur == Zeros(n) + cur[n..];
    ValZeros(n, cur[n..], base);
  }

  lemma NewLength(v: nat, mult: nat, c: nat, base: nat, i: nat, cur: seq<nat>)
    requires base >= 2 && mult >= 1 && i <= |cur| && Fit(cur, base) && Val(cur[|cur| - i..], base) == Times(v, mult) + c
    requires |Digits(v, base)| <= i && (i > |Digits(v, base)| ==> Times(v, mult) + c >= Pow(base, i - 1))
    ensures |Digits(Times(v, mult) + c, base)| == i
  {
    hide Digits, Val, Pow;
    ValBound(cur[|cur| - i..], base);
    LengthBounds(v, base);
    MulAtLeast(mult, v);
    LengthIs(Times(v, mult) + c, base, i);
  }

  // One digit of it.
  method Place(b: array<nat>, at: nat, base: nat, mult: nat, carry: nat) returns (carry': nat)
    requires base >= 2 && carry < mult && at < b.Length && Fit(b[..], base)
    modifies b
    ensures b[..] == old(b[..])[at := NewDigit(carry, mult, old(b[at]), base)] && Fit(b[..], base)
    ensures carry' == NewCarry(carry, mult, old(b[at]), base) < mult
  {
    CarryFits(carry, mult, b[at], base);
    var n := carry + mult * b[at];
    b[at] := n % base;
    carry' := n / base;
    assert b[..] == old(b[..])[at := NewDigit(carry, mult, old(b[at]), base)];
  }

  // The buffer times mult, plus c, in place. It is large enough, so nothing is carried out of it.
  method MulAdd(b: array<nat>, base: nat, mult: nat, c: nat, length: nat) returns (n: nat)
    requires base >= 2 && c < mult && Fit(b[..], base)
    requires length == |Digits(Val(b[..], base), base)|
    requires Times(Val(b[..], base), mult) + c < Pow(base, b.Length)
    modifies b
    ensures Fit(b[..], base) && Val(b[..], base) == Times(old(Val(b[..], base)), mult) + c
    ensures n == |Digits(Val(b[..], base), base)| <= b.Length
  {
    hide Val, Digits, Pow, Times, Converted, NewDigit, NewCarry;
    ghost var before := b[..];
    BufferHolds(before, base);
    ConvertStarts(before, base, mult, c);
    var carry: nat, i := c, 0;
    while (carry != 0 || i < length) && i < b.Length
      invariant 0 <= i <= b.Length && carry < mult && Fit(b[..], base) &&
                Converted(b[..], before, i, carry, base, mult, c)
      invariant i > length ==> Times(Val(before, base), mult) + c >= Pow(base, i - 1)
      decreases b.Length - i
    {
      ConvertNext(b[..], before, i, carry, base, mult, c);
      if i >= length { ConvertGrows(b[..], before, i, carry, base, mult, c); }
      carry := Place(b, b.Length - 1 - i, base, mult, carry);
      i := i + 1;
    }
    ConvertEnds(b[..], before, i, carry, base, mult, c);
    assert carry == 0;
    n := i;
  }
}

module Base58 {
  import opened Options
  import opened Powers
  import opened Radix

  type Byte = x: nat | x < 256

  /* ----- The buffers are large enough ----- */

  // 58^11 >= 256^8 and 58^71 <= 256^52.
  lemma CloseRatios()
    ensures Pow(58, 11) >= Pow(256, 8) && Pow(58, 71) <= Pow(256, 52)
  {
    assert Pow(58, 1) == 58;
    assert Pow(256, 1) == 256;
    PowAdd(58, 1, 1);
    assert Pow(58, 2) == 0xd24;
    PowAdd(58, 2, 2);
    assert Pow(58, 4) == 0xacad10;
    PowAdd(58, 4, 4);
    assert Pow(58, 8) == 0x7479027ea100;
    PowAdd(58, 2, 1);
    assert Pow(58, 3) == 0x2fa28;
    PowAdd(58, 8, 3);
    assert Pow(58, 11) == 0x15ac264554f032800;
    PowAdd(58, 8, 8);
    assert Pow(58, 16) == 0x34fde3761da26b26e1410000;
    PowAdd(58, 16, 16);
    assert Pow(58, 32) == 0xaf820335d9b3d9cf58b911d87035677fb7f528100000000;
    PowAdd(58, 32, 32);
    assert Pow(58, 64)
           == 0x7853026ae25f4ce0c69893e6f1f86f67aef4db69563516064adeb967a9d66f4fe64b09ec94e5010000000000000000;
    PowAdd(58, 4, 3);
    assert Pow(58, 7) == 0x202161caa80;
    PowAdd(58, 64, 7);
    assert Pow(58, 71)
           == 0xf1a10f76073f997e1af0b37f5c795ecf145633452837a5de3fa17ac74b86f60a0ebe5446f358940a4ca12a800000000000000000;
    PowAdd(256, 1, 1);
    assert Pow(256, 2) == 0x10000;
    PowAdd(256, 2, 2);
    assert Pow(256, 4) == 0x100000000;
    PowAdd(256, 4, 4);
    assert Pow(256, 8) == 0x10000000000000000;
    PowAdd(256, 8, 8);
    assert Pow(256, 16) == 0x100000000000000000000000000000000;
    PowAdd(256, 16, 16);
    assert Pow(256, 32) == 0x10000000000000000000000000000000000000000000000000000000000000000;
    PowAdd(256, 32, 16);
    assert Pow(256, 48)
           == 0x1000000000000000000000000000000000000000000000000000000000000000000000000000000000000000000000000;
    PowAdd(256, 48, 4);
    assert Pow(256, 52)
           == 0x100000000000000000000000000000000000000000000000000000000000000000000000000000000000000000000000000000000;
  }

  lemma {:induction false} PowBaseMono(a: nat, b: nat, n: nat)
    requires a <= b
    ensures Pow(a, n) <= Pow(b, n)
  {
    if n > 0 {
      PowBaseMono(a, b, n - 1);
      MulMono(a, b, Pow(a, n - 1));
      MulMono(Pow(a, n - 1), Pow(b, n - 1), b);
    }
  }

  lemma {:induction false} PowBaseStrict(a: nat, b: nat, n: nat)
    requires a < b && n > 0
    ensures Pow(a, n) < Pow(b, n)
  {
    if n == 1 {
      assert Pow(a, 1) == a && Pow(b, 1) == b;
    } else {
      PowBaseStrict(a, b, n - 1);
      MulMono(a, b, Pow(a, n - 1));
      MulMono(Pow(a, n - 1) + 1, Pow(b, n - 1), b);
      assert (Pow(a, n - 1) + 1) * b == Pow(a, n - 1) * b + b;
    }
  }

  // If a^p <= b^q and q n <= p s, then a^n <= b^s.
  lemma Outgrows(a: nat, p: nat, b: nat, q: nat, n: nat, s: nat)
    requires p > 0 && b >= 1 && Pow(a, p) <= Pow(b, q) && Times(q, n) <= Times(p, s)
    ensures Pow(a, n) <= Pow(b, s)
  {
    PowPow(a, n, p);
    PowPow(a, p, n);
    PowPow(b, q, n);
    PowPow(b, s, p);
    assert n * p == p * n && s * p == p * s;
    PowBaseMono(Pow(a, p), Pow(b, q), n);
    PowMono(b, q * n, p * s);
    if Pow(a, n) > Pow(b, s) { PowBaseStrict(Pow(b, s), Pow(a, n), p); }
  }

  lemma EncodeBufferSuffices(n: nat)
    ensures Pow(256, n) <= Pow(58, n * 138 / 100 + 1)
  {
    CloseRatios();
    hide Pow;
    Outgrows(256, 8, 58, 11, n, n * 138 / 100 + 1);
  }

  lemma DecodeBufferSuffices(n: nat)
    ensures Pow(58, n) <= Pow(256, n * 733 / 1000 + 1)
  {
    CloseRatios();
    hide Pow;
    Outgrows(58, 71, 256, 52, n, n * 733 / 1000 + 1);
  }

  /* ----- The alphabet ----- */

  // The digits and letters in order, without 0, I, O and l.
  function Symbol(d: nat): char
    requires d < 58
  {
    if d < 9 then (d + 49) as char
    else if d < 17 then (d + 56) as char
    else if d < 22 then (d + 57) as char
    else if d < 33 then (d + 58) as char
    else if d < 44 then (d + 64) as char
    else (d + 65) as char
  }

  // The place of a character in the alphabet, or -1.
  function SymbolValue(c: char): (d: int)
    ensures -1 <= d < 58
  {
    var n := c as int;
    if '1' <= c <= '9' then n - 49
    else if 'A' <= c <= 'H' then n - 56
    else if 'J' <= c <= 'N' then n - 57
    else if 'P' <= c <= 'Z' then n - 58
    else if 'a' <= c <= 'k' then n - 64
    else if 'm' <= c <= 'z' then n - 65
    else -1
  }

  lemma SymbolHasValue(d: nat)
    requires d < 58
    ensures SymbolValue(Symbol(d)) == d && !IsSpace(Symbol(d)) && (Symbol(d) == '1' <==> d == 0)
  {
  }

  lemma ValueHasSymbol(c: char)
    requires SymbolValue(c) >= 0
    ensures Symbol(SymbolValue(c)) == c && !IsSpace(c) && (c == '1' <==> SymbolValue(c) == 0)
  {
  }

  predicate IsSpace(c: char) {
    c == ' ' || 9 <= c as int <= 13
  }

  /* ----- Encoding and decoding ----- */

  function CountZeros(d: seq<nat>): nat {
    if d != [] && d[0] == 0 then 1 + CountZeros(d[1..]) else 0
  }

  function CountOnes(w: string): nat {
    if w != [] && w[0] == '1' then 1 + CountOnes(w[1..]) else 0
  }

  function Ones(n: nat): string {
    seq(n, i => '1')
  }

  function Symbols(d: seq<nat>): string
    requires Fit(d, 58)
  {
    seq(|d|, i requires 0 <= i < |d| => Symbol(d[i]))
  }

  predicate AllSymbols(w: string) {
    forall i | 0 <= i < |w| :: SymbolValue(w[i]) >= 0
  }

  function Values(w: string): seq<nat>
    requires AllSymbols(w)
  {
    seq(|w|, i requires 0 <= i < |w| => SymbolValue(w[i]))
  }

  function Encode(b: seq<Byte>): string {
    DigitsHaveValue(Val(b, 256), 58);
    Ones(CountZeros(b)) + Symbols(Digits(Val(b, 256), 58))
  }

  function DecodeWord(w: string): seq<Byte>
    requires AllSymbols(w)
  {
    DigitsHaveValue(Val(Values(w), 58), 256);
    Zeros(CountOnes(w)) + Digits(Val(Values(w), 58), 256)
  }

  predicate AllSpaces(t: string) { forall i | 0 <= i < |t| :: IsSpace(t[i]) }

  predicate NoSpaces(t: string) { forall i | 0 <= i < |t| :: !IsSpace(t[i]) }

  function DropSpaces(t: string): string {
    if t != [] && IsSpace(t[0]) then DropSpaces(t[1..]) else t
  }

  function WordLength(t: string): (n: nat)
    ensures n <= |t|
  {
    if t == [] || IsSpace(t[0]) then 0 else 1 + WordLength(t[1..])
  }

  // What stands between leading and trailing spaces.
  function Word(t: string): string {
    DropSpaces(t)[..WordLength(DropSpaces(t))]
  }

  // One word of symbols, with spaces around it.
  predicate WellFormed(t: string) {
    AllSymbols(Word(t)) && AllSpaces(DropSpaces(t)[WordLength(DropSpaces(t))..])
  }

  function Decode(t: string, maxLength: int): Option<seq<Byte>> {
    if !WellFormed(t) || (Word(t) != [] && |DecodeWord(Word(t))| > maxLength) then None else Some(DecodeWord(Word(t)))
  }

  /* ----- The round trips ----- */

  lemma {:induction false} LeadingZeros(n: nat, d: seq<nat>)
    requires NoLeadingZero(d)
    ensures CountZeros(Zeros(n) + d) == n
  {
    if n == 0 {
      assert Zeros(n) + d == d;
    } else {
      assert (Zeros(n) + d)[1..] == Zeros(n - 1) + d;
      LeadingZeros(n - 1, d);
    }
  }

  lemma {:induction false} LeadingOnes(w: string)
    requires AllSymbols(w)
    ensures CountOnes(w) == CountZeros(Values(w))
  {
    if w != [] {
      ValueHasSymbol(w[0]);
      if w[0] == '1' {
        assert Values(w)[1..] == Values(w[1..]);
        LeadingOnes(w[1..]);
      }
    }
  }

  // Digits with leading zeros: their number and the digits of the value.
  lemma SplitLeading(b: seq<nat>, base: nat)
    requires base >= 2 && Fit(b, base)
    ensures b == Zeros(CountZeros(b)) + Digits(Val(b, base), base)
  {
    BufferHolds(b, base);
    DigitsHaveValue(Val(b, base), base);
    LeadingZeros(|b| - |Digits(Val(b, base), base)|, Digits(Val(b, base), base));
  }

  lemma SymbolsRead(d: seq<nat>, z: nat)
    requires Fit(d, 58)
    ensures var w := Ones(z) + Symbols(d); AllSymbols(w) && NoSpaces(w) && Values(w) == Zeros(z) + d
  {
    hide Symbol, SymbolValue;
    forall i | 0 <= i < |d| ensures SymbolValue(Symbols(d)[i]) == d[i] && !IsSpace(Symbols(d)[i]) {
      SymbolHasValue(d[i]);
    }
    OneIsZero();
  }

  lemma OneIsZero()
    ensures SymbolValue('1') == 0 && !IsSpace('1')
  {
  }

  lemma ValuesWrite(w: string)
    requires AllSymbols(w)
    ensures Fit(Values(w), 58) && Symbols(Values(w)) == w && NoSpaces(w)
  {
    hide Symbol;
    forall i | 0 <= i < |w| ensures Symbol(Values(w)[i]) == w[i] && !IsSpace(w[i]) { ValueHasSymbol(w[i]); }
  }

  lemma WordRoundTrip(b: seq<Byte>)
    ensures AllSymbols(Encode(b)) && NoSpaces(Encode(b)) && DecodeWord(Encode(b)) == b
    ensures Encode(b) == [] <==> b == []
  {
    hide Val, Digits, Symbols, Symbol, SymbolValue;
    var v, z := Val(b, 256), CountZeros(b);
    var d, w := Digits(v, 58), Encode(b);
    DigitsHaveValue(v, 58);
    SymbolsRead(d, z);
    ValZeros(z, d, 58);
    LeadingOnes(w);
    LeadingZeros(z, d);
    SplitLeading(b, 256);
    EmptyEncodes(b);
  }

  lemma EmptyEncodes(b: seq<Byte>)
    ensures Encode(b) == [] <==> b == []
  {
    var v := Val(b, 256);
    SplitLeading(b, 256);
    LengthBounds(v, 256);
    LengthBounds(v, 58);
  }

  lemma {:induction false} NoSpacesIsWord(t: string)
    requires NoSpaces(t)
    ensures DropSpaces(t) == t && WordLength(t) == |t| && Word(t) == t && AllSpaces(DropSpaces(t)[WordLength(t)..])
  {
    if t != [] { NoSpacesIsWord(t[1..]); }
  }

  // Decoding gives back every byte string, unless it is longer than allowed.
  lemma RoundTrip(b: seq<Byte>, maxLength: int)
    ensures Decode(Encode(b), maxLength) == if b != [] && |b| > maxLength then None else Some(b)
  {
    hide Encode, DecodeWord;
    WordRoundTrip(b);
    NoSpacesIsWord(Encode(b));
  }

  lemma WordReturns(w: string)
    requires AllSymbols(w)
    ensures Encode(DecodeWord(w)) == w
  {
    hide Val, Digits, Symbol, SymbolValue;
    var d := Values(w);
    var v, z := Val(d, 58), CountOnes(w);
    ValuesWrite(w);
    DigitsHaveValue(v, 256);
    DigitsHaveValue(v, 58);
    LeadingOnes(w);
    LeadingZeros(z, Digits(v, 256));
    ValZeros(z, Digits(v, 256), 256);
    SplitLeading(d, 58);
    assert w == Symbols(Zeros(z) + Digits(v, 58));
    SymbolsJoin(z, Digits(v, 58));
  }

  lemma SymbolsJoin(z: nat, d: seq<nat>)
    requires Fit(d, 58)
    ensures Symbols(Zeros(z) + d) == Ones(z) + Symbols(d)
  {
  }

  // Encoding what was decoded gives back the word, that is, all of a string without spaces.
  lemma DecodeThenEncode(t: string, maxLength: int)
    requires Decode(t, maxLength).Some?
    ensures Encode(Decode(t, maxLength).value) == Word(t)
    ensures NoSpaces(t) ==> Encode(Decode(t, maxLength).value) == t
  {
    hide Encode, DecodeWord;
    WordReturns(Word(t));
    if NoSpaces(t) { NoSpacesIsWord(t); }
  }

  // Being rejected means being malformed or standing for something too long, except that nothing is accepted
  // under a negative limit.
  lemma RejectedIff(t: string, maxLength: int)
    ensures Decode(t, maxLength) == None
       <==> !WellFormed(t) || (|DecodeWord(Word(t))| > maxLength && (maxLength >= 0 || Word(t) != []))
    ensures WellFormed(t) ==>
              ((Decode(t, maxLength) == None <==> |DecodeWord(Word(t))| > maxLength)
                  <==> maxLength >= 0 || Word(t) != [])
  {
    hide DecodeWord;
    if Word(t) == [] { EmptyWord(); }
  }

  lemma EmptyWord()
    ensures DecodeWord("") == []
  {
    assert Values("") == [];
  }

  // Nothing is accepted whatever the limit.
  lemma NothingIsNeverTooLong()
    ensures Decode("", -1) == Some([])
  {
    EmptyWord();
  }
}

/** The code: both conversions, digit by digit in place. */
module Base58Codec {
  import opened Options
  import opened Powers
  import opened Radix
  import opened Base58

  lemma {:induction false} ZerosCounted(d: seq<nat>, n: nat)
    requires n <= |d| && (forall k | 0 <= k < n :: d[k] == 0) && (n == |d| || d[n] != 0)
    ensures CountZeros(d) == n && Val(d[n..], 256) == Val(d, 256)
  {
    assert d == Zeros(n) + d[n..];
    LeadingZeros(n, d[n..]);
    ValZeros(n, d[n..], 256);
  }

  // The value of the first bytes fits the buffer, whatever follows.
  lemma EncodeFits(rest: seq<Byte>, k: nat)
    requires k < |rest|
    ensures Val(rest[..k + 1], 256) == Times(Val(rest[..k], 256), 256) + rest[k]
    ensures Val(rest[..k + 1], 256) < Pow(58, |rest| * 138 / 100 + 1)
  {
    hide Pow;
    assert rest[..k + 1][..k] == rest[..k];
    ValBound(rest[..k + 1], 256);
    PowMono(256, k + 1, |rest|);
    EncodeBufferSuffices(|rest|);
  }

  // The digits of the bytes in base 58, at the end of a buffer.
  method ToBase58(rest: seq<Byte>) returns (b58: array<nat>, length: nat)
    ensures fresh(b58) && length <= b58.Length && Fit(b58[..], 58)
    ensures b58[b58.Length - length..] == Digits(Val(rest, 256), 58)
  {
    hide Val, Digits, Pow, Times;
    var size := |rest| * 138 / 100 + 1;
    b58 := new nat[size](i => 0);
    BufferStarts(b58[..], 58);
    Nothing(rest, 256);
    length := 0;
    for k := 0 to |rest|
      invariant fresh(b58) && b58.Length == size && Fit(b58[..], 58) && Val(b58[..], 58) == Val(rest[..k], 256)
      invariant length == |Digits(Val(b58[..], 58), 58)| <= size
    {
      EncodeFits(rest, k);
      length := MulAdd(b58, 58, 256, rest[k], length);
    }
    assert rest[..|rest|] == rest;
    BufferHolds(b58[..], 58);
    assert b58[size - length..] == b58[..][size - length..];
  }

  method SkipZeros(b: array<nat>, from: nat) returns (it: nat)
    requires from <= b.Length
    ensures from <= it <= b.Length && (forall k | from <= k < it :: b[k] == 0) && (it == b.Length || b[it] != 0)
  {
    it := from;
    while it < b.Length && b[it] == 0
      invariant from <= it <= b.Length && forall k | from <= k < it :: b[k] == 0
    {
      it := it + 1;
    }
  }

  method EncodeBase58(bytes: seq<Byte>) returns (str: string)
    ensures str == Encode(bytes)
  {
    hide Val, Digits, Symbol;
    var zeroes := 0;
    while zeroes < |bytes| && bytes[zeroes] == 0
      invariant zeroes <= |bytes| && forall k | 0 <= k < zeroes :: bytes[k] == 0
    {
      zeroes := zeroes + 1;
    }
    ZerosCounted(bytes, zeroes);
    var b58, length := ToBase58(bytes[zeroes..]);
    var start := b58.Length - length;
    DigitsHaveValue(Val(bytes, 256), 58);
    ghost var d := b58[start..];
    var it := SkipZeros(b58, start);
    assert length > 0 ==> d[0] == b58[start];
    assert it == start;
    str := Ones(zeroes);
    while it < b58.Length
      invariant start <= it <= b58.Length && str == Ones(zeroes) + Symbols(d)[..it - start]
    {
      assert b58[it] == d[it - start];
      str := str + [Symbol(b58[it])];
      it := it + 1;
    }
  }

  lemma BufferStarts(b: seq<nat>, base: nat)
    requires base >= 2 && forall k | 0 <= k < |b| :: b[k] == 0
    ensures Fit(b, base) && Val(b, base) == 0 && |Digits(0, base)| == 0
  {
    assert b == Zeros(|b|) + [];
    ValZeros(|b|, [], base);
  }

  lemma Nothing(d: seq<nat>, base: nat)
    ensures Val(d[..0], base) == 0
  {
  }

  /* ----- Decoding ----- */

  lemma {:induction false} SpacesDropped(t: string, n: nat)
    requires n <= |t| && AllSpaces(t[..n]) && (n == |t| || !IsSpace(t[n]))
    ensures DropSpaces(t) == t[n..]
  {
    if n > 0 {
      assert t[..n][0] == t[0] && t[1..][..n - 1] == t[..n][1..] && t[1..][n - 1..] == t[n..];
      SpacesDropped(t[1..], n - 1);
    }
  }

  lemma {:induction false} WordReaches(t: string, n: nat)
    requires n <= |t| && NoSpaces(t[..n])
    ensures WordLength(t) >= n && (n == |t| || IsSpace(t[n]) ==> WordLength(t) == n)
  {
    if n > 0 {
      assert t[..n][0] == t[0] && t[1..][..n - 1] == t[..n][1..];
      WordReaches(t[1..], n - 1);
    }
  }

  lemma {:induction false} OnesGrow(u: string, w: string)
    requires |u| <= |w| && w[..|u|] == u
    ensures CountOnes(u) <= CountOnes(w)
  {
    if u != [] && u[0] == '1' {
      assert w[0] == w[..|u|][0] && w[1..][..|u| - 1] == w[..|u|][1..];
      OnesGrow(u[1..], w[1..]);
    }
  }

  lemma {:induction false} ValueGrows(u: seq<nat>, w: seq<nat>)
    requires |u| <= |w| && w[..|u|] == u
    ensures Val(u, 58) <= Val(w, 58)
    decreases |w|
  {
    if |u| == |w| {
      assert w == u;
    } else {
      var init := w[..|w| - 1];
      assert init[..|u|] == w[..|u|];
      ValueGrows(u, init);
      MulAtLeast(58, Val(init, 58));
    }
  }

  // A longer word of symbols stands for at least as many bytes.
  lemma DecodedGrows(u: string, w: string)
    requires |u| <= |w| && w[..|u|] == u && AllSymbols(w)
    ensures AllSymbols(u) && |DecodeWord(u)| <= |DecodeWord(w)|
  {
    hide Val, Digits;
    assert forall i | 0 <= i < |u| :: u[i] == w[..|u|][i] == w[i];
    OnesGrow(u, w);
    assert Values(w)[..|u|] == Values(u);
    ValueGrows(Values(u), Values(w));
    LengthGrows(Val(Values(u), 58), Val(Values(w), 58), 256);
  }

  lemma LengthGrows(v: nat, v': nat, base: nat)
    requires v <= v' && base >= 2
    ensures |Digits(v, base)| <= |Digits(v', base)|
  {
    hide Digits;
    LengthBounds(v, base);
    LengthBounds(v', base);
    var m, n := |Digits(v, base)|, |Digits(v', base)|;
    if m > n { PowMono(base, n, m - 1); }
  }

  // Rejected before the end: what was read so far is too long, or no symbol.
  lemma RejectedEarly(t: string, q: nat, n: nat, maxLength: int)
    requires q <= |t| && n <= |t| - q && n > 0 && DropSpaces(t) == t[q..] && NoSpaces(t[q..q + n])
    requires AllSymbols(t[q..q + n]) ==> |DecodeWord(t[q..q + n])| > maxLength
    ensures Decode(t, maxLength) == None
  {
    hide DecodeWord;
    var s := t[q..];
    assert s[..n] == t[q..q + n];
    WordReaches(s, n);
    var w := Word(t);
    assert w[..n] == s[..n];
    if AllSymbols(w) { DecodedGrows(s[..n], w); }
  }

  lemma {:induction false} OnesCounted(z: nat, rest: string)
    requires rest == [] || rest[0] != '1'
    ensures CountOnes(Ones(z) + rest) == z
  {
    if z == 0 {
      assert Ones(z) + rest == rest;
    } else {
      assert (Ones(z) + rest)[1..] == Ones(z - 1) + rest;
      OnesCounted(z - 1, rest);
    }
  }

  lemma OnesDecode(z: nat)
    ensures AllSymbols(Ones(z)) && NoSpaces(Ones(z)) && |DecodeWord(Ones(z))| == z && Val(Values(Ones(z)), 58) == 0
  {
    SymbolsRead([], z);
    assert Ones(z) + Symbols([]) == Ones(z) && Ones(z) + [] == Ones(z);
    OnesCounted(z, []);
    ValZeros(z, [], 58);
  }

  // What has been read: the word so far, its ones, and its value below the power of the symbols after them.
  ghost predicate Read(u: string, zeroes: nat, v: nat) {
    && NoSpaces(u) && AllSymbols(u) && zeroes <= |u| && u[..zeroes] == Ones(zeroes) &&
       (zeroes < |u| ==> u[zeroes] != '1')
    && v == Val(Values(u), 58) < Pow(58, |u| - zeroes)
  }

  lemma ReadMore(u: string, zeroes: nat, v: nat, c: char)
    requires Read(u, zeroes, v) && SymbolValue(c) >= 0 && (|u| == zeroes ==> c != '1')
    ensures Read(u + [c], zeroes, Times(v, 58) + SymbolValue(c))
  {
    hide SymbolValue;
    var w := u + [c];
    ValueHasSymbol(c);
    assert Values(w)[..|u|] == Values(u);
    MulMono(v + 1, Pow(58, |u| - zeroes), 58);
    assert (v + 1) * 58 == v * 58 + 58;
    assert w[..zeroes] == u[..zeroes];
    SmallValue(c);
  }

  lemma SmallValue(c: char)
    ensures SymbolValue(c) < 58
  {
  }

  lemma ReadDecodes(u: string, zeroes: nat, v: nat)
    requires Read(u, zeroes, v)
    ensures DecodeWord(u) == Zeros(zeroes) + Digits(v, 256)
  {
    hide Val, Digits;
    assert u == Ones(zeroes) + u[zeroes..];
    OnesCounted(zeroes, u[zeroes..]);
  }

  lemma DecodeFits(n: nat, left: nat, v: nat)
    requires n <= left && v < Pow(58, n)
    ensures v < Pow(256, left * 733 / 1000 + 1)
  {
    hide Pow;
    PowMono(58, n, left);
    DecodeBufferSuffices(left);
  }

  lemma DecodedWord(t: string, q: nat, e: nat)
    requires q <= e <= |t| && DropSpaces(t) == t[q..] && NoSpaces(t[q..e]) && AllSymbols(t[q..e]) &&
             (e == |t| || IsSpace(t[e]))
    ensures Word(t) == t[q..e] && (WellFormed(t) <==> AllSpaces(t[e..]))
  {
    assert t[q..][..e - q] == t[q..e] && t[q..][e - q..] == t[e..];
    WordReaches(t[q..], e - q);
  }

  // The turn of the symbol at e.
  method ReadSymbol(t: string, q: nat, e: nat, zeroes: nat, b256: array<nat>, length: nat, maxLength: int)
      returns (ok: bool, length': nat)
    requires q + zeroes <= e < |t| && !IsSpace(t[e]) && DropSpaces(t) == t[q..] && t[q + zeroes] != '1'
    requires b256.Length == (|t| - q - zeroes) * 733 / 1000 + 1 && Fit(b256[..], 256)
    requires Read(t[q..e], zeroes, Val(b256[..], 256)) && length == |Digits(Val(b256[..], 256), 256)|
    modifies b256
    ensures !ok ==> Decode(t, maxLength) == None
    ensures ok ==> Fit(b256[..], 256) && Read(t[q..e + 1], zeroes, Val(b256[..], 256)) && zeroes + length' <= maxLength
    ensures ok ==> length' == |Digits(Val(b256[..], 256), 256)| <= b256.Length
  {
    hide Val, Digits, Pow, Times, DecodeWord, SymbolValue, Read, Decode;
    ghost var v, u, w := Val(b256[..], 256), t[q..e], t[q..e + 1];
    assert w == u + [t[e]];
    ReadParts(u, zeroes, v);
    var d := SymbolValue(t[e]);
    if d == -1 {
      assert w[e - q] == t[e];
      RejectedEarly(t, q, |w|, maxLength);
      return false, length;
    }
    ReadMore(u, zeroes, v, t[e]);
    SmallValue(t[e]);
    ReadParts(w, zeroes, Times(v, 58) + d);
    DecodeFits(|w| - zeroes, |t| - q - zeroes, Times(v, 58) + d);
    length' := MulAdd(b256, 256, 58, d, length);
    ReadDecodes(w, zeroes, Times(v, 58) + d);
    ok := length' + zeroes <= maxLength;
    if !ok {
      RejectedEarly(t, q, |w|, maxLength);
    }
  }

  // The symbols after the leading ones, up to a space or the end; or nothing if the string is rejected there.
  method FromBase58(t: string, q: nat, zeroes: nat, maxLength: int)
      returns (ok: bool, b256: array<nat>, length: nat, e: nat)
    requires q + zeroes <= |t| && DropSpaces(t) == t[q..] && t[q..q + zeroes] == Ones(zeroes)
    requires (q + zeroes < |t| ==> t[q + zeroes] != '1') && (zeroes > 0 ==> zeroes <= maxLength)
    ensures !ok ==> Decode(t, maxLength) == None
    ensures ok ==> q + zeroes <= e <= |t| && (e == |t| || IsSpace(t[e])) && NoSpaces(t[q..e]) && AllSymbols(t[q..e])
    ensures ok ==> length <= b256.Length && Fit(b256[..], 256)
    ensures ok ==> DecodeWord(t[q..e]) == Zeros(zeroes) + b256[b256.Length - length..]
    ensures ok ==> e == q || |DecodeWord(t[q..e])| <= maxLength
  {
    hide Val, Digits, Pow, Times, DecodeWord, SymbolValue, Read, Decode;
    e := q + zeroes;
    var size := (|t| - e) * 733 / 1000 + 1;
    b256 := new nat[size](i => 0);
    BufferStarts(b256[..], 256);
    length := 0;
    ReadOnes(t[q..e], zeroes);
    while e < |t| && !IsSpace(t[e])
      invariant q + zeroes <= e <= |t| && b256.Length == size && fresh(b256) && Fit(b256[..], 256)
      invariant Read(t[q..e], zeroes, Val(b256[..], 256)) && length == |Digits(Val(b256[..], 256), 256)| <= size
      invariant e > q ==> zeroes + length <= maxLength
    {
      ok, length := ReadSymbol(t, q, e, zeroes, b256, length, maxLength);
      if !ok {
        return;
      }
      e := e + 1;
    }
    ReadParts(t[q..e], zeroes, Val(b256[..], 256));
    ReadDecodes(t[q..e], zeroes, Val(b256[..], 256));
    BufferHolds(b256[..], 256);
    assert b256[size - length..] == b256[..][size - length..];
    ok := true;
  }

  lemma ReadOnes(u: string, zeroes: nat)
    requires u == Ones(zeroes)
    ensures Read(u, zeroes, 0)
  {
    OnesDecode(zeroes);
    PowPositive(58, 0);
  }

  lemma ReadParts(u: string, zeroes: nat, v: nat)
    requires Read(u, zeroes, v)
    ensures NoSpaces(u) && AllSymbols(u) && zeroes <= |u| && v < Pow(58, |u| - zeroes)
  {
  }

  method SkipSpaces(t: string, from: nat) returns (p: nat)
    requires from <= |t|
    ensures from <= p <= |t| && AllSpaces(t[from..p]) && (p == |t| || !IsSpace(t[p]))
  {
    p := from;
    while p < |t| && IsSpace(t[p])
      invariant from <= p <= |t| && AllSpaces(t[from..p])
    {
      assert t[from..p + 1] == t[from..p] + [t[p]];
      p := p + 1;
    }
  }

  method DecodeBase58(t: string, maxLength: int) returns (r: Option<seq<Byte>>)
    ensures r == Decode(t, maxLength)
  {
    hide DecodeWord, SymbolValue, DropSpaces, WordLength;
    var q := SkipSpaces(t, 0);
    SpacesDropped(t, q);
    var zeroes := 0;
    while q + zeroes < |t| && t[q + zeroes] == '1'
      invariant q + zeroes <= |t| && t[q..q + zeroes] == Ones(zeroes) && (zeroes > 0 ==> zeroes <= maxLength)
    {
      assert t[q..q + zeroes + 1] == t[q..q + zeroes] + ['1'] == Ones(zeroes + 1);
      zeroes := zeroes + 1;
      if zeroes > maxLength {
        OnesDecode(zeroes);
        RejectedEarly(t, q, zeroes, maxLength);
        return None;
      }
    }
    var ok, b256, length, e := FromBase58(t, q, zeroes, maxLength);
    if !ok {
      return None;
    }
    DecodedWord(t, q, e);
    var p := SkipSpaces(t, e);
    if p != |t| {
      assert t[e..][p - e] == t[p];
      return None;
    }
    assert t[e..p] == t[e..];
    var out := Zeros(zeroes);
    var it := b256.Length - length;
    ghost var start := it;
    while it < b256.Length
      invariant start <= it <= b256.Length && out == Zeros(zeroes) + b256[start..it]
    {
      out := out + [b256[it]];
      it := it + 1;
    }
    assert b256[start..b256.Length] == b256[start..];
    return Some(out);
  }
}
