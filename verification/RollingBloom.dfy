/**
 The rolling Bloom filter: two bits a cell name the generation that set it last, and the
 oldest of three generations is wiped when a new one begins. The most recent keys are
 always found.
 */
module BloomSpec {
  import opened Powers

  type Key = nat

  // The hash functions: how many, and the cells they give for a key.
  datatype Params = Params(perGeneration: nat, cells: nat, hashes: Key -> seq<nat>)

  ghost predicate ParamsOk(p: Params) {
    p.perGeneration >= 1 && p.cells >= 1 && forall k, i | 0 <= i < |p.hashes(k)| :: p.hashes(k)[i] < p.cells
  }

  // What each cell holds: 0, or the generation 1, 2 or 3 that set it last.
  datatype Filter = Filter(cells: seq<bv32>, entries: nat, generation: bv32)

  predicate Shaped(p: Params, f: Filter) {
    |f.cells| == p.cells && f.entries <= p.perGeneration && 1 <= f.generation <= 3
  }

  function Reset(p: Params): Filter {
    Filter(seq(p.cells, i => 0), 0, 1)
  }

  function NextGeneration(g: bv32): bv32 { if g + 1 == 4 then 1 else g + 1 }

  function Wiped(cells: seq<bv32>, g: bv32): seq<bv32> {
    seq(|cells|, i requires 0 <= i < |cells| => if cells[i] == g then 0 else cells[i])
  }

  // Makes room: a full generation is followed by the next, whose old entries go.
  function Rolled(p: Params, f: Filter): Filter {
    if f.entries == p.perGeneration then
      var g := NextGeneration(f.generation);
      Filter(Wiped(f.cells, g), 0, g)
    else f
  }

  function Marked(cells: seq<bv32>, at: seq<nat>, g: bv32): seq<bv32> {
    if at == [] then cells
    else
      var rest := Marked(cells, at[..|at| - 1], g);
      if at[|at| - 1] < |rest| then rest[at[|at| - 1] := g] else rest
  }

  function Insert(p: Params, f: Filter, k: Key): Filter {
    var r := Rolled(p, f);
    Filter(Marked(r.cells, p.hashes(k), r.generation), r.entries + 1, r.generation)
  }

  predicate Contains(p: Params, f: Filter, k: Key)
    requires ParamsOk(p) && Shaped(p, f)
  {
    forall i | 0 <= i < |p.hashes(k)| :: f.cells[p.hashes(k)[i]] != 0
  }

  /* ----- Marking ----- */

  lemma {:induction false} MarkedAt(cells: seq<bv32>, at: seq<nat>, g: bv32, i: nat)
    requires i < |cells|
    ensures |Marked(cells, at, g)| == |cells|
    ensures Marked(cells, at, g)[i] == if i in at then g else cells[i]
  {
    if at != [] {
      MarkedAt(cells, at[..|at| - 1], g, i);
      assert at == at[..|at| - 1] + [at[|at| - 1]];
    }
  }

  /* ----- The generations of the keys inserted ----- */

  // The keys since the reset, the current generation, the one before and the one before that. Each generation
  // but the current one is full.
  datatype History = History(current: seq<Key>, last: seq<Key>, older: seq<Key>)

  function After(p: Params, h: History, k: Key): History {
    if |h.current| == p.perGeneration then History([k], h.current, h.last) else h.(current := h.current + [k])
  }

  function Previous(g: bv32): bv32 { if g == 1 then 3 else g - 1 }

  // A cell names the latest of the three generations that has a key there, and is empty if none has.
  ghost predicate Fresh(p: Params, f: Filter, h: History, i: nat)
    requires i < |f.cells|
  {
    f.cells[i] == if InCells(p, h.current, i) then f.generation
                  else if InCells(p, h.last, i) then Previous(f.generation)
                  else if InCells(p, h.older, i) then Previous(Previous(f.generation)) else 0
  }

  // Cell i belongs to one of the keys.
  ghost predicate InCells(p: Params, keys: seq<Key>, i: nat) {
    exists k :: k in keys && i in p.hashes(k)
  }

  ghost predicate Tracks(p: Params, f: Filter, h: History) {
    && Shaped(p, f) && f.entries == |h.current|
    && (forall i | 0 <= i < |f.cells| :: Fresh(p, f, h, i))
  }

  lemma ResetTracks(p: Params)
    ensures Tracks(p, Reset(p), History([], [], []))
  {
  }

  lemma RolledTracks(p: Params, f: Filter, h: History)
    requires ParamsOk(p) && Tracks(p, f, h)
    ensures var r := Rolled(p, f);
            Tracks(p, r, if |h.current| == p.perGeneration then History([], h.current, h.last) else h) &&
                r.entries < p.perGeneration
  {
    var r := Rolled(p, f);
    if f.entries == p.perGeneration {
      forall i | 0 <= i < |r.cells| ensures Fresh(p, r, History([], h.current, h.last), i) {
        assert Fresh(p, f, h, i);
      }
    }
  }

  lemma InsertTracks(p: Params, f: Filter, h: History, k: Key)
    requires ParamsOk(p) && Tracks(p, f, h)
    ensures Tracks(p, Insert(p, f, k), After(p, h, k))
  {
    RolledTracks(p, f, h);
    var r, f' := Rolled(p, f), Insert(p, f, k);
    var mid := if |h.current| == p.perGeneration then History([], h.current, h.last) else h;
    assert |f'.cells| == |r.cells| by { MarkedAt(r.cells, p.hashes(k), r.generation, 0); }
    forall i | 0 <= i < |f'.cells| ensures Fresh(p, f', After(p, h, k), i) {
      MarkedAt(r.cells, p.hashes(k), r.generation, i);
      assert Fresh(p, r, mid, i);
      OneMoreKey(p, mid.current, k, i);
    }
  }

  lemma OneMoreKey(p: Params, keys: seq<Key>, k: Key, i: nat)
    ensures InCells(p, keys + [k], i) <==> InCells(p, keys, i) || i in p.hashes(k)
  {
    if i in p.hashes(k) { assert k in keys + [k]; }
    if InCells(p, keys, i) {
      var x :| x in keys && i in p.hashes(x);
      assert x in keys + [k];
    }
  }

  /* ----- Every run since a reset ----- */

  ghost function Run(p: Params, keys: seq<Key>): Filter {
    if keys == [] then Reset(p) else Insert(p, Run(p, keys[..|keys| - 1]), keys[|keys| - 1])
  }

  ghost function HistoryOf(p: Params, keys: seq<Key>): History {
    if keys == [] then History([], [], []) else After(p, HistoryOf(p, keys[..|keys| - 1]), keys[|keys| - 1])
  }

  lemma {:induction false} RunTracks(p: Params, keys: seq<Key>)
    requires ParamsOk(p)
    ensures Tracks(p, Run(p, keys), HistoryOf(p, keys))
  {
    if keys == [] {
      ResetTracks(p);
    } else {
      hide Tracks, Insert, After;
      var init := keys[..|keys| - 1];
      RunTracks(p, init);
      InsertTracks(p, Run(p, init), HistoryOf(p, init), keys[|keys| - 1]);
    }
  }

  // The three generations are the end of the run; as soon as they are not all of it, the older two are full and
  // the current one has begun.
  ghost predicate Recent(p: Params, keys: seq<Key>, h: History) {
    var n := |h.older| + |h.last| + |h.current|;
    && n <= |keys| && h.older + h.last + h.current == keys[|keys| - n..]
    && (h.last == [] || (|h.last| == p.perGeneration && |h.current| >= 1))
    && (h.older == [] || (|h.older| == p.perGeneration && h.last != []))
    && (n < |keys| ==> h.older != []) && |h.current| <= p.perGeneration
  }

  lemma RecentNext(p: Params, keys: seq<Key>, k: Key, h: History)
    requires p.perGeneration >= 1 && Recent(p, keys, h)
    ensures Recent(p, keys + [k], After(p, h, k))
  {
    var n, h' := |h.older| + |h.last| + |h.current|, After(p, h, k);
    if |h.current| == p.perGeneration {
      assert keys[|keys| - n..] == h.older + (h.last + h.current);
      assert h.last + h.current == keys[|keys| - n..][|h.older|..] == keys[|keys| - (n - |h.older|)..];
      assert h'.older + h'.last + h'.current == h.last + h.current + [k] == (keys + [k])[|keys| - (n - |h.older|)..];
    } else {
      assert h'.older + h'.last + h'.current == h.older + h.last + h.current + [k] == (keys + [k])[|keys| - n..];
    }
  }

  lemma {:induction false} HistoryIsRecent(p: Params, keys: seq<Key>)
    requires p.perGeneration >= 1
    ensures Recent(p, keys, HistoryOf(p, keys))
  {
    hide Recent, After;
    if keys == [] {
      NothingIsRecent(p);
    } else {
      var init, k := keys[..|keys| - 1], keys[|keys| - 1];
      HistoryIsRecent(p, init);
      assert keys == init + [k];
      RecentNext(p, init, k, HistoryOf(p, init));
    }
  }

  lemma NothingIsRecent(p: Params)
    ensures Recent(p, [], History([], [], []))
  {
  }

  // Of n keys, how many generations are full before the current one, and how many keys that has.
  function Full(perGeneration: nat, n: nat): nat
    requires perGeneration >= 1 && n >= 1
  {
    (n - 1) / perGeneration
  }

  function Begun(perGeneration: nat, n: nat): nat
    requires perGeneration >= 1 && n >= 1
  {
    (n - 1) % perGeneration + 1
  }

  lemma OneMoreBegun(g: nat, n: nat)
    requires g >= 1 && n >= 1
    ensures 1 <= Begun(g, n) <= g && Full(g, 1) == 0 && Begun(g, 1) == 1
    ensures Begun(g, n + 1) == if Begun(g, n) == g then 1 else Begun(g, n) + 1
    ensures Full(g, n + 1) == if Begun(g, n) == g then Full(g, n) + 1 else Full(g, n)
  {
    DivMod(n - 1, g);
    DivModUnique(0, g, 0, 0);
    var q, r := (n - 1) / g, (n - 1) % g;
    if r + 1 == g {
      assert (q + 1) * g == q * g + g;
      DivModUnique(n, g, q + 1, 0);
    } else {
      DivModUnique(n, g, q, r + 1);
    }
  }

  lemma {:induction false} HistoryLengths(p: Params, keys: seq<Key>)
    requires p.perGeneration >= 1 && keys != []
    ensures var h, g := HistoryOf(p, keys), p.perGeneration;
            && |h.current| == Begun(g, |keys|)
            && |h.last| == (if Full(g, |keys|) >= 1 then g else 0)
            && |h.older| == (if Full(g, |keys|) >= 2 then g else 0)
  {
    hide Full, Begun;
    var n, g := |keys| - 1, p.perGeneration;
    if n > 0 {
      HistoryLengths(p, keys[..n]);
      OneMoreBegun(g, n);
    } else {
      OneMoreBegun(g, 1);
      assert HistoryOf(p, keys[..0]) == History([], [], []);
    }
  }

  // How many of the last keys a filter remembers: the generation that has begun and up to two full ones before it.
  function Remembered(perGeneration: nat, n: nat): nat
    requires perGeneration >= 1
  {
    if n == 0 then 0
    else
      var full := Full(perGeneration, n);
      Begun(perGeneration, n) +
      (if full >= 2 then 2 * perGeneration else if full == 1 then perGeneration else 0)
  }

  lemma RememberedIs(p: Params, keys: seq<Key>)
    requires p.perGeneration >= 1
    ensures Remembered(p.perGeneration, |keys|) <= |keys|
    ensures var h := HistoryOf(p, keys);
            h.older + h.last + h.current == keys[|keys| - Remembered(p.perGeneration, |keys|)..]
  {
    hide Full, Begun;
    if keys != [] {
      hide HistoryOf;
      HistoryIsRecent(p, keys);
      HistoryLengths(p, keys);
    }
  }

  // A key is found exactly when each of its cells belongs to one of the keys remembered.
  lemma ContainsIff(p: Params, keys: seq<Key>, k: Key)
    requires ParamsOk(p)
    ensures Shaped(p, Run(p, keys)) && Remembered(p.perGeneration, |keys|) <= |keys|
    ensures Contains(p, Run(p, keys), k)
       <==> forall i | 0 <= i < |p.hashes(k)| ::
              InCells(p, keys[|keys| - Remembered(p.perGeneration, |keys|)..], p.hashes(k)[i])
  {
    hide Run, HistoryOf, Remembered, InCells;
    RunTracks(p, keys);
    RememberedIs(p, keys);
    var f, h := Run(p, keys), HistoryOf(p, keys);
    forall i | 0 <= i < |p.hashes(k)|
      ensures f.cells[p.hashes(k)[i]] != 0 <==> InCells(p, h.older + h.last + h.current, p.hashes(k)[i])
    {
      var c := p.hashes(k)[i];
      assert Fresh(p, f, h, c);
      InEither(p, h.older, h.last, c);
      InEither(p, h.older + h.last, h.current, c);
    }
  }

  lemma InEither(p: Params, a: seq<Key>, b: seq<Key>, i: nat)
    ensures InCells(p, a + b, i) <==> InCells(p, a, i) || InCells(p, b, i)
  {
    if k :| k in a && i in p.hashes(k) { assert k in a + b; }
    if k :| k in b && i in p.hashes(k) { assert k in a + b; }
  }

  // So an empty filter has none, and what is remembered is found.
  lemma EmptyContainsNone(p: Params, k: Key)
    requires ParamsOk(p) && p.hashes(k) != []
    ensures !Contains(p, Reset(p), k)
  {
    ContainsIff(p, [], k);
    assert p.hashes(k)[0] in p.hashes(k);
  }

  lemma RecentIsContained(p: Params, keys: seq<Key>, j: nat)
    requires ParamsOk(p) && j < |keys| && |keys| - j <= Remembered(p.perGeneration, |keys|)
    ensures Shaped(p, Run(p, keys)) && Contains(p, Run(p, keys), keys[j])
  {
    hide Run, Remembered;
    ContainsIff(p, keys, keys[j]);
    var n := |keys| - Remembered(p.perGeneration, |keys|);
    assert keys[n..][j - n] == keys[j];
  }

  // The filter is made for a number of elements, kept in generations of half that number.
  function HalfOf(elements: nat): nat { (elements + 1) / 2 }

  // The last `elements` keys inserted since the reset are found: in fact all of the last two full generations.
  lemma NeverForgetsRecent(p: Params, elements: nat, keys: seq<Key>, j: nat)
    requires ParamsOk(p) && p.perGeneration == HalfOf(elements) && j < |keys|
    requires |keys| - j <= 2 * p.perGeneration + 1
    ensures Shaped(p, Run(p, keys)) && Contains(p, Run(p, keys), keys[j])
    ensures elements <= 2 * p.perGeneration <= elements + 1
  {
    RememberedEnough(p.perGeneration, |keys|);
    RecentIsContained(p, keys, j);
  }

  lemma RememberedEnough(g: nat, n: nat)
    requires g >= 1
    ensures Remembered(g, n) == n || Remembered(g, n) >= 2 * g + 1
  {
    if n > 0 {
      DivMod(n - 1, g);
      if Full(g, n) == 1 { assert Full(g, n) * g == g; }
    }
  }
}

/** The filter itself, its cells packed sixteen to a word of 32 bits. */
module RollingBloom {
  import opened BloomSpec
  import Spec = BloomSpec

  /* ----- Cells of two bits ----- */

  function ShiftOf(k: nat): bv32
    requires k < 16
  {
    match k
    case 0 => 0 case 1 => 2 case 2 => 4 case 3 => 6 case 4 => 8 case 5 => 10 case 6 => 12 case 7 => 14
    case 8 => 16 case 9 => 18 case 10 => 20 case 11 => 22 case 12 => 24 case 13 => 26 case 14 => 28 case _ => 30
  }

  function Up(v: bv32, s: bv32): bv32
    requires s < 32
  {
    v << s
  }

  function Down(w: bv32, s: bv32): bv32
    requires s < 32
  {
    w >> s
  }

  function Mask(s: bv32): bv32
    requires s < 32
  {
    Up(3, s)
  }

  function Field(w: bv32, m: bv32): bv32 { w & m }

  function Replace(w: bv32, m: bv32, u: bv32): bv32 { (w & !m) | u }

  // What the cell at bit s of a word holds, and the word with another value there.
  function Cell(w: bv32, s: bv32): bv32
    requires s < 32
  {
    Field(Down(w, s), 3)
  }

  function PutCell(w: bv32, s: bv32, v: bv32): bv32
    requires s < 32
  {
    Replace(w, Mask(s), Up(v, s))
  }

  predicate Even(s: bv32) { s < 32 && s & 1 == 0 }

  lemma ShiftIsEven(k: nat)
    requires k < 16
    ensures Even(ShiftOf(k)) && ShiftOf(k) < 32
  {
  }

  lemma ShiftsDiffer(k: nat, j: nat)
    requires k < 16 && j < 16 && k != j
    ensures ShiftOf(k) != ShiftOf(j)
  {
  }

  lemma SelectLow(w: bv32, s: bv32)
    requires s == 0 || s == 2 || s == 4 || s == 6 || s == 8 || s == 10 || s == 12 || s == 14
    ensures (w & ((3 as bv32) << s)) >> s == (w >> s) & 3
  {
  }

  lemma SelectHigh(w: bv32, s: bv32)
    requires s == 16 || s == 18 || s == 20 || s == 22 || s == 24 || s == 26 || s == 28 || s == 30
    ensures (w & ((3 as bv32) << s)) >> s == (w >> s) & 3
  {
  }

  lemma Select(w: bv32, s: bv32)
    requires Even(s)
    ensures Down(Field(w, Mask(s)), s) == Cell(w, s)
  {
    if s < 16 { SelectLow(w, s); } else { SelectHigh(w, s); }
  }

  lemma MasksApart(s: bv32, t: bv32)
    requires Even(s) && Even(t) && s != t
    ensures Field(Mask(s), Mask(t)) == 0
  {
  }

  lemma ValueFits(v: bv32, s: bv32)
    requires v < 4 && Even(s)
    ensures Field(Up(v, s), Mask(s)) == Up(v, s) && Down(Up(v, s), s) == v
  {
  }

  lemma ReplaceSame(w: bv32, m: bv32, u: bv32)
    requires Field(u, m) == u
    ensures Field(Replace(w, m, u), m) == u
  {
  }

  lemma ReplaceOther(w: bv32, m: bv32, u: bv32, n: bv32)
    requires Field(u, m) == u && Field(m, n) == 0
    ensures Field(Replace(w, m, u), n) == Field(w, n)
  {
  }

  // Writing a cell changes that cell and no other.
  lemma PutThenGet(w: bv32, s: bv32, v: bv32, t: bv32)
    requires Even(s) && Even(t) && v < 4
    ensures Cell(PutCell(w, s, v), t) == if s == t then v else Cell(w, t)
  {
    hide Mask, Cell, Field, Replace, Up, Down;
    var u := Up(v, s);
    ValueFits(v, s);
    Select(PutCell(w, s, v), t);
    if s == t {
      ReplaceSame(w, Mask(s), u);
    } else {
      MasksApart(s, t);
      ReplaceOther(w, Mask(s), u, Mask(t));
      Select(w, t);
    }
  }

  // All cells of a run of words.
  function Unpack(data: seq<bv32>): (cells: seq<bv32>)
    ensures |cells| == 16 * |data|
  {
    seq(16 * |data|, i requires 0 <= i < 16 * |data| => CellAt(data, i))
  }

  function CellAt(data: seq<bv32>, i: nat): bv32
    requires i < 16 * |data|
  {
    ShiftIsEven(i % 16);
    Cell(data[i / 16], ShiftOf(i % 16))
  }

  lemma CellAfterPut(data: seq<bv32>, pos: nat, v: bv32, i: nat)
    requires pos < 16 * |data| && i < 16 * |data| && v < 4 && ShiftOf(pos % 16) < 32
    ensures CellAt(data[pos / 16 := PutCell(data[pos / 16], ShiftOf(pos % 16), v)], i)
         == if i == pos then v else CellAt(data, i)
  {
    hide Cell, PutCell, ShiftOf, Even;
    ShiftIsEven(pos % 16);
    ShiftIsEven(i % 16);
    if i / 16 == pos / 16 {
      PutThenGet(data[pos / 16], ShiftOf(pos % 16), v, ShiftOf(i % 16));
      if i != pos { ShiftsDiffer(pos % 16, i % 16); }
    }
  }

  lemma UnpackAfterPut(data: seq<bv32>, pos: nat, v: bv32)
    requires pos < 16 * |data| && v < 4 && ShiftOf(pos % 16) < 32
    ensures Unpack(data[pos / 16 := PutCell(data[pos / 16], ShiftOf(pos % 16), v)]) == Unpack(data)[pos := v]
  {
    hide CellAt, PutCell, ShiftOf;
    var data' := data[pos / 16 := PutCell(data[pos / 16], ShiftOf(pos % 16), v)];
    forall i | 0 <= i < 16 * |data| ensures Unpack(data')[i] == Unpack(data)[pos := v][i] {
      CellAfterPut(data, pos, v, i);
    }
  }

  // The settings: cells for `words` words, and hash functions that are reduced to cells.
  function Configure(elements: nat, words: nat, funcs: nat, hash: (nat, Key) -> nat): Params {
    Params(HalfOf(elements), 16 * words,
        k => seq(funcs, n requires 0 <= n < funcs => if words > 0 then hash(n, k) % (16 * words) else 0))
  }

  class RollingBloomFilter {
    const p: Params
    const data: array<bv32>
    var entries: nat
    var generation: bv32

    ghost predicate Valid()
      reads this
    {
      ParamsOk(p) && p.cells == 16 * data.Length && entries <= p.perGeneration && 1 <= generation <= 3
    }

    ghost function Model(): (f: Filter)
      requires Valid()
      reads this, data
      ensures Shaped(p, f)
    {
      Filter(Unpack(data[..]), entries, generation)
    }

    constructor (elements: nat, words: nat, funcs: nat, hash: (nat, Key) -> nat)
      requires elements >= 1 && words >= 1
      ensures Valid() && fresh(data) && p == Configure(elements, words, funcs, hash) && Model() == Reset(p)
    {
      p := Configure(elements, words, funcs, hash);
      data := new bv32[words](i => 0);
      entries, generation := 0, 1;
      new;
      EmptyCells(data[..]);
    }

    method Get(pos: nat) returns (v: bv32)
      requires Valid() && pos < p.cells
      ensures v == Model().cells[pos]
    {
      hide Cell, ShiftOf;
      WordOf(pos, data.Length);
      ShiftIsEven(pos % 16);
      v := Cell(data[pos / 16 % data.Length], ShiftOf(pos % 16));
    }

    method Put(pos: nat, v: bv32)
      requires Valid() && pos < p.cells && v < 4
      modifies data
      ensures Model() == old(Model()).(cells := old(Model()).cells[pos := v])
    {
      hide Unpack, PutCell, ShiftOf, Even;
      WordOf(pos, data.Length);
      ShiftIsEven(pos % 16);
      UnpackAfterPut(data[..], pos, v);
      var at := pos / 16 % data.Length;
      data[at] := PutCell(data[at], ShiftOf(pos % 16), v);
      assert data[..] == old(data[..])[at := data[at]];
    }

    method Clear()
      requires Valid()
      modifies this, data
      ensures Valid() && Model() == Reset(p)
    {
      entries, generation := 0, 1;
      for i := 0 to data.Length
        invariant entries == 0 && generation == 1 && forall k | 0 <= k < i :: data[k] == 0
      {
        data[i] := 0;
      }
      EmptyCells(data[..]);
    }

    method Wipe(g: bv32)
      requires Valid()
      modifies data
      ensures Model() == old(Model()).(cells := Wiped(old(Model()).cells, g))
    {
      hide Unpack;
      ghost var before := Model().cells;
      for i := 0 to p.cells
        invariant Valid() && entries == old(entries) && generation == old(generation)
        invariant Model().cells == WipedBelow(before, g, i)
      {
        WipeNext(before, g, i);
        var v := Get(i);
        if v == g {
          Put(i, 0);
        }
      }
      assert WipedBelow(before, g, p.cells) == Wiped(before, g);
    }

    method Insert(k: Key)
      requires Valid()
      modifies this, data
      ensures Valid() && Model() == Spec.Insert(p, old(Model()), k)
    {
      hide Unpack, Wiped;
      ghost var f := Model();
      if entries == p.perGeneration {
        entries := 0;
        generation := generation + 1;
        if generation == 4 {
          generation := 1;
        }
        Wipe(generation);
      }
      ghost var r := Rolled(p, f);
      assert Model() == r;
      entries := entries + 1;
      var at := p.hashes(k);
      for n := 0 to |at|
        invariant Valid() && entries == r.entries + 1 && generation == r.generation
        invariant Model().cells == Marked(r.cells, at[..n], r.generation)
      {
        assert at[..n + 1][..n] == at[..n];
        Put(at[n], generation);
      }
      assert at[..|at|] == at;
    }

    method Contains(k: Key) returns (found: bool)
      requires Valid()
      ensures found <==> Spec.Contains(p, Model(), k)
    {
      hide Unpack;
      var at := p.hashes(k);
      for n := 0 to |at|
        invariant forall i | 0 <= i < n :: Model().cells[at[i]] != 0
      {
        var v := Get(at[n]);
        if v == 0 {
          return false;
        }
      }
      return true;
    }
  }

  // The word a cell is in.
  lemma WordOf(pos: nat, words: nat)
    requires pos < 16 * words
    ensures pos / 16 < words && pos / 16 % words == pos / 16
  {
  }

  lemma EmptyCells(data: seq<bv32>)
    requires forall i | 0 <= i < |data| :: data[i] == 0
    ensures Unpack(data) == seq(16 * |data|, i => 0)
  {
    hide Cell, ShiftOf;
    forall i | 0 <= i < 16 * |data| ensures CellAt(data, i) == 0 {
      ShiftIsEven(i % 16);
      EmptyCell(ShiftOf(i % 16));
    }
  }

  lemma EmptyCell(s: bv32)
    requires s < 32
    ensures Cell(0, s) == 0
  {
  }

  // The cells of a generation wiped up to some place.
  function WipedBelow(cells: seq<bv32>, g: bv32, n: nat): seq<bv32> {
    seq(|cells|, i requires 0 <= i < |cells| => if i < n && cells[i] == g then 0 else cells[i])
  }

  lemma WipeNext(cells: seq<bv32>, g: bv32, n: nat)
    requires n < |cells|
    ensures WipedBelow(cells, g, 0) == cells && WipedBelow(cells, g, n)[n] == cells[n]
    ensures WipedBelow(cells, g, n + 1)
         == if cells[n] == g then WipedBelow(cells, g, n)[n := 0] else WipedBelow(cells, g, n)
  {
  }
}
