/**
 Transactions stacked on a key-value database: pending writes and deletes over a parent that
 is a transaction again or the database, and the iterator that merges both.
 */
module DbStores {
  import opened Totals

  type Byte = x: int | 0 <= x < 256
  type Key = seq<Byte>
  type Bytes = seq<Byte>

  // A value as it is serialized, and the type it was written as.
  datatype Value = Value(kind: nat, bytes: Bytes)

  datatype Store = Db(data: map<Key, Bytes>) | Tx(writes: map<Key, Value>, deletes: set<Key>, usage: int, parent: Store)

  function Written(writes: map<Key, Value>): map<Key, Bytes> {
    map k | k in writes :: writes[k].bytes
  }

  // The plain map a store stands for: the parent's with the deletes taken away and the writes put over it.
  function View(s: Store): map<Key, Bytes> {
    match s
    case Db(data) => data
    case Tx(writes, deletes, _, parent) => (View(parent) - deletes) + Written(writes)
  }

  function KeySize(k: Key): nat { |k| }

  function ValueSize(v: Value): nat { |v.bytes| }

  ghost function PendingSize(writes: map<Key, Value>, deletes: set<Key>): nat {
    SetTotal(writes.Keys, KeySize) + MapTotal(writes, ValueSize) + SetTotal(deletes, KeySize)
  }

  // No key is both written and deleted, and the memory usage is exact, in every layer.
  ghost predicate Sound(s: Store) {
    s.Tx? ==> s.writes.Keys !! s.deletes && s.usage == PendingSize(s.writes, s.deletes) && Sound(s.parent)
  }

  /* ----- Reading ----- */

  datatype ReadResult = Found(value: Value) | Missing | WrongType

  // Whether bytes of the database can be read as a type.
  type Codec = (nat, Bytes) -> bool

  function Read(codec: Codec, s: Store, k: Key, kind: nat): ReadResult {
    match s
    case Db(data) => if k in data && codec(kind, data[k]) then Found(Value(kind, data[k])) else Missing
    case Tx(writes, deletes, _, parent) =>
      if k in deletes then Missing
      else if k in writes then if writes[k].kind == kind then Found(writes[k]) else WrongType
      else Read(codec, parent, k, kind)
  }

  function Exists(s: Store, k: Key): bool {
    match s
    case Db(data) => k in data
    case Tx(writes, deletes, _, parent) => k !in deletes && (k in writes || Exists(parent, k))
  }

  // The type a key was written as in the topmost layer that knows it; -1 when it comes from the database or is gone.
  function PendingKind(s: Store, k: Key): int {
    match s
    case Db(_) => -1
    case Tx(writes, deletes, _, parent) =>
      if k in deletes then -1 else if k in writes then writes[k].kind else PendingKind(parent, k)
  }

  // A read gives what the plain map holds; it throws exactly when the value waits to be written as another type.
  lemma {:induction false} ReadSeesView(codec: Codec, s: Store, k: Key, kind: nat)
    requires Sound(s)
    ensures match Read(codec, s, k, kind)
            case Found(v) => k in View(s) && v == Value(kind, View(s)[k]) &&
                (PendingKind(s, k) == -1 || PendingKind(s, k) == kind)
            case Missing => k in View(s) ==> PendingKind(s, k) == -1 && !codec(kind, View(s)[k])
            case WrongType => k in View(s) && PendingKind(s, k) != -1 && PendingKind(s, k) != kind
  {
    if s.Tx? && k !in s.deletes && k !in s.writes { ReadSeesView(codec, s.parent, k, kind); }
  }

  lemma {:induction false} ExistsIff(s: Store, k: Key)
    requires Sound(s)
    ensures Exists(s, k) <==> k in View(s)
  {
    if s.Tx? { ExistsIff(s.parent, k); }
  }

  /* ----- Writing ----- */

  function Write(s: Store, k: Key, v: Value): Store {
    match s
    case Db(data) => Db(data[k := v.bytes])
    case Tx(writes, deletes, usage, parent) =>
      var undeleted := if k in deletes then usage - |k| else usage;
      var unwritten := if k in writes then undeleted - (|k| + |writes[k].bytes|) else undeleted;
      Tx(writes[k := v], deletes - {k}, unwritten + |k| + |v.bytes|, parent)
  }

  function Erase(s: Store, k: Key): Store {
    match s
    case Db(data) => Db(data - {k})
    case Tx(writes, deletes, usage, parent) =>
      var unwritten := if k in writes then usage - (|k| + |writes[k].bytes|) else usage;
      Tx(writes - {k}, deletes + {k}, if k in deletes then unwritten else unwritten + |k|, parent)
  }

  lemma SizeWithout(writes: map<Key, Value>, deletes: set<Key>, k: Key)
    ensures PendingSize(writes, deletes)
         == PendingSize(writes - {k}, deletes - {k})
            + (if k in writes then |k| + |writes[k].bytes| else 0) + (if k in deletes then |k| else 0)
  {
    assert (writes - {k}).Keys == writes.Keys - {k};
    if k in writes {
      SetTotalRemove(writes.Keys, k, KeySize);
      MapTotalRemove(writes, k, ValueSize);
    } else {
      assert writes - {k} == writes;
    }
    if k in deletes { SetTotalRemove(deletes, k, KeySize); } else { assert deletes - {k} == deletes; }
  }

  lemma PutOver(base: map<Key, Bytes>, writes: map<Key, Value>, deletes: set<Key>, k: Key, v: Value)
    ensures (base - (deletes - {k})) + Written(writes[k := v]) == ((base - deletes) + Written(writes))[k := v.bytes]
  {
  }

  lemma WriteIsSound(s: Store, k: Key, v: Value)
    requires Sound(s)
    ensures Sound(Write(s, k, v)) && View(Write(s, k, v)) == View(s)[k := v.bytes]
  {
    if s.Tx? {
      var writes', deletes' := s.writes[k := v], s.deletes - {k};
      PutOver(View(s.parent), s.writes, s.deletes, k, v);
      SizeWithout(s.writes, s.deletes, k);
      SizeWithout(writes', deletes', k);
      assert writes' - {k} == s.writes - {k} && deletes' - {k} == deletes';
    }
  }

  lemma EraseIsSound(s: Store, k: Key)
    requires Sound(s)
    ensures Sound(Erase(s, k)) && View(Erase(s, k)) == View(s) - {k}
  {
    if s.Tx? {
      var writes', deletes' := s.writes - {k}, s.deletes + {k};
      assert (View(s.parent) - deletes') + Written(writes') == ((View(s.parent) - s.deletes) + Written(s.writes)) - {k};
      SizeWithout(s.writes, s.deletes, k);
      SizeWithout(writes', deletes', k);
      assert writes' - {k} == writes' && deletes' - {k} == s.deletes - {k};
    }
  }

  /* ----- Committing ----- */

  ghost function ErasedAll(s: Store, keys: set<Key>): Store {
    match s
    case Db(data) => Db(data - keys)
    case Tx(writes, deletes, _, parent) =>
      Tx(writes - keys, deletes + keys, PendingSize(writes - keys, deletes + keys), parent)
  }

  ghost function WrittenAll(s: Store, more: map<Key, Value>): Store {
    match s
    case Db(data) => Db(data + Written(more))
    case Tx(writes, deletes, _, parent) =>
      Tx(writes + more, deletes - more.Keys, PendingSize(writes + more, deletes - more.Keys), parent)
  }

  // The transaction passed on to its parent.
  ghost function Committed(s: Store): Store {
    if s.Db? then s else Tx(map[], {}, 0, WrittenAll(ErasedAll(s.parent, s.deletes), s.writes))
  }

  lemma ErasedAllIsSound(s: Store, keys: set<Key>)
    requires Sound(s)
    ensures Sound(ErasedAll(s, keys)) && View(ErasedAll(s, keys)) == View(s) - keys
  {
    if s.Tx? {
      assert (View(s.parent) - (s.deletes + keys)) + Written(s.writes - keys)
             == ((View(s.parent) - s.deletes) + Written(s.writes)) - keys;
    }
  }

  lemma WrittenAllIsSound(s: Store, more: map<Key, Value>)
    requires Sound(s)
    ensures Sound(WrittenAll(s, more)) && View(WrittenAll(s, more)) == View(s) + Written(more)
  {
    if s.Tx? {
      hide PendingSize;
      WrittenTwice(View(s.parent), s.deletes, s.writes, more);
    }
  }

  lemma WrittenTwice(base: map<Key, Bytes>, deletes: set<Key>, writes: map<Key, Value>, more: map<Key, Value>)
    ensures (base - (deletes - more.Keys)) + Written(writes + more)
            == (base - deletes) + Written(writes) + Written(more)
  {
    var w, m := Written(writes), Written(more);
    assert Written(writes + more) == w + m;
    hide Written;
    var a, b := (base - (deletes - more.Keys)) + (w + m), (base - deletes) + w + m;
    assert m.Keys == more.Keys;
    assert a == b;
  }

  lemma NothingPending(parent: Store)
    requires Sound(parent)
    ensures Sound(Tx(map[], {}, 0, parent)) && View(Tx(map[], {}, 0, parent)) == View(parent)
  {
    assert View(parent) - {} + Written(map[]) == View(parent);
  }

  // The parent becomes the map the transaction stood for, and the transaction goes on standing for it.
  lemma CommittedIsSound(s: Store)
    requires s.Tx? && Sound(s)
    ensures var s' := Committed(s); Sound(s') && View(s') == View(s) && View(s'.parent) == View(s)
  {
    hide ErasedAll, WrittenAll, Written, PendingSize;
    ErasedAllIsSound(s.parent, s.deletes);
    WrittenAllIsSound(ErasedAll(s.parent, s.deletes), s.writes);
    NothingPending(Committed(s).parent);
  }

  /* ----- Two transactions over the database, as the deterministic masternode database has them ----- */

  datatype EvoOp = WriteCur(k: Key, v: Value) | EraseCur(k: Key) | CommitCur | RollbackCur | CommitRoot

  // The current transaction over the root transaction over the database.
  ghost predicate IsEvo(s: Store) {
    s.Tx? && s.parent.Tx? && s.parent.parent.Db? && Sound(s)
  }

  predicate Clean(s: Store) {
    s.Tx? && s.writes == map[] && s.deletes == {}
  }

  // Committing the root asserts that the current transaction is clean.
  ghost predicate Allowed(s: Store, op: EvoOp) {
    op.CommitRoot? ==> Clean(s)
  }

  ghost function EvoStep(s: Store, op: EvoOp): Store
    requires IsEvo(s)
  {
    match op
    case WriteCur(k, v) => Write(s, k, v)
    case EraseCur(k) => Erase(s, k)
    case CommitCur => Committed(s)
    case RollbackCur => Tx(map[], {}, 0, s.parent)
    case CommitRoot => s.(parent := Committed(s.parent))
  }

  // The same on three plain maps: what the database, the root and the current transaction stand for.
  datatype Plain = Plain(db: map<Key, Bytes>, root: map<Key, Bytes>, cur: map<Key, Bytes>)

  function PlainStep(p: Plain, op: EvoOp): Plain {
    match op
    case WriteCur(k, v) => p.(cur := p.cur[k := v.bytes])
    case EraseCur(k) => p.(cur := p.cur - {k})
    case CommitCur => p.(root := p.cur)
    case RollbackCur => p.(cur := p.root)
    case CommitRoot => p.(db := p.root)
  }

  ghost function Views(s: Store): Plain
    requires IsEvo(s)
  {
    Plain(View(s.parent.parent), View(s.parent), View(s))
  }

  lemma EvoStepRefines(s: Store, op: EvoOp)
    requires IsEvo(s) && Allowed(s, op)
    ensures IsEvo(EvoStep(s, op)) && Views(EvoStep(s, op)) == PlainStep(Views(s), op)
  {
    match op
    case WriteCur(k, v) => WriteIsSound(s, k, v);
    case EraseCur(k) => EraseIsSound(s, k);
    case CommitCur => CommittedIsSound(s);
    case RollbackCur => NothingPending(s.parent);
    case CommitRoot =>
      CommittedIsSound(s.parent);
      NothingPending(s.parent);
      NothingPending(Committed(s.parent));
      CleanIsEmpty(s);
  }

  lemma CleanIsEmpty(s: Store)
    requires Clean(s) && Sound(s)
    ensures s == Tx(map[], {}, 0, s.parent)
  {
    assert s.writes.Keys == {};
  }

  ghost predicate IsEvoRun(s: Store, ops: seq<EvoOp>)
    decreases |ops|
  {
    ops != [] ==> IsEvo(s) && Allowed(s, ops[0]) && IsEvoRun(EvoStep(s, ops[0]), ops[1..])
  }

  ghost function EvoRun(s: Store, ops: seq<EvoOp>): Store
    requires IsEvoRun(s, ops)
    decreases |ops|
  {
    if ops == [] then s else EvoRun(EvoStep(s, ops[0]), ops[1..])
  }

  function PlainRun(p: Plain, ops: seq<EvoOp>): Plain
    decreases |ops|
  {
    if ops == [] then p else PlainRun(PlainStep(p, ops[0]), ops[1..])
  }

  // Every run of the stacked transactions is a run on three plain maps, with exact memory usage throughout.
  lemma {:induction false} EvoRunRefines(s: Store, ops: seq<EvoOp>)
    requires IsEvo(s) && IsEvoRun(s, ops)
    ensures IsEvo(EvoRun(s, ops)) && Views(EvoRun(s, ops)) == PlainRun(Views(s), ops)
    decreases |ops|
  {
    if ops != [] {
      hide EvoStep, IsEvo, PlainStep, Allowed;
      EvoStepRefines(s, ops[0]);
      EvoRunRefines(EvoStep(s, ops[0]), ops[1..]);
    }
  }

  /* ----- The order of keys ----- */

  predicate Less(a: Key, b: Key) {
    if b == [] then false
    else if a == [] then true
    else if a[0] != b[0] then a[0] < b[0]
    else Less(a[1..], b[1..])
  }

  // a is a proper prefix of b, or has the smaller byte where they first differ.
  ghost predicate Precedes(a: Key, b: Key) {
    exists k: nat :: PartsAt(a, b, k)
  }

  // The place where they part.
  predicate PartsAt(a: Key, b: Key, k: nat) {
    k <= |a| && k < |b| && a[..k] == b[..k] && (k == |a| || a[k] < b[k])
  }

  lemma PartsLater(a: Key, b: Key, k: nat)
    requires a != [] && b != []
    ensures PartsAt(a, b, 0) <==> a[0] < b[0]
    ensures PartsAt(a, b, k + 1) <==> a[0] == b[0] && PartsAt(a[1..], b[1..], k)
  {
    if k < |a| && k + 1 < |b| {
      assert a[..k + 1] == [a[0]] + a[1..][..k] && b[..k + 1] == [b[0]] + b[1..][..k];
    }
  }

  lemma {:induction false} LessIff(a: Key, b: Key)
    ensures Less(a, b) <==> Precedes(a, b)
  {
    if a == [] || b == [] {
      assert PartsAt(a, b, 0) <==> Less(a, b);
    } else {
      hide PartsAt;
      PartsLater(a, b, 0);
      LessIff(a[1..], b[1..]);
      if k: nat :| PartsAt(a[1..], b[1..], k) { PartsLater(a, b, k); }
      if k: nat :| PartsAt(a, b, k) { if k > 0 { PartsLater(a, b, k - 1); } }
    }
  }

  lemma {:induction false} LessIrreflexive(a: Key)
    ensures !Less(a, a)
  {
    if a != [] { LessIrreflexive(a[1..]); }
  }

  lemma {:induction false} LessTransitive(a: Key, b: Key, c: Key)
    requires Less(a, b) && Less(b, c)
    ensures Less(a, c) && Precedes(a, c)
  {
    if a != [] && a[0] == b[0] == c[0] { LessTransitive(a[1..], b[1..], c[1..]); }
    LessIff(a, c);
  }

  // Of two keys that differ exactly one precedes the other.
  lemma {:induction false} LessTotal(a: Key, b: Key)
    ensures a == b || Less(a, b) || Less(b, a)
    ensures if a == b then !Precedes(a, b) else Precedes(a, b) <==> !Precedes(b, a)
  {
    hide Precedes;
    if a != [] && b != [] && a[0] == b[0] {
      LessTotal(a[1..], b[1..]);
      assert a == [a[0]] + a[1..] && b == [b[0]] + b[1..];
    }
    LessIff(a, b);
    LessIff(b, a);
    LessIrreflexive(a);
    if Less(a, b) && Less(b, a) { LessTransitive(a, b, a); }
  }

  predicate Sorted(keys: seq<Key>) {
    forall i, j | 0 <= i < j < |keys| :: Less(keys[i], keys[j])
  }

  // The keys of a map in order, each once.
  ghost predicate Enumerates(keys: seq<Key>, s: set<Key>) {
    Sorted(keys) && forall k :: k in keys <==> k in s
  }
}

module DbTransactions {
  import opened DbStores
  import Stores = DbStores
  import opened Totals

  method EraseAll(store: Store, keys: set<Key>) returns (target: Store)
    requires Sound(store)
    ensures Sound(target) && target == ErasedAll(store, keys)
  {
    hide View, PendingSize;
    target := store;
    var left := keys;
    while left != {}
      invariant left <= keys && Sound(target) && SameButPending(store, target)
      invariant store.Db? ==> target.data == store.data - (keys - left)
      invariant store.Tx? ==>
                target.writes == store.writes - (keys - left) && target.deletes == store.deletes + (keys - left)
      decreases |left|
    {
      var k :| k in left;
      EraseIsSound(target, k);
      target := Stores.Erase(target, k);
      OneMoreErased(store, keys, left, k);
      left := left - {k};
    }
    assert keys - left == keys;
  }

  method WriteAll(store: Store, more: map<Key, Value>) returns (target: Store)
    requires Sound(store)
    ensures Sound(target) && target == WrittenAll(store, more)
  {
    hide View, PendingSize;
    target := store;
    var left := more.Keys;
    NoneWritten(store, more);
    while left != {}
      invariant left <= more.Keys && Sound(target) && SameButPending(store, target)
      invariant store.Db? ==> target.data == store.data + Written(more - left)
      invariant store.Tx? ==>
                target.writes == store.writes + (more - left) && target.deletes == store.deletes - (more - left).Keys
      decreases |left|
    {
      var k :| k in left;
      WriteIsSound(target, k, more[k]);
      target := Stores.Write(target, k, more[k]);
      OneMoreWritten(store, more, left, k);
      left := left - {k};
    }
    assert more - left == more;
  }

  predicate SameButPending(a: Store, b: Store) {
    (a.Db? <==> b.Db?) && (a.Tx? ==> a.parent == b.parent)
  }

  lemma OneMoreErased(s: Store, keys: set<Key>, left: set<Key>, k: Key)
    requires k in left && left <= keys
    ensures s.Db? ==> s.data - (keys - left) - {k} == s.data - (keys - (left - {k}))
    ensures s.Tx? ==> s.writes - (keys - left) - {k} == s.writes - (keys - (left - {k}))
    ensures s.Tx? ==> s.deletes + (keys - left) + {k} == s.deletes + (keys - (left - {k}))
  {
  }

  lemma NoneWritten(s: Store, more: map<Key, Value>)
    ensures more - more.Keys == map[]
    ensures s.Db? ==> s.data + Written(map[]) == s.data
    ensures s.Tx? ==> s.writes + map[] == s.writes
  {
  }

  lemma OneMoreWritten(s: Store, more: map<Key, Value>, left: set<Key>, k: Key)
    requires k in left && k in more
    ensures s.Db? ==> (s.data + Written(more - left))[k := more[k].bytes] == s.data + Written(more - (left - {k}))
    ensures s.Tx? ==> (s.writes + (more - left))[k := more[k]] == s.writes + (more - (left - {k}))
    ensures s.Tx? ==> s.deletes - (more - left).Keys - {k} == s.deletes - (more - (left - {k})).Keys
  {
  }

  class DbTransaction {
    var writes: map<Key, Value>
    var deletes: set<Key>
    var memoryUsage: int
    var parent: Store

    ghost function Model(): Store
      reads this
    {
      Tx(writes, deletes, memoryUsage, parent)
    }

    constructor (parent: Store)
      requires Sound(parent)
      ensures Sound(Model()) && this.parent == parent && View(Model()) == View(parent) && writes == map[] &&
              deletes == {}
    {
      this.parent := parent;
      writes, deletes, memoryUsage := map[], {}, 0;
      new;
      NothingPending(parent);
    }

    method Write(k: Key, v: Value)
      requires Sound(Model())
      modifies this
      ensures Model() == Stores.Write(old(Model()), k, v)
      ensures Sound(Model()) && View(Model()) == old(View(Model()))[k := v.bytes] && parent == old(parent)
    {
      hide View, Sound;
      WriteIsSound(Model(), k, v);
      if k in deletes {
        deletes := deletes - {k};
        memoryUsage := memoryUsage - |k|;
      }
      if k in writes {
        memoryUsage := memoryUsage - (|k| + |writes[k].bytes|);
      }
      writes := writes[k := v];
      memoryUsage := memoryUsage + |k| + |v.bytes|;
      assert deletes == old(deletes) - {k};
    }

    method Read(codec: Codec, k: Key, kind: nat) returns (r: ReadResult)
      ensures r == Stores.Read(codec, Model(), k, kind)
    {
      if k in deletes {
        return Missing;
      }
      if k in writes {
        if writes[k].kind != kind {
          return WrongType;
        }
        return Found(writes[k]);
      }
      r := Stores.Read(codec, parent, k, kind);
    }

    method Exists(k: Key) returns (b: bool)
      requires Sound(Model())
      ensures b <==> k in View(Model())
    {
      ExistsIff(Model(), k);
      if k in deletes {
        return false;
      }
      if k in writes {
        return true;
      }
      b := Stores.Exists(parent, k);
    }

    method Erase(k: Key)
      requires Sound(Model())
      modifies this
      ensures Model() == Stores.Erase(old(Model()), k)
      ensures Sound(Model()) && View(Model()) == old(View(Model())) - {k} && parent == old(parent)
    {
      hide View, Sound;
      EraseIsSound(Model(), k);
      if k in writes {
        memoryUsage := memoryUsage - (|k| + |writes[k].bytes|);
        writes := writes - {k};
      }
      if k !in deletes {
        deletes := deletes + {k};
        memoryUsage := memoryUsage + |k|;
      }
      assert writes == old(writes) - {k} && deletes == old(deletes) + {k};
    }

    // Rolls back: what is seen again is the parent's map.
    method Clear()
      requires Sound(Model())
      modifies this
      ensures Sound(Model()) && View(Model()) == View(parent) && parent == old(parent) && writes == map[] &&
              deletes == {}
    {
      writes, deletes, memoryUsage := map[], {}, 0;
      NothingPending(parent);
    }

    // The target becomes the map the transaction stood for, and the transaction goes on standing for it.
    method Commit()
      requires Sound(Model())
      modifies this
      ensures Model() == Committed(old(Model()))
      ensures Sound(Model()) && View(parent) == old(View(Model())) && View(Model()) == View(parent)
    {
      CommittedIsSound(Model());
      ErasedAllIsSound(parent, deletes);
      hide View, PendingSize, Written, ErasedAll, WrittenAll;
      var target := EraseAll(parent, deletes);
      target := WriteAll(target, writes);
      parent := target;
      writes, deletes, memoryUsage := map[], {}, 0;
    }

    // Never negative, so never replaced by zero.
    method GetMemoryUsage() returns (n: int)
      requires Sound(Model())
      ensures n == memoryUsage == PendingSize(writes, deletes)
    {
      n := memoryUsage;
      if n < 0 {
        n := 0;
      }
    }
  }

  /* ----- The merging iterator ----- */

  function KeysFrom(keys: seq<Key>, i: nat): set<Key> {
    set j | i <= j < |keys| :: keys[j]
  }

  // The parent's keys from i on that are neither deleted nor overwritten.
  function KeptFrom(writes: map<Key, Value>, deletes: set<Key>, keys: seq<Key>, i: nat): set<Key> {
    set j | i <= j < |keys| && keys[j] !in deletes && keys[j] !in writes :: keys[j]
  }

  lemma KeysFromNext(keys: seq<Key>, i: nat)
    requires Sorted(keys) && i < |keys|
    ensures KeysFrom(keys, i) == KeysFrom(keys, i + 1) + {keys[i]} && keys[i] !in KeysFrom(keys, i + 1)
  {
    LessIrreflexive(keys[i]);
  }

  lemma KeptFromNext(writes: map<Key, Value>, deletes: set<Key>, keys: seq<Key>, i: nat)
    requires Sorted(keys) && i < |keys|
    ensures var here, next := KeptFrom(writes, deletes, keys, i), KeptFrom(writes, deletes, keys, i + 1);
            keys[i] !in next && here == if keys[i] !in deletes && keys[i] !in writes then next + {keys[i]} else next
  {
    LessIrreflexive(keys[i]);
  }

  method LowerBound(keys: seq<Key>, key: Key) returns (i: nat)
    requires Sorted(keys)
    ensures i <= |keys| && (forall j | 0 <= j < i :: Less(keys[j], key)) &&
            (forall j | i <= j < |keys| :: !Less(keys[j], key))
  {
    i := 0;
    while i < |keys| && Less(keys[i], key)
      invariant i <= |keys| && forall j | 0 <= j < i :: Less(keys[j], key)
    {
      i := i + 1;
    }
    forall j | i <= j < |keys| ensures !Less(keys[j], key) {
      if j > i && Less(keys[j], key) { LessTransitive(keys[i], keys[j], key); }
    }
  }

  lemma SoughtKeys(keys: seq<Key>, i: nat, key: Key)
    requires i <= |keys| && (forall j | 0 <= j < i :: Less(keys[j], key)) &&
             (forall j | i <= j < |keys| :: !Less(keys[j], key))
    ensures KeysFrom(keys, i) == set k | k in KeysFrom(keys, 0) && !Less(k, key)
  {
  }

  lemma SoughtKept(writes: map<Key, Value>, deletes: set<Key>, keys: seq<Key>, i: nat, key: Key)
    requires i <= |keys| && (forall j | 0 <= j < i :: Less(keys[j], key)) &&
             (forall j | i <= j < |keys| :: !Less(keys[j], key))
    ensures KeptFrom(writes, deletes, keys, i) == set k | k in KeptFrom(writes, deletes, keys, 0) && !Less(k, key)
  {
  }

  // The keys seen so far are in order, before all those to come, and together they are all.
  ghost predicate Visited(all: set<Key>, keys: seq<Key>, rest: set<Key>) {
    && Sorted(keys) && rest <= all && (forall k :: k in keys <==> k in all && k !in rest)
    && (forall i, k | 0 <= i < |keys| && k in rest :: Less(keys[i], k))
  }

  lemma NoneVisited(all: set<Key>)
    ensures Visited(all, [], all)
  {
  }

  lemma OneVisited(all: set<Key>, keys: seq<Key>, rest: set<Key>, key: Key)
    requires Visited(all, keys, rest) && key in rest && forall k | k in rest :: k == key || Less(key, k)
    ensures Visited(all, keys + [key], rest - {key}) && |rest - {key}| < |rest|
  {
  }

  lemma AllVisited(all: set<Key>, keys: seq<Key>)
    requires Visited(all, keys, {})
    ensures Enumerates(keys, all)
  {
  }

  lemma SortedPrecede(keys: seq<Key>, all: set<Key>)
    requires Enumerates(keys, all)
    ensures forall i, j | 0 <= i < j < |keys| :: Precedes(keys[i], keys[j])
    ensures forall k :: k in keys <==> k in all
  {
    hide Precedes, Less;
    forall i, j | 0 <= i < j < |keys| ensures Precedes(keys[i], keys[j]) {
      LessIff(keys[i], keys[j]);
    }
  }

  class TransactionIterator {
    // The transaction is not changed while it is iterated over. Its keys come in order, and so do those of the
    // parent's iterator.
    const transaction: Store
    const writes: map<Key, Value>
    const deletes: set<Key>
    const writeKeys: seq<Key>
    const parentKeys: seq<Key>
    var transactionIt: nat
    var parentIt: nat
    var parentKey: Key
    var curIsParent: bool

    ghost predicate Fits() {
      && transaction.Tx? && transaction.writes == writes && transaction.deletes == deletes && Sound(transaction)
      && Enumerates(writeKeys, writes.Keys) && Enumerates(parentKeys, View(transaction.parent).Keys)
    }

    ghost predicate InRange()
      reads this
    {
      Fits() && transactionIt <= |writeKeys| && parentIt <= |parentKeys|
    }

    // The keys still to come.
    ghost function Rest(): set<Key>
      reads this
    {
      KeysFrom(writeKeys, transactionIt) + KeptFrom(writes, deletes, parentKeys, parentIt)
    }

    // The parent's cursor is on a key that counts.
    ghost predicate Skipped()
      reads this
    {
      && InRange()
      && (parentIt < |parentKeys| ==>
         parentKey == parentKeys[parentIt] && parentKey !in deletes && parentKey !in writes)
    }

    ghost predicate Ready()
      reads this
    {
      && Skipped()
      && (transactionIt < |writeKeys| && parentIt < |parentKeys| ==>
         (curIsParent <==> !Less(writeKeys[transactionIt], parentKey)))
      && (transactionIt < |writeKeys| && parentIt == |parentKeys| ==> !curIsParent)
      && (transactionIt == |writeKeys| && parentIt < |parentKeys| ==> curIsParent)
    }

    ghost function Current(): Key
      requires Ready() && Rest() != {}
      reads this
    {
      if curIsParent then parentKey
      else if transactionIt < |writeKeys| then writeKeys[transactionIt] else []
    }

    constructor (transaction: Store, writeKeys: seq<Key>, parentKeys: seq<Key>)
      requires transaction.Tx? && Sound(transaction)
      requires Enumerates(writeKeys, transaction.writes.Keys) && Enumerates(parentKeys, View(transaction.parent).Keys)
      ensures Ready() && Rest() == {} && this.transaction == transaction
    {
      this.transaction, this.writeKeys, this.parentKeys := transaction, writeKeys, parentKeys;
      writes, deletes := transaction.writes, transaction.deletes;
      transactionIt, parentIt, parentKey, curIsParent := |writeKeys|, |parentKeys|, [], false;
    }

    method SkipDeletedAndOverwritten()
      requires InRange()
      modifies this`parentIt, this`parentKey
      ensures Skipped() && Rest() == old(Rest())
    {
      while parentIt < |parentKeys|
        invariant InRange() && KeptFrom(writes, deletes, parentKeys, parentIt)
                  == old(KeptFrom(writes, deletes, parentKeys, parentIt))
        decreases |parentKeys| - parentIt
      {
        parentKey := parentKeys[parentIt];
        if parentKey !in deletes && parentKey !in writes {
          break;
        }
        KeptFromNext(writes, deletes, parentKeys, parentIt);
        parentIt := parentIt + 1;
      }
    }

    method DecideCur()
      requires Skipped()
      modifies this`curIsParent
      ensures Ready() && Rest() == old(Rest())
    {
      if transactionIt != |writeKeys| && parentIt == |parentKeys| {
        curIsParent := false;
      } else if transactionIt == |writeKeys| && parentIt != |parentKeys| {
        curIsParent := true;
      } else if transactionIt != |writeKeys| && parentIt != |parentKeys| {
        if Less(writeKeys[transactionIt], parentKey) {
          curIsParent := false;
        } else {
          curIsParent := true;
        }
      }
    }

    lemma OverlayIsRest()
      requires Fits()
      ensures KeysFrom(writeKeys, 0) + KeptFrom(writes, deletes, parentKeys, 0) == View(transaction).Keys
    {
    }

    method SeekToFirst()
      requires Fits()
      modifies this
      ensures Ready() && Rest() == View(transaction).Keys
    {
      transactionIt, parentIt := 0, 0;
      OverlayIsRest();
      SkipDeletedAndOverwritten();
      DecideCur();
    }

    // From the first key that is not less than the one sought.
    method Seek(key: Key)
      requires Fits()
      modifies this
      ensures Ready() && Rest() == set k | k in View(transaction) && !Precedes(k, key)
    {
      transactionIt := LowerBound(writeKeys, key);
      parentIt := LowerBound(parentKeys, key);
      OverlayIsRest();
      SoughtKeys(writeKeys, transactionIt, key);
      SoughtKept(writes, deletes, parentKeys, parentIt, key);
      forall k ensures Less(k, key) <==> Precedes(k, key) {
        LessIff(k, key);
      }
      hide Less, Precedes;
      assert Rest() == set k | k in View(transaction) && !Precedes(k, key);
      SkipDeletedAndOverwritten();
      DecideCur();
    }

    method Valid() returns (b: bool)
      requires Ready()
      ensures b <==> Rest() != {}
    {
      b := transactionIt != |writeKeys| || parentIt != |parentKeys|;
      if transactionIt < |writeKeys| { KeysFromNext(writeKeys, transactionIt); }
      if parentIt < |parentKeys| { KeptFromNext(writes, deletes, parentKeys, parentIt); }
    }

    // The current key is the smallest of those to come.
    lemma CurrentIsLeast()
      requires Ready() && Rest() != {}
      ensures Current() in Rest()
      ensures forall k | k in Rest() :: k == Current() || (Less(Current(), k) && Precedes(Current(), k))
    {
      var t, p := transactionIt, parentIt;
      hide Less, Precedes;
      forall k | k in Rest() ensures k == Current() || (Less(Current(), k) && Precedes(Current(), k)) {
        LessIff(Current(), k);
        if t < |writeKeys| && p < |parentKeys| {
          LessTotal(writeKeys[t], parentKeys[p]);
          HeadIsLeast(writeKeys, t, parentKeys, p, k);
        }
      }
    }

    method GetKey() returns (key: Key)
      requires Ready()
      ensures Rest() == {} ==> key == []
      ensures Rest() != {} ==>
                key == Current() && key in Rest() && forall k | k in Rest() :: k == key || Precedes(key, k)
    {
      var valid := Valid();
      if !valid {
        return [];
      }
      CurrentIsLeast();
      if curIsParent {
        return parentKeys[parentIt];
      } else {
        return writeKeys[transactionIt];
      }
    }

    // What the overlay holds under the current key, unless it waits to be written as another type.
    method GetValue(codec: Codec, kind: nat) returns (r: ReadResult)
      requires Ready()
      ensures Rest() == {} ==> r == Missing
      ensures Rest() != {} ==> Current() in View(transaction) && r == Stores.Read(codec, transaction, Current(), kind)
      ensures r.Found? ==> Rest() != {} && r.value == Value(kind, View(transaction)[Current()])
    {
      var valid := Valid();
      if !valid {
        return Missing;
      }
      assert Current() in View(transaction);
      ReadSeesView(codec, transaction, Current(), kind);
      r := Stores.Read(codec, transaction, if curIsParent then parentKey else writeKeys[transactionIt], kind);
    }

    // A whole traversal gives the keys of the overlay in order, each once.
    method Traverse() returns (keys: seq<Key>)
      requires Fits()
      modifies this
      ensures Enumerates(keys, View(transaction).Keys)
      ensures forall k :: k in keys <==> k in View(transaction)
      ensures forall i, j | 0 <= i < j < |keys| :: Precedes(keys[i], keys[j])
    {
      hide Ready, Rest, Visited, Current, View, Enumerates, Fits;
      SeekToFirst();
      ghost var all := Rest();
      keys := [];
      NoneVisited(all);
      var valid := Valid();
      while valid
        invariant Ready() && (valid <==> Rest() != {}) && Visited(all, keys, Rest())
        decreases |Rest()|
      {
        var key := GetKey();
        CurrentIsLeast();
        OneVisited(all, keys, Rest(), key);
        Next();
        keys := keys + [key];
        valid := Valid();
      }
      AllVisited(all, keys);
      SortedPrecede(keys, all);
    }

    method Next()
      requires Ready()
      modifies this
      ensures Ready() && Rest() == if old(Rest()) == {} then {} else old(Rest()) - {old(Current())}
    {
      var valid := Valid();
      if !valid {
        return;
      }
      ghost var key := Current();
      if curIsParent {
        assert parentIt < |parentKeys|;
        KeptFromNext(writes, deletes, parentKeys, parentIt);
        assert key !in KeysFrom(writeKeys, transactionIt);
        parentIt := parentIt + 1;
        assert Rest() == old(Rest()) - {key};
        SkipDeletedAndOverwritten();
      } else {
        assert transactionIt < |writeKeys|;
        KeysFromNext(writeKeys, transactionIt);
        assert key in writes;
        transactionIt := transactionIt + 1;
        assert Rest() == old(Rest()) - {key};
      }
      DecideCur();
    }
  }

  lemma HeadIsLeast(a: seq<Key>, i: nat, b: seq<Key>, j: nat, k: Key)
    requires Sorted(a) && Sorted(b) && i < |a| && j < |b| && a[i] != b[j]
    requires k in KeysFrom(a, i) || k in KeysFrom(b, j)
    ensures Less(a[i], b[j]) ==> k == a[i] || Less(a[i], k)
    ensures Less(b[j], a[i]) ==> k == b[j] || Less(b[j], k)
  {
    if k in KeysFrom(a, i) {
      var n :| i <= n < |a| && a[n] == k;
      if Less(b[j], a[i]) && n > i { LessTransitive(b[j], a[i], k); }
    } else {
      var n :| j <= n < |b| && b[n] == k;
      if Less(a[i], b[j]) && n > j { LessTransitive(a[i], b[j], k); }
    }
  }
}
