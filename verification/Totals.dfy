/** Sizes of finite sets, and sums over finite sets and over the values of finite maps. */
module Totals {

  lemma ProperSubsetIsSmaller<T>(a: set<T>, b: set<T>)
    requires a < b
    ensures |a| < |b|
  {
    var x :| x in b && x !in a;
    SubsetIsNoLarger(a, b - {x});
  }

  lemma {:induction false} SubsetIsNoLarger<T>(a: set<T>, b: set<T>)
    requires a <= b
    ensures |a| <= |b|
    decreases |a|
  {
    if a != {} {
      var x :| x in a;
      SubsetIsNoLarger(a - {x}, b - {x});
    }
  }

  ghost function SetTotal<T(!new)>(s: set<T>, weight: T -> nat): nat {
    if s == {} then 0
    else var x :| x in s; weight(x) + SetTotal(s - {x}, weight)
  }

  lemma {:induction false} SetTotalRemove<T(!new)>(s: set<T>, x: T, weight: T -> nat)
    requires x in s
    ensures SetTotal(s, weight) == weight(x) + SetTotal(s - {x}, weight)
    decreases |s|
  {
    var y :| y in s && SetTotal(s, weight) == weight(y) + SetTotal(s - {y}, weight);
    if y != x {
      SetTotalRemove(s - {y}, x, weight);
      SetTotalRemove(s - {x}, y, weight);
      assert s - {y} - {x} == s - {x} - {y};
    }
  }

  lemma SetTotalAdd<T(!new)>(s: set<T>, x: T, weight: T -> nat)
    requires x !in s
    ensures SetTotal(s + {x}, weight) == weight(x) + SetTotal(s, weight)
  {
    SetTotalRemove(s + {x}, x, weight);
    assert s + {x} - {x} == s;
  }

  lemma SingleTotal<T(!new)>(a: T, weight: T -> nat)
    ensures SetTotal({a}, weight) == weight(a)
  {
    SetTotalAdd({}, a, weight);
    assert {} + {a} == {a};
  }

  lemma {:induction false} SetTotalUnion<T(!new)>(a: set<T>, b: set<T>, weight: T -> nat)
    requires a !! b
    ensures SetTotal(a + b, weight) == SetTotal(a, weight) + SetTotal(b, weight)
    decreases |b|
  {
    if b == {} {
      assert a + b == a;
    } else {
      var x :| x in b;
      SetTotalUnion(a, b - {x}, weight);
      SetTotalRemove(b, x, weight);
      SetTotalRemove(a + b, x, weight);
      assert a + b - {x} == a + (b - {x});
    }
  }

  lemma SetTotalSubset<T(!new)>(a: set<T>, b: set<T>, weight: T -> nat)
    requires a <= b
    ensures SetTotal(a, weight) <= SetTotal(b, weight)
  {
    SetTotalUnion(a, b - a, weight);
    assert a + (b - a) == b;
  }

  lemma {:induction false} SetTotalZeroIff<T(!new)>(s: set<T>, weight: T -> nat)
    ensures SetTotal(s, weight) == 0 <==> forall x | x in s :: weight(x) == 0
    decreases |s|
  {
    if s != {} {
      var x :| x in s;
      SetTotalZeroIff(s - {x}, weight);
      SetTotalRemove(s, x, weight);
    }
  }

  ghost function MapTotal<K(!new), V>(m: map<K, V>, weight: V -> nat): nat {
    if m == map[] then 0
    else var k :| k in m; weight(m[k]) + MapTotal(m - {k}, weight)
  }

  lemma {:induction false} MapTotalRemove<K(!new), V>(m: map<K, V>, k: K, weight: V -> nat)
    requires k in m
    ensures MapTotal(m, weight) == weight(m[k]) + MapTotal(m - {k}, weight)
    decreases |m|
  {
    var j :| j in m && MapTotal(m, weight) == weight(m[j]) + MapTotal(m - {j}, weight);
    if j != k {
      MapTotalRemove(m - {j}, k, weight);
      MapTotalRemove(m - {k}, j, weight);
      assert m - {j} - {k} == m - {k} - {j};
    }
  }

  lemma MapTotalPut<K(!new), V>(m: map<K, V>, k: K, v: V, weight: V -> nat)
    ensures MapTotal(m[k := v], weight) == weight(v) + MapTotal(m - {k}, weight)
  {
    MapTotalRemove(m[k := v], k, weight);
    assert m[k := v] - {k} == m - {k};
  }
}
