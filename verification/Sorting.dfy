/** The stable sort of the standard library. */
module Sorting {
  predicate Sorted<T>(s: seq<T>, key: T -> real) {
    forall i, j :: 0 <= i < j < |s| ==> key(s[i]) <= key(s[j])
  }

  function Insert<T>(s: seq<T>, x: T, key: T -> real): (r: seq<T>)
    ensures |r| == |s| + 1
  {
    if s == [] || key(s[|s| - 1]) <= key(x) then s + [x]
    else Insert(s[..|s| - 1], x, key) + [s[|s| - 1]]
  }

  function SortByKey<T>(s: seq<T>, key: T -> real): (r: seq<T>)
    ensures |r| == |s|
  {
    if s == [] then [] else Insert(SortByKey(s[..|s| - 1], key), s[|s| - 1], key)
  }

  function Only<T>(x: T, key: T -> real, k: real): seq<T> {
    if key(x) == k then [x] else []
  }

  /** The elements with the given key, in order. */
  function WithKey<T>(s: seq<T>, key: T -> real, k: real): seq<T> {
    if s == [] then []
    else WithKey(s[..|s| - 1], key, k) + Only(s[|s| - 1], key, k)
  }

  // ---- Sorting sorts, and keeps the order of equal keys ----

  lemma {:induction false} InsertPermutes<T>(s: seq<T>, x: T, key: T -> real)
    ensures multiset(Insert(s, x, key)) == multiset(s) + multiset{x}
  {
    if s != [] && key(s[|s| - 1]) > key(x) {
      InsertPermutes(s[..|s| - 1], x, key);
      assert s == s[..|s| - 1] + [s[|s| - 1]];
    }
  }

  lemma {:induction false} InsertSorts<T>(s: seq<T>, x: T, key: T -> real)
    requires Sorted(s, key)
    ensures Sorted(Insert(s, x, key), key)
  {
    if s != [] && key(s[|s| - 1]) > key(x) {
      var init, last := s[..|s| - 1], s[|s| - 1];
      InsertSorts(init, x, key);
      InsertPermutes(init, x, key);
      var r := Insert(init, x, key);
      forall i | 0 <= i < |r|
        ensures key(r[i]) <= key(last)
      {
        assert r[i] in multiset(r);
        assert r[i] == x || r[i] in multiset(init);
      }
    }
  }

  lemma {:induction false} InsertIsStable<T>(s: seq<T>, x: T, key: T -> real, k: real)
    ensures WithKey(Insert(s, x, key), key, k) == WithKey(s, key, k) + Only(x, key, k)
  {
    if s == [] || key(s[|s| - 1]) <= key(x) {
      assert (s + [x])[..|s|] == s;
    } else {
      var r := Insert(s[..|s| - 1], x, key);
      InsertIsStable(s[..|s| - 1], x, key, k);
      assert (r + [s[|s| - 1]])[..|r|] == r;
    }
  }

  lemma {:induction false} SortSorts<T>(s: seq<T>, key: T -> real)
    ensures Sorted(SortByKey(s, key), key)
    ensures multiset(SortByKey(s, key)) == multiset(s)
  {
    if s != [] {
      SortSorts(s[..|s| - 1], key);
      InsertSorts(SortByKey(s[..|s| - 1], key), s[|s| - 1], key);
      InsertPermutes(SortByKey(s[..|s| - 1], key), s[|s| - 1], key);
      assert s == s[..|s| - 1] + [s[|s| - 1]];
    }
  }

  lemma {:induction false} SortIsStable<T>(s: seq<T>, key: T -> real, k: real)
    ensures WithKey(SortByKey(s, key), key, k) == WithKey(s, key, k)
  {
    if s != [] {
      SortIsStable(s[..|s| - 1], key, k);
      InsertIsStable(SortByKey(s[..|s| - 1], key), s[|s| - 1], key, k);
    }
  }

  ghost predicate SameWithKey<T>(a: seq<T>, b: seq<T>, key: T -> real) {
    forall k :: WithKey(a, key, k) == WithKey(b, key, k)
  }

  lemma {:induction false} WithKeyFinds<T>(s: seq<T>, key: T -> real, i: nat)
    requires i < |s|
    ensures WithKey(s, key, key(s[i])) != []
  {
    if i < |s| - 1 {
      WithKeyFinds(s[..|s| - 1], key, i);
    }
  }

  lemma {:induction false} WithKeyIn<T>(s: seq<T>, key: T -> real, k: real)
    requires WithKey(s, key, k) != []
    ensures exists i :: 0 <= i < |s| && key(s[i]) == k
  {
    if key(s[|s| - 1]) != k {
      WithKeyIn(s[..|s| - 1], key, k);
      var i :| 0 <= i < |s| - 1 && key(s[..|s| - 1][i]) == k;
      assert key(s[i]) == k;
    }
  }

  lemma LastIsLargest<T>(a: seq<T>, b: seq<T>, key: T -> real)
    requires Sorted(b, key) && SameWithKey(a, b, key) && a != []
    ensures b != [] && key(a[|a| - 1]) <= key(b[|b| - 1])
  {
    var k := key(a[|a| - 1]);
    WithKeyFinds(a, key, |a| - 1);
    WithKeyIn(b, key, k);
  }

  /** A sorted sequence with the same elements for each key, in the same order, is the same. */
  lemma {:induction false} StableSortIsUnique<T>(a: seq<T>, b: seq<T>, key: T -> real)
    requires Sorted(a, key) && Sorted(b, key) && SameWithKey(a, b, key)
    ensures a == b
  {
    if a == [] {
      if b != [] {
        LastIsLargest(b, a, key);
      }
    } else {
      LastIsLargest(a, b, key);
      LastIsLargest(b, a, key);
      var init, init' := a[..|a| - 1], b[..|b| - 1];
      WithKeyOfInit(a, b, key, key(a[|a| - 1]));
      SameWithoutLast(a, b, key);
      StableSortIsUnique(init, init', key);
      assert a == init + [a[|a| - 1]] && b == init' + [b[|b| - 1]];
    }
  }

  lemma WithKeyOfInit<T>(a: seq<T>, b: seq<T>, key: T -> real, k: real)
    requires a != [] && b != [] && key(a[|a| - 1]) == key(b[|b| - 1])
    requires WithKey(a, key, k) == WithKey(b, key, k)
    ensures WithKey(a[..|a| - 1], key, k) == WithKey(b[..|b| - 1], key, k)
    ensures key(a[|a| - 1]) == k ==> a[|a| - 1] == b[|b| - 1]
  {
    var p, q := Only(a[|a| - 1], key, k), Only(b[|b| - 1], key, k);
    AppendCancels(WithKey(a[..|a| - 1], key, k), p, WithKey(b[..|b| - 1], key, k), q);
    assert key(a[|a| - 1]) == k ==> p[0] == q[0];
  }

  lemma SameWithoutLast<T>(a: seq<T>, b: seq<T>, key: T -> real)
    requires a != [] && b != [] && key(a[|a| - 1]) == key(b[|b| - 1]) && SameWithKey(a, b, key)
    ensures SameWithKey(a[..|a| - 1], b[..|b| - 1], key)
  {
    var init, init' := a[..|a| - 1], b[..|b| - 1];
    forall k: real
      ensures WithKey(init, key, k) == WithKey(init', key, k)
    {
      WithKeyOfInit(a, b, key, k);
    }
  }

  lemma AppendCancels<T>(u: seq<T>, p: seq<T>, v: seq<T>, q: seq<T>)
    requires u + p == v + q && |p| == |q|
    ensures u == v && p == q
  {
    assert |u + p| == |v + q|;
    assert u == (u + p)[..|u|] && v == (v + q)[..|v|];
    assert p == (u + p)[|u|..] && q == (v + q)[|v|..];
  }

  /** What sorting means: ascending, and stable. */
  lemma SortExactly<T>(s: seq<T>, r: seq<T>, key: T -> real)
    ensures r == SortByKey(s, key) <==> Sorted(r, key) && SameWithKey(r, s, key)
  {
    SortSorts(s, key);
    forall k
      ensures WithKey(SortByKey(s, key), key, k) == WithKey(s, key, k)
    {
      SortIsStable(s, key, k);
    }
    if Sorted(r, key) && SameWithKey(r, s, key) {
      StableSortIsUnique(r, SortByKey(s, key), key);
    }
  }
}
