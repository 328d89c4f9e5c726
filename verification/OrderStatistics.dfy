/** What an index into a sorted sequence means. */
module OrderStatistics {
  import opened Lists
  import opened Sorting

  predicate Within(k: real, v: real, closed: bool) {
    k < v || (closed && k == v)
  }

  /** How many elements have a key below `v` or, if `closed`, at most `v`. */
  function Count<T>(s: seq<T>, key: T -> real, v: real, closed: bool): nat {
    if s == [] then 0
    else Count(s[..|s| - 1], key, v, closed) + if Within(key(s[|s| - 1]), v, closed) then 1 else 0
  }

  // ---- Which elements an index selects ----

  lemma {:induction false} CountOfInsert<T>(s: seq<T>, x: T, key: T -> real, v: real, closed: bool)
    ensures Count(Insert(s, x, key), key, v, closed)
         == Count(s, key, v, closed) + if Within(key(x), v, closed) then 1 else 0
  {
    if s == [] || key(s[|s| - 1]) <= key(x) {
      assert (s + [x])[..|s|] == s;
    } else {
      var r := Insert(s[..|s| - 1], x, key);
      CountOfInsert(s[..|s| - 1], x, key, v, closed);
      assert (r + [s[|s| - 1]])[..|r|] == r;
    }
  }

  lemma {:induction false} CountOfSorted<T>(s: seq<T>, key: T -> real, v: real, closed: bool)
    ensures Count(SortByKey(s, key), key, v, closed) == Count(s, key, v, closed)
  {
    if s != [] {
      CountOfSorted(s[..|s| - 1], key, v, closed);
      CountOfInsert(SortByKey(s[..|s| - 1], key), s[|s| - 1], key, v, closed);
    }
  }

  lemma {:induction false} CountBounds<T>(s: seq<T>, key: T -> real, v: real, closed: bool, j: nat)
    requires j <= |s|
    ensures (forall i :: 0 <= i < j ==> Within(key(s[i]), v, closed)) ==> j <= Count(s, key, v, closed)
    ensures (forall i :: j <= i < |s| ==> !Within(key(s[i]), v, closed)) ==> Count(s, key, v, closed) <= j
  {
    if s != [] {
      CountBounds(s[..|s| - 1], key, v, closed, if j < |s| then j else j - 1);
    }
  }

  lemma StatisticOfSorted<T>(r: seq<T>, key: T -> real, i: nat, v: real)
    requires Sorted(r, key) && i < |r|
    ensures key(r[i]) == v <==> Count(r, key, v, false) <= i < Count(r, key, v, true)
  {
    if key(r[i]) < v {
      CountBounds(r, key, v, false, i + 1);
    } else if key(r[i]) > v {
      CountBounds(r, key, v, true, i);
    } else {
      CountBounds(r, key, v, false, i);
      CountBounds(r, key, v, true, i + 1);
    }
  }

  /** The element at index `i` after sorting has the one key that fewer than `i + 1` elements are
      below and more than `i` are at or below. */
  lemma OrderStatistic<T>(s: seq<T>, key: T -> real, i: nat, v: real)
    requires i < |s|
    ensures key(SortByKey(s, key)[i]) == v <==> Count(s, key, v, false) <= i < Count(s, key, v, true)
  {
    SortSorts(s, key);
    CountOfSorted(s, key, v, false);
    CountOfSorted(s, key, v, true);
    StatisticOfSorted(SortByKey(s, key), key, i, v);
  }

  // ---- The order of the input does not matter ----

  lemma {:induction false} CountOfConcat<T>(a: seq<T>, b: seq<T>, key: T -> real, v: real, closed: bool)
    ensures Count(a + b, key, v, closed) == Count(a, key, v, closed) + Count(b, key, v, closed)
  {
    if b == [] {
      assert a + b == a;
    } else {
      CountOfConcat(a, b[..|b| - 1], key, v, closed);
      assert (a + b)[..|a + b| - 1] == a + b[..|b| - 1];
    }
  }

  lemma CountWithoutOne<T>(s: seq<T>, j: nat, key: T -> real, v: real, closed: bool)
    requires j < |s|
    ensures Count(s, key, v, closed)
         == Count(s[..j] + s[j + 1..], key, v, closed) + if Within(key(s[j]), v, closed) then 1 else 0
  {
    assert s == s[..j + 1] + s[j + 1..] && s[..j + 1][..j] == s[..j];
    CountOfConcat(s[..j + 1], s[j + 1..], key, v, closed);
    CountOfConcat(s[..j], s[j + 1..], key, v, closed);
  }

  lemma {:induction false} CountOfPermuted<T>(a: seq<T>, b: seq<T>, key: T -> real, v: real, closed: bool)
    requires multiset(a) == multiset(b)
    ensures Count(a, key, v, closed) == Count(b, key, v, closed)
  {
    if a == [] {
      assert |multiset(b)| == 0;
    } else {
      var i := |a| - 1;
      assert a[i] in multiset(b);
      var j: nat :| j < |b| && b[j] == a[i];
      WithoutOne(a, i);
      WithoutOne(b, j);
      CountOfPermuted(a[..i] + a[i + 1..], b[..j] + b[j + 1..], key, v, closed);
      CountWithoutOne(a, i, key, v, closed);
      CountWithoutOne(b, j, key, v, closed);
    }
  }

  /** The keys after sorting depend on the elements only. */
  lemma SortedKeysOfPermuted<T>(a: seq<T>, b: seq<T>, key: T -> real, i: nat)
    requires multiset(a) == multiset(b) && i < |a|
    ensures |a| == |b| && key(SortByKey(a, key)[i]) == key(SortByKey(b, key)[i])
  {
    assert |multiset(a)| == |a| && |multiset(b)| == |b|;
    var v := key(SortByKey(a, key)[i]);
    CountOfPermuted(a, b, key, v, false);
    CountOfPermuted(a, b, key, v, true);
    OrderStatistic(a, key, i, v);
    OrderStatistic(b, key, i, v);
  }
}
