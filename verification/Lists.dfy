/** Sequences: joining, taking one out, and collecting what a function gives. */
module Lists {

  lemma ConcatAssociates<T>(a: seq<T>, b: seq<T>, c: seq<T>)
    ensures (a + b) + c == a + (b + c)
  {
  }

  lemma WithoutOne<T>(s: seq<T>, j: nat)
    requires j < |s|
    ensures multiset(s[..j] + s[j + 1..]) == multiset(s) - multiset{s[j]}
  {
    assert s == s[..j] + [s[j]] + s[j + 1..];
  }

  /** What `f` gives for each element, one after the other. */
  function Collect<S, T>(f: S -> seq<T>, s: seq<S>): seq<T> {
    if s == [] then [] else Collect(f, s[..|s| - 1]) + f(s[|s| - 1])
  }

  lemma {:induction false} CollectConcat<S, T>(f: S -> seq<T>, a: seq<S>, b: seq<S>)
    ensures Collect(f, a + b) == Collect(f, a) + Collect(f, b)
  {
    if b == [] {
      assert a + b == a;
    } else {
      CollectConcat(f, a, b[..|b| - 1]);
      assert (a + b)[..|a + b| - 1] == a + b[..|b| - 1];
    }
  }

  lemma CollectWithoutOne<S, T>(f: S -> seq<T>, s: seq<S>, j: nat)
    requires j < |s|
    ensures multiset(Collect(f, s)) == multiset(Collect(f, s[..j] + s[j + 1..])) + multiset(f(s[j]))
  {
    var front, back := s[..j], s[j + 1..];
    assert s == s[..j + 1] + back && s[..j + 1][..j] == front;
    CollectConcat(f, s[..j + 1], back);
    CollectConcat(f, front, back);
    assert Collect(f, s[..j + 1]) == Collect(f, front) + f(s[j]);
    MiddleCounts(Collect(f, front), f(s[j]), Collect(f, back));
  }

  lemma MiddleCounts<T>(front: seq<T>, mid: seq<T>, back: seq<T>)
    ensures multiset(front + mid + back) == multiset(front + back) + multiset(mid)
  {
  }

  lemma {:induction false} CollectPermuted<S, T>(f: S -> seq<T>, a: seq<S>, b: seq<S>)
    requires multiset(a) == multiset(b)
    ensures multiset(Collect(f, a)) == multiset(Collect(f, b))
  {
    if a == [] {
      assert |multiset(b)| == 0;
    } else {
      var i := |a| - 1;
      assert a[i] in multiset(b);
      var j: nat :| j < |b| && b[j] == a[i];
      WithoutOne(a, i);
      WithoutOne(b, j);
      CollectPermuted(f, a[..i] + a[i + 1..], b[..j] + b[j + 1..]);
      CollectWithoutOne(f, a, i);
      CollectWithoutOne(f, b, j);
    }
  }
}
