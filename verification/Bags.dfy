// Collecting multisets over a sequence, whatever its order: the bag of what the
// elements contribute depends on the multiset of the elements alone, not on order.
module Bags {

  ghost function Bag<T(!new), U(!new)>(f: T -> multiset<U>, s: seq<T>): multiset<U> {
    if s == [] then multiset{} else Bag(f, s[..|s| - 1]) + f(s[|s| - 1])
  }

  lemma {:induction false} BagRemove<T(!new), U(!new)>(f: T -> multiset<U>, s: seq<T>, i: nat)
    requires i < |s|
    ensures Bag(f, s) == f(s[i]) + Bag(f, s[..i] + s[i + 1..])
    decreases |s|
  {
    var n := |s| - 1;
    if i == n {
      assert s[..i] + s[i + 1..] == s[..n];
    } else {
      BagRemove(f, s[..n], i);
      var rest := s[..n][..i] + s[..n][i + 1..];
      assert s[..i] + s[i + 1..] == rest + [s[n]];
      assert (rest + [s[n]])[..|rest|] == rest;
    }
  }

  lemma RemoveAt<T>(s: seq<T>, i: nat)
    requires i < |s|
    ensures multiset(s) == multiset{s[i]} + multiset(s[..i] + s[i + 1..])
  {
    assert s == s[..i] + ([s[i]] + s[i + 1..]);
    assert multiset(s) == multiset(s[..i]) + multiset([s[i]] + s[i + 1..]);
    assert multiset([s[i]] + s[i + 1..]) == multiset{s[i]} + multiset(s[i + 1..]);
    assert multiset(s[..i] + s[i + 1..]) == multiset(s[..i]) + multiset(s[i + 1..]);
  }

  lemma SameRest<T>(x: T, m: multiset<T>, n: multiset<T>)
    requires multiset{x} + m == multiset{x} + n
    ensures m == n
  {
    assert m == multiset{x} + m - multiset{x};
    assert n == multiset{x} + n - multiset{x};
  }

  lemma RestPermutes<T>(a: seq<T>, b: seq<T>, i: nat)
    requires multiset(a) == multiset(b) && i < |b| && a != [] && b[i] == a[|a| - 1]
    ensures multiset(a[..|a| - 1]) == multiset(b[..i] + b[i + 1..])
  {
    var n := |a| - 1;
    assert a[..n] + a[n + 1..] == a[..n];
    RemoveAt(a, n);
    RemoveAt(b, i);
    SameRest(a[n], multiset(a[..n]), multiset(b[..i] + b[i + 1..]));
  }

  lemma {:induction false} BagPermute<T(!new), U(!new)>(f: T -> multiset<U>, a: seq<T>, b: seq<T>)
    requires multiset(a) == multiset(b)
    ensures Bag(f, a) == Bag(f, b)
    decreases |a|
  {
    if a == [] {
      assert |multiset(b)| == 0;
    } else {
      var n := |a| - 1;
      assert a[n] in multiset(b);
      var i :| 0 <= i < |b| && b[i] == a[n];
      RestPermutes(a, b, i);
      BagPermute(f, a[..n], b[..i] + b[i + 1..]);
      BagRemove(f, b, i);
    }
  }

  lemma {:induction false} BagPointwise<T(!new), U(!new)>(f: T -> multiset<U>, a: seq<T>, b: seq<T>)
    requires |a| == |b| && forall i :: 0 <= i < |a| ==> f(a[i]) == f(b[i])
    ensures Bag(f, a) == Bag(f, b)
  {
    if a != [] {
      BagPointwise(f, a[..|a| - 1], b[..|b| - 1]);
    }
  }
}
