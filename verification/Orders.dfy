// Three-way comparison, and the stable sort that records and candidates share.
module Orders {

  datatype Ordering = Less | Equal | Greater {
    function Reverse(): Ordering {
      match this
      case Less => Greater
      case Equal => Equal
      case Greater => Less
    }
  }

  type Comparison<!T> = (T, T) -> Ordering

  // A comparison is a total preorder: swapping the operands reverses the
  // answer, and "not greater" is transitive.
  ghost predicate TotalPreorder<T(!new)>(cmp: Comparison<T>) {
    && (forall a, b :: cmp(b, a) == cmp(a, b).Reverse())
    && (forall a, b, c :: cmp(a, b) != Greater && cmp(b, c) != Greater ==> cmp(a, c) != Greater)
  }

  // Equal keys inherit each other's comparisons.
  lemma EqualTransfers<T(!new)>(cmp: Comparison<T>, a: T, b: T, c: T)
    requires TotalPreorder(cmp)
    requires cmp(a, b) == Equal
    ensures cmp(a, c) == cmp(b, c) && cmp(c, a) == cmp(c, b)
  {
    assert cmp(b, a) == Equal;
    assert cmp(c, a) == cmp(a, c).Reverse() && cmp(c, b) == cmp(b, c).Reverse();
    if cmp(a, c) != Greater { assert cmp(b, c) != Greater; }
    if cmp(b, c) != Greater { assert cmp(a, c) != Greater; }
    if cmp(c, a) != Greater { assert cmp(c, b) != Greater; }
    if cmp(c, b) != Greater { assert cmp(c, a) != Greater; }
  }

  ghost predicate Sorted<T>(cmp: Comparison<T>, s: seq<T>) {
    forall i, j :: 0 <= i < j < |s| ==> cmp(s[i], s[j]) != Greater
  }

  // The elements of s that compare equal to x, in the order s has them.
  ghost function Ties<T>(cmp: Comparison<T>, s: seq<T>, x: T): seq<T> {
    if s == [] then []
    else if cmp(s[0], x) == Equal then [s[0]] + Ties(cmp, s[1..], x)
    else Ties(cmp, s[1..], x)
  }

  // What a stable sort must return: sorted, the same elements, and every
  // class of equal elements in its original order.
  ghost predicate StablySorted<T(!new)>(cmp: Comparison<T>, input: seq<T>, output: seq<T>) {
    && Sorted(cmp, output)
    && multiset(output) == multiset(input)
    && forall x :: Ties(cmp, output, x) == Ties(cmp, input, x)
  }

  // Insertion in front of the first strictly greater-or-equal element.
  function InsertStable<T>(cmp: Comparison<T>, x: T, s: seq<T>): seq<T> {
    if s == [] then [x]
    else if cmp(x, s[0]) == Greater then [s[0]] + InsertStable(cmp, x, s[1..])
    else [x] + s
  }

  function StableSort<T>(cmp: Comparison<T>, s: seq<T>): seq<T> {
    if s == [] then [] else InsertStable(cmp, s[0], StableSort(cmp, s[1..]))
  }

  lemma {:induction false} InsertKeeps<T>(cmp: Comparison<T>, x: T, s: seq<T>)
    ensures multiset(InsertStable(cmp, x, s)) == multiset{x} + multiset(s)
  {
    if s != [] && cmp(x, s[0]) == Greater {
      InsertKeeps(cmp, x, s[1..]);
      assert s == [s[0]] + s[1..];
    }
  }

  lemma {:induction false} SortPermutes<T>(cmp: Comparison<T>, s: seq<T>)
    ensures multiset(StableSort(cmp, s)) == multiset(s) && |StableSort(cmp, s)| == |s|
  {
    if s != [] {
      SortPermutes(cmp, s[1..]);
      InsertKeeps(cmp, s[0], StableSort(cmp, s[1..]));
      assert s == [s[0]] + s[1..];
    }
    assert |multiset(StableSort(cmp, s))| == |multiset(s)|;
  }

  lemma {:induction false} InsertSorted<T(!new)>(cmp: Comparison<T>, x: T, s: seq<T>)
    requires TotalPreorder(cmp) && Sorted(cmp, s)
    ensures Sorted(cmp, InsertStable(cmp, x, s))
  {
    if s != [] && cmp(x, s[0]) == Greater {
      InsertSorted(cmp, x, s[1..]);
      InsertKeeps(cmp, x, s[1..]);
      var r := InsertStable(cmp, x, s[1..]);
      forall j | 0 <= j < |r| ensures cmp(s[0], r[j]) != Greater {
        assert r[j] in multiset(r);
        assert r[j] == x || r[j] in s[1..];
        assert cmp(s[0], x) == Less;
      }
    } else if s != [] {
      forall j | 0 <= j < |s| ensures cmp(x, s[j]) != Greater {
        assert j == 0 || cmp(s[0], s[j]) != Greater;
      }
    }
  }

  lemma {:induction false} InsertTies<T(!new)>(cmp: Comparison<T>, x: T, s: seq<T>, y: T)
    requires TotalPreorder(cmp)
    ensures Ties(cmp, InsertStable(cmp, x, s), y) == Ties(cmp, [x] + s, y)
  {
    assert ([x] + s)[1..] == s;
    if s != [] && cmp(x, s[0]) == Greater {
      InsertTies(cmp, x, s[1..], y);
      assert ([x] + s[1..])[1..] == s[1..];
      var r := InsertStable(cmp, x, s[1..]);
      assert ([s[0]] + r)[1..] == r;
      if cmp(x, y) == Equal && cmp(s[0], y) == Equal {
        EqualTransfers(cmp, x, y, s[0]);
        assert false;
      }
    }
  }

  // The sort meets its specification for every total preorder.
  lemma {:induction false} StableSortCorrect<T(!new)>(cmp: Comparison<T>, s: seq<T>)
    requires TotalPreorder(cmp)
    ensures StablySorted(cmp, s, StableSort(cmp, s))
  {
    if s != [] {
      StableSortCorrect(cmp, s[1..]);
      var r := StableSort(cmp, s[1..]);
      InsertKeeps(cmp, s[0], r);
      InsertSorted(cmp, s[0], r);
      assert s == [s[0]] + s[1..];
      forall y ensures Ties(cmp, StableSort(cmp, s), y) == Ties(cmp, s, y) {
        InsertTies(cmp, s[0], r, y);
        assert ([s[0]] + r)[1..] == r;
      }
    }
  }

  // Two stably sorted arrangements of the same input start alike.
  lemma StableHead<T(!new)>(cmp: Comparison<T>, a: seq<T>, b: seq<T>)
    requires TotalPreorder(cmp)
    requires Sorted(cmp, a) && Sorted(cmp, b) && multiset(a) == multiset(b)
    requires forall x :: Ties(cmp, a, x) == Ties(cmp, b, x)
    requires a != [] && b != []
    ensures a[0] == b[0]
  {
    assert a[0] in multiset(b) && b[0] in multiset(a);
    assert a[0] in b && b[0] in a;
    assert cmp(a[0], b[0]) != Greater && cmp(b[0], a[0]) != Greater by {
      var i :| 0 <= i < |a| && a[i] == b[0];
      var j :| 0 <= j < |b| && b[j] == a[0];
      assert cmp(a[0], a[0]) == cmp(a[0], a[0]).Reverse();
      assert cmp(b[0], b[0]) == cmp(b[0], b[0]).Reverse();
    }
    assert cmp(a[0], b[0]) == Equal;
    assert cmp(a[0], a[0]) == cmp(a[0], a[0]).Reverse();
    assert Ties(cmp, a, a[0])[0] == a[0];
    assert cmp(b[0], a[0]) == Equal;
    assert Ties(cmp, b, a[0])[0] == b[0];
  }

  // Sorted sequences with the same elements and the same tie order are equal.
  lemma {:induction false} SameArrangement<T(!new)>(cmp: Comparison<T>, a: seq<T>, b: seq<T>)
    requires TotalPreorder(cmp)
    requires Sorted(cmp, a) && Sorted(cmp, b) && multiset(a) == multiset(b)
    requires forall x :: Ties(cmp, a, x) == Ties(cmp, b, x)
    ensures a == b
    decreases |a|
  {
    if a == [] {
      assert |multiset(b)| == 0;
    } else {
      assert |multiset(a)| == |a| && |multiset(b)| == |b|;
      assert b != [];
      StableHead(cmp, a, b);
      assert a == [a[0]] + a[1..] && b == [b[0]] + b[1..];
      assert multiset(a[1..]) == multiset(a) - multiset{a[0]};
      assert multiset(b[1..]) == multiset(b) - multiset{b[0]};
      forall x ensures Ties(cmp, a[1..], x) == Ties(cmp, b[1..], x) {
        assert Ties(cmp, a, x) == Ties(cmp, b, x);
        if cmp(a[0], x) == Equal {
          assert Ties(cmp, a[1..], x) == Ties(cmp, a, x)[1..];
          assert Ties(cmp, b[1..], x) == Ties(cmp, b, x)[1..];
        }
      }
      SameArrangement(cmp, a[1..], b[1..]);
    }
  }

  // The sort is the only stably sorted arrangement of its input.
  lemma StableSortUnique<T(!new)>(cmp: Comparison<T>, input: seq<T>, output: seq<T>)
    requires TotalPreorder(cmp)
    ensures StablySorted(cmp, input, output) <==> output == StableSort(cmp, input)
  {
    StableSortCorrect(cmp, input);
    if StablySorted(cmp, input, output) {
      var other := StableSort(cmp, input);
      forall x ensures Ties(cmp, output, x) == Ties(cmp, other, x) {
      }
      SameArrangement(cmp, output, other);
    }
  }
}
