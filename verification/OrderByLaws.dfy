// ORDER BY and LIMIT.
module OrderByLaws {
  import opened Results
  import opened Orders
  import opened Text
  import opened Values
  import opened Query

  // ---------------------------------------------------------------------
  // Two comparisons that agree on the rows sort them alike.
  // ---------------------------------------------------------------------

  ghost predicate Agree<T>(f: Comparison<T>, g: Comparison<T>, s: seq<T>) {
    forall x, y :: x in s && y in s ==> f(x, y) == g(x, y)
  }

  lemma {:induction false} InsertAgrees<T>(f: Comparison<T>, g: Comparison<T>, x: T, s: seq<T>)
    requires Agree(f, g, [x] + s)
    ensures InsertStable(f, x, s) == InsertStable(g, x, s)
  {
    if s != [] {
      assert x in [x] + s && s[0] in [x] + s;
      assert forall y :: y in [x] + s[1..] ==> y in [x] + s;
      InsertAgrees(f, g, x, s[1..]);
    }
  }

  lemma {:induction false} SortAgrees<T>(f: Comparison<T>, g: Comparison<T>, s: seq<T>)
    requires Agree(f, g, s)
    ensures StableSort(f, s) == StableSort(g, s)
  {
    if s != [] {
      var rest := s[1..];
      SortAgrees(f, g, rest);
      var sorted := StableSort(g, rest);
      SortPermutes(g, rest);
      forall y | y in [s[0]] + sorted ensures y in s {
        assert y == s[0] || y in multiset(sorted);
        assert y == s[0] || y in rest;
      }
      InsertAgrees(f, g, s[0], sorted);
    }
  }

  lemma {:induction false} TiesAgree<T>(f: Comparison<T>, g: Comparison<T>, s: seq<T>, x: T)
    requires forall y :: y in s ==> f(y, x) == g(y, x)
    ensures Ties(f, s, x) == Ties(g, s, x)
  {
    if s != [] {
      assert s[0] in s;
      TiesAgree(f, g, s[1..], x);
    }
  }

  lemma {:induction false} NoTies<T>(f: Comparison<T>, s: seq<T>, x: T)
    requires forall y :: y in s ==> f(y, x) != Equal
    ensures Ties(f, s, x) == []
  {
    if s != [] {
      assert s[0] in s;
      NoTies(f, s[1..], x);
    }
  }

  // What a stable sort of rows returns, said of the rows alone.
  ghost predicate Arranged<T(!new)>(f: Comparison<T>, input: seq<T>, output: seq<T>) {
    && Sorted(f, output)
    && multiset(output) == multiset(input)
    && forall x :: x in input ==> Ties(f, output, x) == Ties(f, input, x)
  }

  lemma SameMembers<T>(a: seq<T>, b: seq<T>)
    requires multiset(a) == multiset(b)
    ensures forall x :: x in a <==> x in b
  {
    forall x ensures x in a <==> x in b {
      assert x in multiset(a) <==> x in multiset(b);
    }
  }

  lemma {:induction false} TiesTransfer<T(!new)>(g: Comparison<T>, s: seq<T>, x: T, y: T)
    requires TotalPreorder(g) && g(x, y) == Equal
    ensures Ties(g, s, x) == Ties(g, s, y)
  {
    if s != [] {
      EqualTransfers(g, x, y, s[0]);
      TiesTransfer(g, s[1..], x, y);
    }
  }

  lemma ArrangedStably<T(!new)>(g: Comparison<T>, input: seq<T>, output: seq<T>)
    requires TotalPreorder(g)
    ensures Arranged(g, input, output) <==> StablySorted(g, input, output)
  {
    if Arranged(g, input, output) {
      SameMembers(output, input);
      forall x ensures Ties(g, output, x) == Ties(g, input, x) {
        if y :| y in input && g(y, x) == Equal {
          TiesTransfer(g, output, y, x);
          TiesTransfer(g, input, y, x);
        } else {
          NoTies(g, output, x);
          NoTies(g, input, x);
        }
      }
    }
  }

  lemma ArrangedAgrees<T(!new)>(f: Comparison<T>, g: Comparison<T>, input: seq<T>, output: seq<T>)
    requires Agree(f, g, input) && multiset(output) == multiset(input)
    ensures Arranged(f, input, output) <==> Arranged(g, input, output)
  {
    SameMembers(output, input);
    forall i, j | 0 <= i < j < |output| ensures f(output[i], output[j]) == g(output[i], output[j]) {
      assert output[i] in input && output[j] in input;
    }
    forall x | x in input ensures Ties(f, output, x) == Ties(g, output, x) && Ties(f, input, x) == Ties(g, input, x) {
      TiesAgree(f, g, output, x);
      TiesAgree(f, g, input, x);
    }
  }

  // If a comparison agrees with a total preorder on the input, the sort is the
  // one stable arrangement of it.
  lemma SortUnique<T(!new)>(f: Comparison<T>, g: Comparison<T>, input: seq<T>, output: seq<T>)
    requires TotalPreorder(g) && Agree(f, g, input)
    ensures Arranged(f, input, output) <==> output == StableSort(f, input)
  {
    SortAgrees(f, g, input);
    StableSortUnique(g, input, output);
    ArrangedStably(g, input, output);
    SortPermutes(g, input);
    if multiset(output) == multiset(input) {
      ArrangedAgrees(f, g, input, output);
    }
  }

  // ---------------------------------------------------------------------
  // Uniform columns.
  // ---------------------------------------------------------------------

  predicate Ranked(lib: Lib, value: Value) {
    NumericRank(lib, value).Some?
  }

  // Numbers by rank, then everything else by text.
  function LayerCmp(lib: Lib, a: Value, b: Value): Ordering {
    match (NumericRank(lib, a), NumericRank(lib, b))
    case (Some(x), Some(y)) => lib.floatCompare(x, y)
    case (Some(_), None) => Less
    case (None, Some(_)) => Greater
    case (None, None) => StrCmp(Stringify(lib, a), Stringify(lib, b))
  }

  lemma LayerReverse(lib: Lib, a: Value, b: Value)
    requires TotalPreorder(lib.floatCompare)
    ensures LayerCmp(lib, b, a) == LayerCmp(lib, a, b).Reverse()
  {
    StrCmpReverse(Stringify(lib, a), Stringify(lib, b));
  }

  lemma LayerTransitive(lib: Lib, a: Value, b: Value, c: Value)
    requires TotalPreorder(lib.floatCompare)
    requires LayerCmp(lib, a, b) != Greater && LayerCmp(lib, b, c) != Greater
    ensures LayerCmp(lib, a, c) != Greater
    ensures LayerCmp(lib, a, c) == Equal ==> LayerCmp(lib, a, b) == Equal && LayerCmp(lib, b, c) == Equal
  {
    if Ranked(lib, a) && Ranked(lib, b) && Ranked(lib, c) {
      FloatTransitive(lib, NumericRank(lib, a).value, NumericRank(lib, b).value, NumericRank(lib, c).value);
    } else if !Ranked(lib, a) && !Ranked(lib, b) && !Ranked(lib, c) {
      var x, y, z := Stringify(lib, a), Stringify(lib, b), Stringify(lib, c);
      StrCmpTransitive(x, y, z);
      StrCmpReverse(x, y);
      StrCmpReverse(y, z);
      StrCmpReverse(x, z);
    }
  }

  lemma FloatTransitive(lib: Lib, x: Float, y: Float, z: Float)
    requires TotalPreorder(lib.floatCompare)
    requires lib.floatCompare(x, y) != Greater && lib.floatCompare(y, z) != Greater
    ensures lib.floatCompare(x, z) != Greater
    ensures lib.floatCompare(x, z) == Equal ==> lib.floatCompare(x, y) == Equal && lib.floatCompare(y, z) == Equal
  {
    if lib.floatCompare(x, z) == Equal {
      EqualTransfers(lib.floatCompare, x, z, y);
    }
  }

  function LayerKey(lib: Lib, key: OrderKey, a: Value, b: Value): Ordering {
    var ord := LayerCmp(lib, OrderValue(lib, key.expr, a), OrderValue(lib, key.expr, b));
    if key.descending then ord.Reverse() else ord
  }

  function LayerRows(lib: Lib, keys: seq<OrderKey>, a: Value, b: Value): Ordering {
    if keys == [] then Equal
    else if LayerKey(lib, keys[0], a, b) != Equal then LayerKey(lib, keys[0], a, b)
    else LayerRows(lib, keys[1..], a, b)
  }

  function LayerOrder(lib: Lib, keys: seq<OrderKey>): Comparison<Value> {
    (a: Value, b: Value) => LayerRows(lib, keys, a, b)
  }

  lemma KeyReverse(lib: Lib, key: OrderKey, a: Value, b: Value)
    requires TotalPreorder(lib.floatCompare)
    ensures LayerKey(lib, key, b, a) == LayerKey(lib, key, a, b).Reverse()
  {
    LayerReverse(lib, OrderValue(lib, key.expr, a), OrderValue(lib, key.expr, b));
  }

  lemma KeyTransitive(lib: Lib, key: OrderKey, a: Value, b: Value, c: Value)
    requires TotalPreorder(lib.floatCompare)
    requires LayerKey(lib, key, a, b) != Greater && LayerKey(lib, key, b, c) != Greater
    ensures LayerKey(lib, key, a, c) != Greater
    ensures LayerKey(lib, key, a, c) == Equal ==> LayerKey(lib, key, a, b) == Equal && LayerKey(lib, key, b, c) == Equal
  {
    var x, y, z := OrderValue(lib, key.expr, a), OrderValue(lib, key.expr, b), OrderValue(lib, key.expr, c);
    LayerReverse(lib, x, y);
    LayerReverse(lib, y, z);
    LayerReverse(lib, x, z);
    if key.descending {
      LayerTransitive(lib, z, y, x);
    } else {
      LayerTransitive(lib, x, y, z);
    }
  }

  lemma {:induction false} RowsReverse(lib: Lib, keys: seq<OrderKey>, a: Value, b: Value)
    requires TotalPreorder(lib.floatCompare)
    ensures LayerRows(lib, keys, b, a) == LayerRows(lib, keys, a, b).Reverse()
  {
    if keys != [] {
      KeyReverse(lib, keys[0], a, b);
      RowsReverse(lib, keys[1..], a, b);
    }
  }

  lemma {:induction false} RowsTransitive(lib: Lib, keys: seq<OrderKey>, a: Value, b: Value, c: Value)
    requires TotalPreorder(lib.floatCompare)
    requires LayerRows(lib, keys, a, b) != Greater && LayerRows(lib, keys, b, c) != Greater
    ensures LayerRows(lib, keys, a, c) != Greater
  {
    if keys != [] {
      KeyTransitive(lib, keys[0], a, b, c);
      if LayerKey(lib, keys[0], a, c) == Equal {
        RowsTransitive(lib, keys[1..], a, b, c);
      }
    }
  }

  lemma LayerPreorder(lib: Lib, keys: seq<OrderKey>)
    requires TotalPreorder(lib.floatCompare)
    ensures TotalPreorder(LayerOrder(lib, keys))
  {
    forall a, b ensures LayerRows(lib, keys, b, a) == LayerRows(lib, keys, a, b).Reverse() {
      RowsReverse(lib, keys, a, b);
    }
    forall a, b, c | LayerRows(lib, keys, a, b) != Greater && LayerRows(lib, keys, b, c) != Greater
      ensures LayerRows(lib, keys, a, c) != Greater
    {
      RowsTransitive(lib, keys, a, b, c);
    }
  }

  // All values of the column are numbers, or none is.
  predicate Uniform(lib: Lib, key: OrderKey, rows: seq<Value>) {
    forall a, b :: a in rows && b in rows ==>
      Ranked(lib, OrderValue(lib, key.expr, a)) == Ranked(lib, OrderValue(lib, key.expr, b))
  }

  lemma {:induction false} UniformAgrees(lib: Lib, keys: seq<OrderKey>, rows: seq<Value>, a: Value, b: Value)
    requires forall i :: 0 <= i < |keys| ==> Uniform(lib, keys[i], rows)
    requires a in rows && b in rows
    ensures CompareRows(lib, keys, a, b) == LayerRows(lib, keys, a, b)
  {
    if keys != [] {
      var x, y := OrderValue(lib, keys[0].expr, a), OrderValue(lib, keys[0].expr, b);
      assert Uniform(lib, keys[0], rows);
      assert Ranked(lib, x) == Ranked(lib, y);
      UniformAgrees(lib, keys[1..], rows, a, b);
    }
  }

  // Over uniform columns ORDER BY has one result: the stable arrangement of
  // the rows in the order of the keys.
  lemma OrderByDeterministic(lib: Lib, keys: seq<OrderKey>, rows: seq<Value>, output: seq<Value>)
    requires TotalPreorder(lib.floatCompare)
    requires forall i :: 0 <= i < |keys| ==> Uniform(lib, keys[i], rows)
    ensures SortRows(lib, OrderKeys(keys), rows) == Ok(output) <==> Arranged(RowOrder(lib, keys), rows, output)
  {
    LayerPreorder(lib, keys);
    forall a, b | a in rows && b in rows ensures RowOrder(lib, keys)(a, b) == LayerOrder(lib, keys)(a, b) {
      UniformAgrees(lib, keys, rows, a, b);
    }
    SortUnique(RowOrder(lib, keys), LayerOrder(lib, keys), rows, output);
  }

  // In a column that mixes numbers and text the comparison runs in a circle.
  lemma MixedColumn(lib: Lib)
    requires lib.floatCompare(lib.intToFloat(9), lib.intToFloat(10)) == Less
    ensures ValuesCmp(lib, Int(9), Int(10)) == Less
    ensures ValuesCmp(lib, Int(10), String("5")) == Less
    ensures ValuesCmp(lib, String("5"), Int(9)) == Less
  {
    assert IntText(9) == "9" && IntText(10) == "10";
  }

  // ---------------------------------------------------------------------
  // The whole query.
  // ---------------------------------------------------------------------

  // ORDER BY rearranges what the selection gives, and LIMIT keeps a prefix of
  // at most that many rows.
  lemma QueryPrefix(lib: Lib, query: SqlQuery, tables: Tables)
    ensures var r, all := QueryRows(lib, query, tables), QueryRows(lib, query.(limit := None), tables);
            && (r.Err? ==> r == all)
            && (r.Ok? ==> all.Ok? && r.value <= all.value
                          && |r.value| == if query.limit.Some? && query.limit.value < |all.value| then query.limit.value else |all.value|)
    ensures var all := QueryRows(lib, query.(limit := None), tables);
            all.Ok? ==> && query.body.Some? && SelectRows(lib, query.body.value, tables).Ok?
                        && multiset(all.value) == multiset(SelectRows(lib, query.body.value, tables).value)
  {
    if query.body.Some? && query.orderBy.Some? && query.orderBy.value.OrderKeys? {
      var rows := SelectRows(lib, query.body.value, tables);
      if rows.Ok? {
        SortPermutes(RowOrder(lib, query.orderBy.value.keys), rows.value);
      }
    }
  }
}
