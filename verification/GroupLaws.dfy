// Grouping is a partition with a decodable group key.
module GroupLaws {
  import opened Results
  import opened Text
  import opened IndexMaps
  import opened Jsons
  import opened Values
  import opened Serialization
  import opened Query

  // ---------------------------------------------------------------------
  // The key text.
  // ---------------------------------------------------------------------

  function TextsOf(documents: seq<Json>): (r: seq<string>)
    ensures |r| == |documents|
  {
    seq(|documents|, i requires 0 <= i < |documents| => Print(documents[i]))
  }

  function JoinRest(documents: seq<Json>): string {
    if documents == [] then "" else "|" + (Print(documents[0]) + JoinRest(documents[1..]))
  }

  lemma {:induction false} JoinUnfolds(documents: seq<Json>)
    requires documents != []
    ensures Join(TextsOf(documents), "|") == Print(documents[0]) + JoinRest(documents[1..])
  {
    var texts := TextsOf(documents);
    if |documents| > 1 {
      assert texts[1..] == TextsOf(documents[1..]);
      JoinUnfolds(documents[1..]);
      assert texts[0] + "|" + Join(texts[1..], "|") == texts[0] + ("|" + Join(texts[1..], "|"));
    } else {
      assert documents[1..] == [];
      assert texts[0] + "" == texts[0];
    }
  }

  lemma RestDelimited(documents: seq<Json>)
    ensures Delimited(JoinRest(documents))
  {
  }

  lemma PeelBar(x: string, y: string)
    requires "|" + x == "|" + y
    ensures x == y
  {
    assert ("|" + x)[1..] == x && ("|" + y)[1..] == y;
  }

  lemma {:induction false} RestDecodes(a: seq<Json>, b: seq<Json>)
    requires |a| == |b| && JoinRest(a) == JoinRest(b)
    requires forall i :: 0 <= i < |a| ==> Readable(a[i]) && Readable(b[i])
    ensures a == b
  {
    if a != [] {
      PeelBar(Print(a[0]) + JoinRest(a[1..]), Print(b[0]) + JoinRest(b[1..]));
      RestDelimited(a[1..]);
      RestDelimited(b[1..]);
      PrintUnique(a[0], b[0], JoinRest(a[1..]), JoinRest(b[1..]));
      RestDecodes(a[1..], b[1..]);
      assert a == [a[0]] + a[1..] && b == [b[0]] + b[1..];
    }
  }

  // Joined JSON texts of one arity are equal only part by part, although the
  // separator may occur inside a string.
  lemma JoinDecodes(a: seq<Json>, b: seq<Json>)
    requires |a| == |b| && forall i :: 0 <= i < |a| ==> Readable(a[i]) && Readable(b[i])
    ensures Join(TextsOf(a), "|") == Join(TextsOf(b), "|") <==> a == b
  {
    if a != [] && Join(TextsOf(a), "|") == Join(TextsOf(b), "|") {
      JoinUnfolds(a);
      JoinUnfolds(b);
      RestDelimited(a[1..]);
      RestDelimited(b[1..]);
      PrintUnique(a[0], b[0], JoinRest(a[1..]), JoinRest(b[1..]));
      RestDecodes(a[1..], b[1..]);
      assert a == [a[0]] + a[1..] && b == [b[0]] + b[1..];
    }
  }

  function Documents(lib: Lib, values: seq<Value>): (r: seq<Json>)
    ensures |r| == |values| && forall i :: 0 <= i < |values| ==> r[i] == ValueJson(lib, values[i])
  {
    seq(|values|, i requires 0 <= i < |values| => ValueJson(lib, values[i]))
  }

  lemma ValuesDecode(lib: Lib, a: seq<Value>, b: seq<Value>)
    requires |a| == |b|
    ensures Join(JsonTexts(lib, a), "|") == Join(JsonTexts(lib, b), "|") <==>
            forall i :: 0 <= i < |a| ==> JsonText(lib, a[i]) == JsonText(lib, b[i])
  {
    var x, y := Documents(lib, a), Documents(lib, b);
    assert JsonTexts(lib, a) == TextsOf(x) && JsonTexts(lib, b) == TextsOf(y);
    forall i | 0 <= i < |a|
      ensures Readable(x[i]) && Readable(y[i]) && (x[i] == y[i] <==> JsonText(lib, a[i]) == JsonText(lib, b[i]))
    {
      ValueReadable(lib, a[i]);
      ValueReadable(lib, b[i]);
      if JsonText(lib, a[i]) == JsonText(lib, b[i]) {
        PrintInjective(x[i], y[i]);
      }
    }
    JoinDecodes(x, y);
  }

  lemma {:induction false} KeyValueAt(lib: Lib, keys: seq<SqlExpr>, row: Value, i: nat)
    requires KeyValues(lib, keys, row).Ok?
    ensures |KeyValues(lib, keys, row).value| == |keys|
    ensures i < |keys| ==> EvalSql(lib, keys[i], row) == Ok(KeyValues(lib, keys, row).value[i])
  {
    if keys != [] {
      var n := |keys| - 1;
      KeyValueAt(lib, keys[..n], row, i);
      assert i < n ==> keys[..n][i] == keys[i];
    }
  }

  // The JSON text of a key expression's value.
  function KeyText(lib: Lib, key: SqlExpr, row: Value): Result<string> {
    var value :- EvalSql(lib, key, row);
    Ok(JsonText(lib, value))
  }

  lemma KeyTextAt(lib: Lib, keys: seq<SqlExpr>, row: Value, i: nat)
    requires KeyValues(lib, keys, row).Ok? && i < |keys|
    ensures i < |KeyValues(lib, keys, row).value|
    ensures KeyText(lib, keys[i], row) == Ok(JsonText(lib, KeyValues(lib, keys, row).value[i]))
  {
    KeyValueAt(lib, keys, row, i);
  }

  // Two rows share a group exactly when every key expression serializes
  // identically on both.
  lemma SameGroup(lib: Lib, keys: seq<SqlExpr>, a: Value, b: Value)
    requires GroupKey(lib, keys, a).Ok? && GroupKey(lib, keys, b).Ok?
    ensures GroupKey(lib, keys, a) == GroupKey(lib, keys, b) <==>
            forall i :: 0 <= i < |keys| ==> KeyText(lib, keys[i], a) == KeyText(lib, keys[i], b)
  {
    var x, y := KeyValues(lib, keys, a).value, KeyValues(lib, keys, b).value;
    KeyValueAt(lib, keys, a, 0);
    KeyValueAt(lib, keys, b, 0);
    ValuesDecode(lib, x, y);
    assert forall i :: 0 <= i < |keys| ==> (KeyText(lib, keys[i], a) == KeyText(lib, keys[i], b) <==> JsonText(lib, x[i]) == JsonText(lib, y[i])) by {
      forall i | 0 <= i < |keys|
        ensures KeyText(lib, keys[i], a) == KeyText(lib, keys[i], b) <==> JsonText(lib, x[i]) == JsonText(lib, y[i])
      {
        KeyTextAt(lib, keys, a, i);
        KeyTextAt(lib, keys, b, i);
      }
    }
  }

  // ---------------------------------------------------------------------
  // The groups.
  // ---------------------------------------------------------------------

  // The rows under one key, in row order.
  function RowsUnder(keying: Keying, rows: seq<Value>, key: string): seq<Value> {
    if rows == [] then [] else
      var last := rows[|rows| - 1];
      RowsUnder(keying, rows[..|rows| - 1], key) + (if keying(last) == Ok(key) then [last] else [])
  }

  // Keys in the order rows first meet them.
  function KeysSeen(keying: Keying, rows: seq<Value>): seq<string> {
    if rows == [] then [] else
      var front := KeysSeen(keying, rows[..|rows| - 1]);
      match keying(rows[|rows| - 1])
      case Ok(key) => if key in front then front else front + [key]
      case Err(_) => front
  }

  function Flatten(groups: Groups): seq<Value> {
    if groups == [] then [] else Flatten(groups[..|groups| - 1]) + groups[|groups| - 1].value
  }

  function TotalCount(groups: Groups): nat {
    if groups == [] then 0 else TotalCount(groups[..|groups| - 1]) + |groups[|groups| - 1].value|
  }

  lemma {:induction false} InsertExisting(groups: Groups, i: nat, value: seq<Value>)
    requires UniqueKeys(groups) && i < |groups|
    ensures Insert(groups, groups[i].key, value) == groups[i := Entry(groups[i].key, value)]
  {
    if i > 0 {
      assert groups[0].key != groups[i].key;
      InsertExisting(groups[1..], i - 1, value);
      assert groups[i := Entry(groups[i].key, value)] == [groups[0]] + groups[1..][i - 1 := Entry(groups[i].key, value)];
    } else {
      assert groups[0 := Entry(groups[0].key, value)] == [Entry(groups[0].key, value)] + groups[1..];
    }
  }

  ghost predicate Partition(keying: Keying, rows: seq<Value>, groups: Groups) {
    && UniqueKeys(groups) && Keys(groups) == KeysSeen(keying, rows)
    && forall i :: 0 <= i < |groups| ==> groups[i].value == RowsUnder(keying, rows, groups[i].key) && groups[i].value != []
  }

  lemma {:induction false} UnseenUnder(keying: Keying, rows: seq<Value>, key: string)
    requires key !in KeysSeen(keying, rows)
    ensures RowsUnder(keying, rows, key) == []
  {
    if rows != [] {
      UnseenUnder(keying, rows[..|rows| - 1], key);
    }
  }

  lemma KeyIndex(groups: Groups, key: string)
    ensures key in Keys(groups) <==> HasKey(groups, key)
  {
    if key in Keys(groups) {
      var i :| 0 <= i < |groups| && Keys(groups)[i] == key;
      assert groups[i].key == key;
    }
    if HasKey(groups, key) {
      var i :| 0 <= i < |groups| && groups[i].key == key;
      assert Keys(groups)[i] == key;
    }
  }

  lemma UnderSnoc(keying: Keying, rows: seq<Value>, last: Value, key: string)
    ensures RowsUnder(keying, rows + [last], key)
         == RowsUnder(keying, rows, key) + if keying(last) == Ok(key) then [last] else []
  {
    assert (rows + [last])[..|rows|] == rows;
  }

  lemma SeenSnoc(keying: Keying, rows: seq<Value>, last: Value, key: string)
    requires keying(last) == Ok(key)
    ensures var seen := KeysSeen(keying, rows);
            KeysSeen(keying, rows + [last]) == if key in seen then seen else seen + [key]
  {
    assert (rows + [last])[..|rows|] == rows;
  }

  lemma JoinsGroup(keying: Keying, rows: seq<Value>, groups: Groups, last: Value, i: nat)
    requires Partition(keying, rows, groups) && i < |groups| && keying(last) == Ok(groups[i].key)
    ensures AddToGroup(groups, groups[i].key, last) == groups[i := Entry(groups[i].key, groups[i].value + [last])]
    ensures Partition(keying, rows + [last], AddToGroup(groups, groups[i].key, last))
  {
    var key := groups[i].key;
    GetAt(groups, i);
    InsertExisting(groups, i, groups[i].value + [last]);
    var next := groups[i := Entry(key, groups[i].value + [last])];
    SeenSnoc(keying, rows, last, key);
    assert Keys(groups)[i] == key;
    assert Keys(next) == Keys(groups);
    forall k | 0 <= k < |next| ensures next[k].value == RowsUnder(keying, rows + [last], next[k].key) {
      UnderSnoc(keying, rows, last, next[k].key);
      assert groups[k].value + [] == groups[k].value;
    }
  }

  lemma StartsGroup(keying: Keying, rows: seq<Value>, groups: Groups, last: Value, key: string)
    requires Partition(keying, rows, groups) && keying(last) == Ok(key) && !HasKey(groups, key)
    ensures AddToGroup(groups, key, last) == groups + [Entry(key, [last])]
    ensures Partition(keying, rows + [last], AddToGroup(groups, key, last))
  {
    var next := groups + [Entry(key, [last])];
    InsertFresh(groups, key, [] + [last]);
    assert [] + [last] == [last];
    KeyIndex(groups, key);
    SeenSnoc(keying, rows, last, key);
    assert Keys(next) == Keys(groups) + [key];
    UnseenUnder(keying, rows, key);
    forall k | 0 <= k < |next| ensures next[k].value == RowsUnder(keying, rows + [last], next[k].key) {
      UnderSnoc(keying, rows, last, next[k].key);
      assert k < |groups| ==> next[k] == groups[k] && groups[k].value + [] == groups[k].value;
    }
  }

  lemma {:induction false} FlattenUpdate(groups: Groups, i: nat, last: Value)
    requires i < |groups|
    ensures var next := groups[i := Entry(groups[i].key, groups[i].value + [last])];
            multiset(Flatten(next)) == multiset(Flatten(groups)) + multiset{last} && TotalCount(next) == TotalCount(groups) + 1
    decreases |groups|
  {
    var n := |groups| - 1;
    var next := groups[i := Entry(groups[i].key, groups[i].value + [last])];
    if i == n {
      assert next[..n] == groups[..n];
    } else {
      FlattenUpdate(groups[..n], i, last);
      assert next[..n] == groups[..n][i := Entry(groups[i].key, groups[i].value + [last])];
    }
  }

  lemma FlattenSnoc(groups: Groups, key: string, last: Value)
    ensures var next := groups + [Entry(key, [last])];
            multiset(Flatten(next)) == multiset(Flatten(groups)) + multiset{last} && TotalCount(next) == TotalCount(groups) + 1
  {
    assert (groups + [Entry(key, [last])])[..|groups|] == groups;
  }

  // The groups hold all rows and nothing else.
  ghost predicate Complete(rows: seq<Value>, groups: Groups) {
    multiset(Flatten(groups)) == multiset(rows) && TotalCount(groups) == |rows|
  }

  lemma AddKeepsPartition(keying: Keying, rows: seq<Value>, groups: Groups, last: Value, key: string)
    requires Partition(keying, rows, groups) && Complete(rows, groups) && keying(last) == Ok(key)
    ensures Partition(keying, rows + [last], AddToGroup(groups, key, last))
    ensures Complete(rows + [last], AddToGroup(groups, key, last))
  {
    if HasKey(groups, key) {
      var i :| 0 <= i < |groups| && groups[i].key == key;
      JoinsGroup(keying, rows, groups, last, i);
      FlattenUpdate(groups, i, last);
    } else {
      StartsGroup(keying, rows, groups, last, key);
      FlattenSnoc(groups, key, last);
    }
  }

  lemma {:induction false} GroupingSucceeds(keying: Keying, rows: seq<Value>)
    ensures GroupRows(keying, rows).Ok? <==> forall i :: 0 <= i < |rows| ==> keying(rows[i]).Ok?
  {
    if rows != [] {
      var n := |rows| - 1;
      var front := rows[..n];
      GroupingSucceeds(keying, front);
      assert forall i :: 0 <= i < n ==> front[i] == rows[i];
      assert (forall i :: 0 <= i < |rows| ==> keying(rows[i]).Ok?) <==>
             (forall i :: 0 <= i < n ==> keying(front[i]).Ok?) && keying(rows[n]).Ok?;
    }
  }

  // Groups come in first-encounter order; each holds exactly the rows with
  // its key, in row order; and together they are a permutation of the rows.
  lemma {:induction false} GroupingPartitions(keying: Keying, rows: seq<Value>)
    requires GroupRows(keying, rows).Ok?
    ensures Partition(keying, rows, GroupRows(keying, rows).value) && Complete(rows, GroupRows(keying, rows).value)
  {
    if rows != [] {
      var n := |rows| - 1;
      var front, last := rows[..n], rows[n];
      assert rows == front + [last];
      GroupingPartitions(keying, front);
      var groups, key := GroupRows(keying, front).value, keying(last).value;
      assert GroupRows(keying, rows) == Ok(AddToGroup(groups, key, last));
      AddKeepsPartition(keying, front, groups, last, key);
    }
  }

  // ---------------------------------------------------------------------
  // Output rows.
  // ---------------------------------------------------------------------

  function GroupOutput(lib: Lib, items: seq<SelectItem>, members: seq<Value>): Result<Value>
    requires members != []
  {
    var entries :- ProjectGroupEntries(lib, items, members);
    Ok(Object(entries))
  }

  // Each group yields one output row, in group order.
  lemma {:induction false} OneRowPerGroup(lib: Lib, items: seq<SelectItem>, groups: Groups)
    requires forall i :: 0 <= i < |groups| ==> groups[i].value != []
    requires ProjectGroups(lib, items, groups).Ok?
    ensures var out := ProjectGroups(lib, items, groups).value;
            |out| == |groups| && forall i :: 0 <= i < |groups| ==> GroupOutput(lib, items, groups[i].value) == Ok(out[i])
    decreases |groups|
  {
    if groups != [] {
      var n := |groups| - 1;
      var front := groups[..n];
      OneRowPerGroup(lib, items, front);
      assert groups[n].value != [];
      LastGroupOutput(lib, items, groups);
      assert forall i :: 0 <= i < n ==> front[i] == groups[i];
    }
  }

  lemma LastGroupOutput(lib: Lib, items: seq<SelectItem>, groups: Groups)
    requires groups != [] && groups[|groups| - 1].value != [] && ProjectGroups(lib, items, groups).Ok?
    ensures var front, last := ProjectGroups(lib, items, groups[..|groups| - 1]), GroupOutput(lib, items, groups[|groups| - 1].value);
            front.Ok? && last.Ok? && ProjectGroups(lib, items, groups).value == front.value + [last.value]
  {
  }

  // The item whose value an output column holds: the last of its name.
  predicate WritesColumn(items: seq<SelectItem>, k: nat) {
    && k < |items| && items[k].ExprItem?
    && forall j :: k < j < |items| ==> !items[j].ExprItem? || items[j].name != items[k].name
  }

  lemma {:induction false} ColumnHolds(lib: Lib, items: seq<SelectItem>, members: seq<Value>, k: nat)
    requires members != [] && WritesColumn(items, k) && ProjectGroupEntries(lib, items, members).Ok?
    ensures EvalGroup(lib, items[k].expr, members).Ok?
    ensures Get(ProjectGroupEntries(lib, items, members).value, items[k].name) == Some(EvalGroup(lib, items[k].expr, members).value)
    decreases |items|
  {
    var n := |items| - 1;
    var front := ProjectGroupEntries(lib, items[..n], members).value;
    GetInsert(front, items[n].name, EvalGroup(lib, items[n].expr, members).value, items[k].name);
    if k < n {
      assert items[..n][k] == items[k];
      ColumnHolds(lib, items[..n], members, k);
    }
  }

  // ---------------------------------------------------------------------
  // Counts.
  // ---------------------------------------------------------------------

  function CountIn(row: Value, column: string): int {
    var value := Lookup(row, column);
    if value.Int? then value.int64 else 0
  }

  function ColumnTotal(rows: seq<Value>, column: string): int {
    if rows == [] then 0 else ColumnTotal(rows[..|rows| - 1], column) + CountIn(rows[|rows| - 1], column)
  }

  lemma CountOfGroup(lib: Lib, items: seq<SelectItem>, members: seq<Value>, k: nat)
    requires WritesColumn(items, k) && items[k].expr.Function? && items[k].expr.name == "count"
    requires 0 < |members| < 0x8000_0000_0000_0000 && GroupOutput(lib, items, members).Ok?
    ensures CountIn(GroupOutput(lib, items, members).value, items[k].name) == |members|
  {
    ColumnHolds(lib, items, members, k);
  }

  lemma {:induction false} GroupsCounted(lib: Lib, items: seq<SelectItem>, groups: Groups, k: nat)
    requires WritesColumn(items, k) && items[k].expr.Function? && items[k].expr.name == "count"
    requires TotalCount(groups) < 0x8000_0000_0000_0000 && ProjectGroups(lib, items, groups).Ok?
    ensures ColumnTotal(ProjectGroups(lib, items, groups).value, items[k].name) == TotalCount(groups)
    decreases |groups|
  {
    if groups != [] {
      var n := |groups| - 1;
      GroupsCounted(lib, items, groups[..n], k);
      if groups[n].value != [] {
        LastGroupOutput(lib, items, groups);
        CountOfGroup(lib, items, groups[n].value, k);
      }
    }
  }

  // Whatever its argument, a COUNT column of the output rows adds up to the
  // number of grouped rows.
  lemma CountsAddUp(lib: Lib, keying: Keying, rows: seq<Value>, items: seq<SelectItem>, k: nat)
    requires GroupRows(keying, rows).Ok? && |rows| < 0x8000_0000_0000_0000
    requires WritesColumn(items, k) && items[k].expr.Function? && items[k].expr.name == "count"
    requires ProjectGroups(lib, items, GroupRows(keying, rows).value).Ok?
    ensures ColumnTotal(ProjectGroups(lib, items, GroupRows(keying, rows).value).value, items[k].name) == |rows|
  {
    GroupingPartitions(keying, rows);
    GroupsCounted(lib, items, GroupRows(keying, rows).value, k);
  }
}
