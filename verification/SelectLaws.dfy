// Laws of a whole SELECT.
module SelectLaws {
  import opened Results
  import opened IndexMaps
  import opened Values
  import opened Serialization
  import opened Query
  import opened JoinLaws
  import opened GroupLaws

  // WHERE over columns of the first table may be applied before all joins:
  // the whole SELECT gives the same rows, or the same error.
  lemma SelectPushdown(lib: Lib, select: Select, base: seq<Value>, tables: Tables)
    requires select.selection.Some?
    requires forall row :: row in base ==> Provides(row, select.selection.value)
    ensures SelectOver(lib, select, base, tables)
         == SelectOver(lib, select.(selection := None), Retain(lib, select.selection.value, base), tables)
  {
    WherePushdown(lib, select.selection.value, base, select.joins, tables);
  }

  // The rows that reach projection or grouping.
  function Kept(lib: Lib, select: Select, tables: Tables): Result<seq<Value>> {
    if select.from.None? then UsageError("sql_from") else
      var base :- TableRows(select.from.value, tables);
      var rows :- ApplyJoins(lib, base, select.joins, tables);
      Ok(Selected(lib, select, rows))
  }

  lemma {:induction false} ProjectedRow(lib: Lib, items: seq<SelectItem>, rows: seq<Value>, i: nat)
    requires ProjectRows(lib, items, rows).Ok?
    ensures |ProjectRows(lib, items, rows).value| == |rows|
    ensures i < |rows| ==> ProjectRow(lib, items, rows[i]) == Ok(ProjectRows(lib, items, rows).value[i])
    decreases |rows|
  {
    if rows != [] {
      var n := |rows| - 1;
      ProjectedRow(lib, items, rows[..n], i);
      assert i < n ==> rows[..n][i] == rows[i];
    }
  }

  // Without grouping, a SELECT maps the kept rows one to one and in order.
  lemma SelectMaps(lib: Lib, select: Select, tables: Tables, i: nat)
    requires !IsGrouped(select) && SelectRows(lib, select, tables).Ok?
    ensures var out, kept := SelectRows(lib, select, tables).value, Kept(lib, select, tables);
            && kept.Ok? && |out| == |kept.value|
            && (i < |out| ==> ProjectRow(lib, select.projection, kept.value[i]) == Ok(out[i]))
  {
    ProjectedRow(lib, select.projection, Kept(lib, select, tables).value, i);
  }

  // With grouping, a SELECT has one row per key the kept rows have, in
  // first-encounter order, and a COUNT column adds up to the number of kept
  // rows.
  lemma SelectGroups(lib: Lib, select: Select, tables: Tables)
    requires IsGrouped(select) && SelectRows(lib, select, tables).Ok?
    ensures var out, kept, keying := SelectRows(lib, select, tables).value, Kept(lib, select, tables), KeyedBy(lib, GroupKeys(select));
            && kept.Ok? && |out| == |KeysSeen(keying, kept.value)|
            && forall i :: 0 <= i < |out| ==>
                 var members := RowsUnder(keying, kept.value, KeysSeen(keying, kept.value)[i]);
                 members != [] && GroupOutput(lib, select.projection, members) == Ok(out[i])
  {
    var kept, keying := Kept(lib, select, tables).value, KeyedBy(lib, GroupKeys(select));
    GroupsProjected(lib, select.projection, keying, kept, GroupRows(keying, kept).value);
  }

  lemma GroupsProjected(lib: Lib, items: seq<SelectItem>, keying: Keying, rows: seq<Value>, groups: Groups)
    requires GroupRows(keying, rows) == Ok(groups) && ProjectGroups(lib, items, groups).Ok?
    ensures var out, seen := ProjectGroups(lib, items, groups).value, KeysSeen(keying, rows);
            && |out| == |seen|
            && forall i :: 0 <= i < |out| ==>
                 var members := RowsUnder(keying, rows, seen[i]);
                 members != [] && GroupOutput(lib, items, members) == Ok(out[i])
  {
    GroupingPartitions(keying, rows);
    OneRowPerGroup(lib, items, groups);
    forall i | 0 <= i < |groups| ensures groups[i].key == KeysSeen(keying, rows)[i] {
      assert Keys(groups)[i] == groups[i].key;
    }
  }

  lemma SelectCounts(lib: Lib, select: Select, tables: Tables, k: nat)
    requires IsGrouped(select) && SelectRows(lib, select, tables).Ok?
    requires WritesColumn(select.projection, k) && select.projection[k].expr.Function? && select.projection[k].expr.name == "count"
    requires Kept(lib, select, tables).Ok? && |Kept(lib, select, tables).value| < 0x8000_0000_0000_0000
    ensures ColumnTotal(SelectRows(lib, select, tables).value, select.projection[k].name) == |Kept(lib, select, tables).value|
  {
    CountsAddUp(lib, KeyedBy(lib, GroupKeys(select)), Kept(lib, select, tables).value, select.projection, k);
  }

  lemma {:induction false} UnderMember(keying: Keying, rows: seq<Value>, key: string, row: Value)
    ensures row in RowsUnder(keying, rows, key) <==> row in rows && keying(row) == Ok(key)
  {
    if rows != [] {
      var n := |rows| - 1;
      assert rows == rows[..n] + [rows[n]];
      UnderMember(keying, rows[..n], key, row);
    }
  }

  // A column that prints a grouping expression shows what the expression
  // gives on every member of the row's group, up to serialization.
  lemma KeyColumn(lib: Lib, select: Select, tables: Tables, i: nat, j: nat, k: nat, member: Value)
    requires IsGrouped(select) && SelectRows(lib, select, tables).Ok? && i < |SelectRows(lib, select, tables).value|
    requires Kept(lib, select, tables).Ok?
    requires var keying := KeyedBy(lib, GroupKeys(select));
             && i < |KeysSeen(keying, Kept(lib, select, tables).value)|
             && member in RowsUnder(keying, Kept(lib, select, tables).value, KeysSeen(keying, Kept(lib, select, tables).value)[i])
    requires j < |GroupKeys(select)| && WritesColumn(select.projection, k) && select.projection[k].expr == GroupKeys(select)[j]
    ensures KeyText(lib, GroupKeys(select)[j], member)
         == Ok(JsonText(lib, Lookup(SelectRows(lib, select, tables).value[i], select.projection[k].name)))
  {
    var kept, keying := Kept(lib, select, tables).value, KeyedBy(lib, GroupKeys(select));
    SelectGroups(lib, select, tables);
    var key := KeysSeen(keying, kept)[i];
    var members := RowsUnder(keying, kept, key);
    UnderMember(keying, kept, key, member);
    UnderMember(keying, kept, key, members[0]);
    SameGroup(lib, GroupKeys(select), member, members[0]);
    KeyPrinted(lib, select, members, j, k);
  }

  lemma KeyPrinted(lib: Lib, select: Select, members: seq<Value>, j: nat, k: nat)
    requires members != [] && GroupOutput(lib, select.projection, members).Ok?
    requires GroupKey(lib, GroupKeys(select), members[0]).Ok?
    requires j < |GroupKeys(select)| && WritesColumn(select.projection, k) && select.projection[k].expr == GroupKeys(select)[j]
    ensures KeyText(lib, GroupKeys(select)[j], members[0])
         == Ok(JsonText(lib, Lookup(GroupOutput(lib, select.projection, members).value, select.projection[k].name)))
  {
    ColumnHolds(lib, select.projection, members, k);
    KeyTextAt(lib, GroupKeys(select), members[0], j);
    NoAggregate(lib, select.projection[k].expr, members[0]);
  }

  lemma NoAggregate(lib: Lib, expr: SqlExpr, row: Value)
    requires EvalSql(lib, expr, row).Ok?
    ensures !IsAggregate(expr)
  {
  }
}
