// What joins contain, and filters moving below them.
module JoinLaws {
  import opened Results
  import opened IndexMaps
  import opened Values
  import opened Query

  // ---------------------------------------------------------------------
  // Columns of merged rows.
  // ---------------------------------------------------------------------

  lemma GetSnoc(m: IndexMap<Value>, last: Entry<Value>, key: string)
    ensures Get(m + [last], key) ==
            if HasKey(m, key) then Get(m, key) else if last.key == key then Some(last.value) else None
  {
    GetAppend(m, [last], key);
    GetShort([last], key);
  }

  lemma {:induction false} MergedGet(left: IndexMap<Value>, right: IndexMap<Value>, key: string)
    ensures Get(MergeEntries(left, right), key) == if HasKey(left, key) then Get(left, key) else Get(right, key)
  {
    if right == [] {
    } else {
      var n := |right| - 1;
      MergedGet(left, right[..n], key);
      assert right == right[..n] + [right[n]];
      GetSnoc(right[..n], right[n], key);
      GetSnoc(MergeEntries(left, right[..n]), right[n], key);
    }
  }

  function ColumnOf(row: Value, key: string): Option<Value> {
    if row.Object? then Get(row.fields, key) else None
  }

  lemma MergeColumn(left: Value, right: Value, key: string)
    ensures ColumnOf(MergeObjects(left, right), key)
         == if ColumnOf(left, key).Some? then ColumnOf(left, key) else ColumnOf(right, key)
  {
    var entries := if left.Object? then left.fields else [];
    if right.Object? {
      MergedGet(entries, right.fields, key);
    }
  }

  // A row merged from the rows of several tables, in join order.
  function MergeAll(parts: seq<Value>): Value
    requires parts != []
  {
    if |parts| == 1 then parts[0] else MergeObjects(MergeAll(parts[..|parts| - 1]), parts[|parts| - 1])
  }

  // The value of the first part that has the column.
  function Earliest(parts: seq<Value>, key: string): Option<Value> {
    if parts == [] then None
    else if ColumnOf(parts[0], key).Some? then ColumnOf(parts[0], key)
    else Earliest(parts[1..], key)
  }

  lemma {:induction false} EarliestSnoc(parts: seq<Value>, last: Value, key: string)
    ensures Earliest(parts + [last], key) == if Earliest(parts, key).Some? then Earliest(parts, key) else ColumnOf(last, key)
  {
    if parts == [] {
      assert [] + [last] == [last];
      assert Earliest([last][1..], key) == None;
    } else {
      assert (parts + [last])[1..] == parts[1..] + [last];
      EarliestSnoc(parts[1..], last, key);
    }
  }

  lemma {:induction false} MergeAllColumn(parts: seq<Value>, key: string)
    requires parts != []
    ensures ColumnOf(MergeAll(parts), key) == Earliest(parts, key)
  {
    var n := |parts| - 1;
    assert parts == parts[..n] + [parts[n]];
    EarliestSnoc(parts[..n], parts[n], key);
    if n > 0 {
      MergeAllColumn(parts[..n], key);
      MergeColumn(MergeAll(parts[..n]), parts[n], key);
    } else {
      assert parts[..n] == [];
    }
  }

  // ---------------------------------------------------------------------
  // What a join contains.
  // ---------------------------------------------------------------------

  lemma {:induction false} MatchesMembers(test: JoinTest, left: Value, rights: seq<Value>, row: Value)
    ensures row in MatchesOf(test, left, rights) <==>
            exists right :: right in rights && test.Matches(left, right) && row == MergeObjects(left, right)
  {
    if rights != [] {
      var n := |rights| - 1;
      MatchesMembers(test, left, rights[..n], row);
      assert rights == rights[..n] + [rights[n]];
    }
  }

  predicate Unmatched(test: JoinTest, left: Value, rights: seq<Value>) {
    forall right :: right in rights ==> !test.Matches(left, right)
  }

  lemma {:induction false} UnmatchedIsEmpty(test: JoinTest, left: Value, rights: seq<Value>)
    ensures MatchesOf(test, left, rights) == [] <==> Unmatched(test, left, rights)
  {
    if rights != [] {
      var n := |rights| - 1;
      UnmatchedIsEmpty(test, left, rights[..n]);
      assert rights == rights[..n] + [rights[n]];
    }
  }

  ghost predicate Paired(test: JoinTest, lefts: seq<Value>, rights: seq<Value>, row: Value) {
    exists left, right :: left in lefts && right in rights && test.Matches(left, right) && row == MergeObjects(left, right)
  }

  // An inner join holds exactly the merges of matching pairs; a left join
  // holds those and the left rows that match nothing, unchanged.
  lemma {:induction false} JoinMembers(test: JoinTest, lefts: seq<Value>, rights: seq<Value>, isLeft: bool, row: Value)
    ensures row in EquiJoin(test, lefts, rights, isLeft) <==>
            Paired(test, lefts, rights, row) || (isLeft && row in lefts && Unmatched(test, row, rights))
  {
    if lefts != [] {
      var n := |lefts| - 1;
      JoinMembers(test, lefts[..n], rights, isLeft, row);
      assert lefts == lefts[..n] + [lefts[n]];
      MatchesMembers(test, lefts[n], rights, row);
      UnmatchedIsEmpty(test, lefts[n], rights);
      assert Paired(test, lefts, rights, row) <==> Paired(test, lefts[..n], rights, row) || row in MatchesOf(test, lefts[n], rights);
    }
  }

  lemma {:induction false} JoinSplits(test: JoinTest, a: seq<Value>, b: seq<Value>, rights: seq<Value>, isLeft: bool)
    ensures EquiJoin(test, a + b, rights, isLeft) == EquiJoin(test, a, rights, isLeft) + EquiJoin(test, b, rights, isLeft)
  {
    if b == [] {
      assert a + b == a;
    } else {
      var n := |b| - 1;
      assert (a + b)[..|a + b| - 1] == a + b[..n];
      JoinSplits(test, a, b[..n], rights, isLeft);
    }
  }

  lemma JoinSnoc(test: JoinTest, lefts: seq<Value>, last: Value, rights: seq<Value>, isLeft: bool)
    ensures EquiJoin(test, lefts + [last], rights, isLeft) == EquiJoin(test, lefts, rights, isLeft) + JoinRow(test, last, rights, isLeft)
  {
    assert (lefts + [last])[..|lefts|] == lefts;
  }

  // The left join is the inner join with each unmatched left row added in its
  // place: left row by left row they agree, or the left join keeps the row.
  lemma LeftJoinExtendsInner(test: JoinTest, before: seq<Value>, left: Value, after: seq<Value>, rights: seq<Value>)
    ensures EquiJoin(test, before + [left] + after, rights, true)
         == EquiJoin(test, before, rights, true)
            + (if Unmatched(test, left, rights) then [left] else EquiJoin(test, [left], rights, false))
            + EquiJoin(test, after, rights, true)
    ensures EquiJoin(test, before + [left] + after, rights, false)
         == EquiJoin(test, before, rights, false)
            + (if Unmatched(test, left, rights) then [] else EquiJoin(test, [left], rights, false))
            + EquiJoin(test, after, rights, false)
  {
    UnmatchedIsEmpty(test, left, rights);
    forall isLeft ensures EquiJoin(test, before + [left] + after, rights, isLeft)
                       == EquiJoin(test, before, rights, isLeft) + JoinRow(test, left, rights, isLeft) + EquiJoin(test, after, rights, isLeft)
    {
      JoinSplits(test, before + [left], after, rights, isLeft);
      JoinSnoc(test, before, left, rights, isLeft);
    }
    JoinSnoc(test, [], left, rights, false);
    assert [] + [left] == [left];
    assert EquiJoin(test, [left], rights, false) == JoinRow(test, left, rights, false);
  }

  // ---------------------------------------------------------------------
  // Chained joins.
  // ---------------------------------------------------------------------

  // A base row, then for each join one row of its table, or none for a left
  // join.
  ghost predicate Assembled(base: seq<Value>, joins: seq<JoinClause>, tables: Tables, parts: seq<Value>)
    decreases |joins|
  {
    if joins == [] then |parts| == 1 && parts[0] in base else
      var front, last := joins[..|joins| - 1], joins[|joins| - 1];
      || (last.kind.LeftJoin? && Assembled(base, front, tables, parts))
      || (parts != [] && TableRows(last.relation, tables).Ok?
          && parts[|parts| - 1] in TableRows(last.relation, tables).value
          && Assembled(base, front, tables, parts[..|parts| - 1]))
  }

  // Every row of a chain of joins is merged from rows of its tables, and each
  // of its columns has the value of the earliest table that contributes it.
  lemma {:induction false} JoinedRowOrigin(lib: Lib, base: seq<Value>, joins: seq<JoinClause>, tables: Tables, row: Value)
    returns (parts: seq<Value>)
    requires ApplyJoins(lib, base, joins, tables).Ok? && row in ApplyJoins(lib, base, joins, tables).value
    ensures Assembled(base, joins, tables, parts) && parts != [] && row == MergeAll(parts)
    ensures forall key :: ColumnOf(row, key) == Earliest(parts, key)
    decreases |joins|
  {
    if joins == [] {
      parts := [row];
    } else {
      var n := |joins| - 1;
      var join := joins[n];
      var lefts := ApplyJoins(lib, base, joins[..n], tables).value;
      var rights := TableRows(join.relation, tables).value;
      var test := JoinTest(lib, join.on.value, RightName(join.relation));
      JoinMembers(test, lefts, rights, join.kind.LeftJoin?, row);
      if Paired(test, lefts, rights, row) {
        var left, right :| left in lefts && right in rights && test.Matches(left, right) && row == MergeObjects(left, right);
        var front := JoinedRowOrigin(lib, base, joins[..n], tables, left);
        parts := front + [right];
        assert parts[..|parts| - 1] == front;
      } else {
        parts := JoinedRowOrigin(lib, base, joins[..n], tables, row);
      }
    }
    forall key ensures ColumnOf(row, key) == Earliest(parts, key) {
      MergeAllColumn(parts, key);
    }
  }

  // ---------------------------------------------------------------------
  // Filter pushdown.
  // ---------------------------------------------------------------------

  function Columns(expr: SqlExpr): set<string>
    decreases expr
  {
    match expr
    case Identifier(column) => {column}
    case CompoundIdentifier(_, column) => {column}
    case BinaryOp(left, _, right) => Columns(left) + Columns(right)
    case _ => {}
  }

  // The row has every column the expression reads.
  predicate Provides(row: Value, expr: SqlExpr) {
    forall column :: column in Columns(expr) ==> ColumnOf(row, column).Some?
  }

  lemma {:induction false} EvalOnMerged(lib: Lib, expr: SqlExpr, left: Value, right: Value)
    requires Provides(left, expr)
    ensures EvalSql(lib, expr, MergeObjects(left, right)) == EvalSql(lib, expr, left)
    decreases expr
  {
    match expr
    case Identifier(column) => MergeColumn(left, right, column);
    case CompoundIdentifier(_, column) => MergeColumn(left, right, column);
    case BinaryOp(l, _, r) =>
      EvalOnMerged(lib, l, left, right);
      EvalOnMerged(lib, r, left, right);
    case _ =>
  }

  lemma MergedProvides(left: Value, right: Value, expr: SqlExpr)
    requires Provides(left, expr)
    ensures Provides(MergeObjects(left, right), expr)
  {
    forall column | column in Columns(expr) ensures ColumnOf(MergeObjects(left, right), column).Some? {
      MergeColumn(left, right, column);
    }
  }

  // Rows on which the selection agrees.
  ghost predicate Decided(lib: Lib, selection: SqlExpr, rows: seq<Value>, verdict: bool) {
    forall row :: row in rows ==> Holds(EvalSql(lib, selection, row)) == verdict
  }

  lemma {:induction false} RetainDecided(lib: Lib, selection: SqlExpr, rows: seq<Value>, verdict: bool)
    requires Decided(lib, selection, rows, verdict)
    ensures Retain(lib, selection, rows) == if verdict then rows else []
  {
    if rows != [] {
      var n := |rows| - 1;
      assert rows == rows[..n] + [rows[n]];
      RetainDecided(lib, selection, rows[..n], verdict);
      assert rows[n] in rows;
    }
  }

  lemma {:induction false} RetainAppend(lib: Lib, selection: SqlExpr, a: seq<Value>, b: seq<Value>)
    ensures Retain(lib, selection, a + b) == Retain(lib, selection, a) + Retain(lib, selection, b)
  {
    if b == [] {
      assert a + b == a;
    } else {
      var n := |b| - 1;
      assert (a + b)[..|a + b| - 1] == a + b[..n];
      RetainAppend(lib, selection, a, b[..n]);
    }
  }

  lemma JoinRowDecided(lib: Lib, selection: SqlExpr, test: JoinTest, left: Value, rights: seq<Value>, isLeft: bool)
    requires Provides(left, selection)
    ensures Decided(lib, selection, JoinRow(test, left, rights, isLeft), Holds(EvalSql(lib, selection, left)))
  {
    forall row | row in JoinRow(test, left, rights, isLeft)
      ensures Holds(EvalSql(lib, selection, row)) == Holds(EvalSql(lib, selection, left))
    {
      MatchesMembers(test, left, rights, row);
      if row in MatchesOf(test, left, rights) {
        var right :| right in rights && test.Matches(left, right) && row == MergeObjects(left, right);
        EvalOnMerged(lib, selection, left, right);
      }
    }
  }

  lemma RetainJoinRow(lib: Lib, selection: SqlExpr, test: JoinTest, left: Value, rights: seq<Value>, isLeft: bool)
    requires Provides(left, selection)
    ensures Retain(lib, selection, JoinRow(test, left, rights, isLeft))
         == if Holds(EvalSql(lib, selection, left)) then JoinRow(test, left, rights, isLeft) else []
  {
    JoinRowDecided(lib, selection, test, left, rights, isLeft);
    RetainDecided(lib, selection, JoinRow(test, left, rights, isLeft), Holds(EvalSql(lib, selection, left)));
  }

  lemma JoinRetained(lib: Lib, selection: SqlExpr, test: JoinTest, front: seq<Value>, last: Value, rights: seq<Value>, isLeft: bool)
    ensures EquiJoin(test, Retain(lib, selection, front + [last]), rights, isLeft)
         == EquiJoin(test, Retain(lib, selection, front), rights, isLeft)
            + if Holds(EvalSql(lib, selection, last)) then JoinRow(test, last, rights, isLeft) else []
  {
    var kept := Retain(lib, selection, front);
    assert (front + [last])[..|front|] == front;
    JoinSnoc(test, kept, last, rights, isLeft);
    assert kept + [] == kept;
  }

  // A filter over columns that every left row has may be applied before or
  // after the join.
  lemma {:induction false} FilterPushdown(lib: Lib, selection: SqlExpr, test: JoinTest, lefts: seq<Value>, rights: seq<Value>, isLeft: bool)
    requires forall left :: left in lefts ==> Provides(left, selection)
    ensures Retain(lib, selection, EquiJoin(test, lefts, rights, isLeft))
         == EquiJoin(test, Retain(lib, selection, lefts), rights, isLeft)
  {
    if lefts != [] {
      var n := |lefts| - 1;
      var front, last := lefts[..n], lefts[n];
      assert lefts == front + [last] && last in lefts;
      FilterPushdown(lib, selection, test, front, rights, isLeft);
      RetainJoinRow(lib, selection, test, last, rights, isLeft);
      RetainAppend(lib, selection, EquiJoin(test, front, rights, isLeft), JoinRow(test, last, rights, isLeft));
      JoinRetained(lib, selection, test, front, last, rights, isLeft);
    }
  }

  lemma JoinProvides(selection: SqlExpr, test: JoinTest, lefts: seq<Value>, rights: seq<Value>, isLeft: bool)
    requires forall left :: left in lefts ==> Provides(left, selection)
    ensures forall row :: row in EquiJoin(test, lefts, rights, isLeft) ==> Provides(row, selection)
  {
    forall row | row in EquiJoin(test, lefts, rights, isLeft) ensures Provides(row, selection) {
      JoinMembers(test, lefts, rights, isLeft, row);
      if Paired(test, lefts, rights, row) {
        var left, right :| left in lefts && right in rights && test.Matches(left, right) && row == MergeObjects(left, right);
        MergedProvides(left, right, selection);
      }
    }
  }

  // The same through a whole chain of joins: filtering the base table first
  // gives the filtered join, and fails exactly when the join does.
  lemma {:induction false} WherePushdown(lib: Lib, selection: SqlExpr, base: seq<Value>, joins: seq<JoinClause>, tables: Tables)
    requires forall row :: row in base ==> Provides(row, selection)
    ensures var joined := ApplyJoins(lib, base, joins, tables);
            ApplyJoins(lib, Retain(lib, selection, base), joins, tables)
            == if joined.Ok? then Ok(Retain(lib, selection, joined.value)) else joined
    ensures ApplyJoins(lib, base, joins, tables).Ok? ==>
              forall row :: row in ApplyJoins(lib, base, joins, tables).value ==> Provides(row, selection)
    decreases |joins|
  {
    if joins != [] {
      var n := |joins| - 1;
      var join := joins[n];
      WherePushdown(lib, selection, base, joins[..n], tables);
      var lefts, rights := ApplyJoins(lib, base, joins[..n], tables), TableRows(join.relation, tables);
      if lefts.Ok? && rights.Ok? && !join.kind.OtherJoin? && join.on.Some? {
        var test := JoinTest(lib, join.on.value, RightName(join.relation));
        FilterPushdown(lib, selection, test, lefts.value, rights.value, join.kind.LeftJoin?);
        JoinProvides(selection, test, lefts.value, rights.value, join.kind.LeftJoin?);
      }
    }
  }
}
