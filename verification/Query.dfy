// The SQL evaluator over an abstract syntax tree.
module Query {
  import opened Results
  import opened Orders
  import opened Text
  import opened IndexMaps
  import opened Decimals
  import opened Values
  import opened Serialization
  import opened Engine

  datatype SqlOp = Eq | NotEq | Gt | Lt | GtEq | LtEq | And | Or | Plus | Minus | Multiply | Divide | OtherOp

  datatype SqlLiteral = NumberLit(raw: string) | StringLit(text: string) | BoolLit(flag: bool) | NullLit | OtherLit

  // A compound identifier ends in its column; functions are named in lower
  // case.
  datatype SqlExpr =
    | Identifier(column: string)
    | CompoundIdentifier(qualifiers: seq<string>, column: string)
    | SqlValue(literal: SqlLiteral)
    | BinaryOp(left: SqlExpr, op: SqlOp, right: SqlExpr)
    | Function(name: string, arg: Option<SqlExpr>)
    | OtherExpr

  // A projected expression carries the column name it is written under.
  datatype SelectItem = ExprItem(expr: SqlExpr, name: string) | Wildcard | QualifiedWildcard

  datatype GroupBy = GroupExpressions(exprs: seq<SqlExpr>) | GroupAll

  datatype TableRef = NamedTable(name: string, alias: Option<string>) | OtherTable

  datatype JoinKind = InnerJoin | LeftJoin | OtherJoin

  // A join without an ON expression has no condition.
  datatype JoinClause = JoinClause(relation: TableRef, kind: JoinKind, on: Option<SqlExpr>)

  datatype Select = Select(
    from: Option<TableRef>,
    joins: seq<JoinClause>,
    selection: Option<SqlExpr>,
    groupBy: GroupBy,
    projection: seq<SelectItem>)

  datatype OrderKey = OrderKey(expr: SqlExpr, descending: bool)

  datatype OrderBy = OrderAll | OrderKeys(keys: seq<OrderKey>)

  // A query that is not a SELECT has no body; the limit is the number read
  // from a literal, if any.
  datatype SqlQuery = SqlQuery(hasWith: bool, body: Option<Select>, orderBy: Option<OrderBy>, limit: Option<nat>)

  type Tables = map<string, seq<Value>>

  function UsageError<T>(code: string): Result<T> {
    Err(Error(Usage, code))
  }

  // ---------------------------------------------------------------------
  // Expressions.
  // ---------------------------------------------------------------------

  function Lookup(row: Value, name: string): Value {
    if row.Object? && Get(row.fields, name).Some? then Get(row.fields, name).value else Null
  }

  function Literal(lib: Lib, literal: SqlLiteral): Result<Value> {
    match literal
    case NumberLit(raw) =>
      if Has(raw, '.') then Ok(FloatValue(OrElse(lib.parseFloat(raw), Float(0))))
      else Ok(Int(OrElse(ParseInt64(raw), 0)))
    case StringLit(text) => Ok(String(text))
    case BoolLit(flag) => Ok(Bool(flag))
    case NullLit => Ok(Null)
    case OtherLit => UsageError("sql_literal")
  }

  function Stringify(lib: Lib, value: Value): string {
    match value
    case String(text) => text
    case Int(v) => IntText(v)
    case UInt(v) => IntText(v)
    case FloatValue(f) => lib.floatText(f)
    case Bool(b) => if b then "true" else "false"
    case Decimal(d) => RenderDecimal(d)
    case _ => ""
  }

  function NumericRank(lib: Lib, value: Value): Option<Float> {
    match value
    case Int(v) => Some(lib.intToFloat(v))
    case UInt(v) => Some(lib.intToFloat(v))
    case FloatValue(f) => Some(f)
    case Decimal(d) => lib.parseFloat(RenderDecimal(d))
    case _ => None
  }

  function ValuesCmp(lib: Lib, left: Value, right: Value): Ordering {
    match (NumericRank(lib, left), NumericRank(lib, right))
    case (Some(a), Some(b)) => lib.floatCompare(a, b)
    case _ => StrCmp(Stringify(lib, left), Stringify(lib, right))
  }

  function ValuesEqual(lib: Lib, left: Value, right: Value): bool {
    lib.sameValue(left, right) || Stringify(lib, left) == Stringify(lib, right)
  }

  function ValueFloat(lib: Lib, value: Value): Result<Float> {
    match value
    case Int(v) => Ok(lib.intToFloat(v))
    case UInt(v) => Ok(lib.intToFloat(v))
    case FloatValue(f) => Ok(f)
    case String(text) => ParsedFloat(lib, text)
    case Decimal(d) => ParsedFloat(lib, RenderDecimal(d))
    case _ => Ok(Float(0))
  }

  function ParsedFloat(lib: Lib, text: string): Result<Float> {
    match lib.parseFloat(text)
    case Some(f) => Ok(f)
    case None => TransformError("sql_num")
  }

  function Arith(lib: Lib, op: FloatOp, left: Value, right: Value): Result<Value> {
    var a :- ValueFloat(lib, left);
    var b :- ValueFloat(lib, right);
    Ok(FloatValue(lib.floatArith(op, a, b)))
  }

  function EvalBinaryValues(lib: Lib, op: SqlOp, left: Value, right: Value): Result<Value> {
    match op
    case Eq => Ok(Bool(ValuesEqual(lib, left, right)))
    case NotEq => Ok(Bool(!ValuesEqual(lib, left, right)))
    case Gt => Ok(Bool(ValuesCmp(lib, left, right) == Greater))
    case Lt => Ok(Bool(ValuesCmp(lib, left, right) == Less))
    case GtEq => Ok(Bool(ValuesCmp(lib, left, right) != Less))
    case LtEq => Ok(Bool(ValuesCmp(lib, left, right) != Greater))
    case And => Ok(Bool(left.IsTruthy() && right.IsTruthy()))
    case Or => Ok(Bool(left.IsTruthy() || right.IsTruthy()))
    case Plus => Arith(lib, Add, left, right)
    case Minus => Arith(lib, Subtract, left, right)
    case Multiply => Arith(lib, Times, left, right)
    case Divide => Arith(lib, Over, left, right)
    case OtherOp => UsageError("sql_op")
  }

  predicate IsAggregate(expr: SqlExpr) {
    expr.Function? && expr.name in ["count", "sum", "avg", "min", "max"]
  }

  // A qualifier is ignored outside joins.
  function EvalSql(lib: Lib, expr: SqlExpr, row: Value): Result<Value>
    decreases expr
  {
    match expr
    case Identifier(column) => Ok(Lookup(row, column))
    case CompoundIdentifier(_, column) => Ok(Lookup(row, column))
    case SqlValue(literal) => Literal(lib, literal)
    case BinaryOp(left, op, right) =>
      var lv :- EvalSql(lib, left, row);
      var rv :- EvalSql(lib, right, row);
      EvalBinaryValues(lib, op, lv, rv)
    case Function(_, _) => if IsAggregate(expr) then UsageError("sql_agg") else UsageError("sql_expr")
    case OtherExpr => UsageError("sql_expr")
  }

  function EvalJoin(lib: Lib, expr: SqlExpr, left: Value, right: Value, rightName: string): Result<Value>
    decreases expr
  {
    match expr
    case Identifier(column) =>
      Ok(if left.Object? && HasKey(left.fields, column) then Lookup(left, column) else Lookup(right, column))
    case CompoundIdentifier(qualifiers, column) =>
      Ok(if qualifiers != [] && qualifiers[|qualifiers| - 1] == rightName then Lookup(right, column) else Lookup(left, column))
    case SqlValue(literal) => Literal(lib, literal)
    case BinaryOp(lhs, op, rhs) =>
      var lv :- EvalJoin(lib, lhs, left, right, rightName);
      var rv :- EvalJoin(lib, rhs, left, right, rightName);
      EvalBinaryValues(lib, op, lv, rv)
    case _ => UsageError("sql_expr")
  }

  // Null and false do not pass; neither does an error.
  predicate Holds(result: Result<Value>) {
    result.Ok? && result.value.IsTruthy()
  }

  // ---------------------------------------------------------------------
  // Joins.
  // ---------------------------------------------------------------------

  function MergeEntries(left: IndexMap<Value>, right: IndexMap<Value>): IndexMap<Value> {
    if right == [] then left else
      var front, last := MergeEntries(left, right[..|right| - 1]), right[|right| - 1];
      if HasKey(front, last.key) then front else front + [last]
  }

  // The left row's columns win; the right row adds the ones it lacks.
  function MergeObjects(left: Value, right: Value): Value {
    var entries := if left.Object? then left.fields else [];
    Object(if right.Object? then MergeEntries(entries, right.fields) else entries)
  }

  datatype JoinTest = JoinTest(lib: Lib, on: SqlExpr, rightName: string) {
    predicate Matches(left: Value, right: Value) {
      Holds(EvalJoin(lib, on, left, right, rightName))
    }
  }

  function MatchesOf(test: JoinTest, left: Value, rights: seq<Value>): seq<Value> {
    if rights == [] then [] else
      var right := rights[|rights| - 1];
      MatchesOf(test, left, rights[..|rights| - 1]) + (if test.Matches(left, right) then [MergeObjects(left, right)] else [])
  }

  function JoinRow(test: JoinTest, left: Value, rights: seq<Value>, isLeft: bool): seq<Value> {
    var matches := MatchesOf(test, left, rights);
    if isLeft && matches == [] then [left] else matches
  }

  function EquiJoin(test: JoinTest, lefts: seq<Value>, rights: seq<Value>, isLeft: bool): seq<Value> {
    if lefts == [] then [] else
      EquiJoin(test, lefts[..|lefts| - 1], rights, isLeft) + JoinRow(test, lefts[|lefts| - 1], rights, isLeft)
  }

  method MergeRows(left: Value, right: Value) returns (merged: Value)
    ensures merged == MergeObjects(left, right)
  {
    var entries: IndexMap<Value> := if left.Object? then left.fields else [];
    if right.Object? {
      ghost var start := entries;
      for i := 0 to |right.fields|
        invariant entries == MergeEntries(start, right.fields[..i])
      {
        assert right.fields[..i + 1][..i] == right.fields[..i];
        if Get(entries, right.fields[i].key).None? {
          entries := entries + [right.fields[i]];
        }
      }
      assert right.fields[..|right.fields|] == right.fields;
    }
    return Object(entries);
  }

  method JoinTables(test: JoinTest, lefts: seq<Value>, rights: seq<Value>, isLeft: bool) returns (out: seq<Value>)
    ensures out == EquiJoin(test, lefts, rights, isLeft)
  {
    out := [];
    for i := 0 to |lefts|
      invariant out == EquiJoin(test, lefts[..i], rights, isLeft)
    {
      assert lefts[..i + 1][..i] == lefts[..i];
      ghost var before := out;
      var left, matched := lefts[i], false;
      for j := 0 to |rights|
        invariant out == before + MatchesOf(test, left, rights[..j])
        invariant matched <==> MatchesOf(test, left, rights[..j]) != []
      {
        assert rights[..j + 1][..j] == rights[..j];
        if test.Matches(left, rights[j]) {
          var merged := MergeRows(left, rights[j]);
          out := out + [merged];
          matched := true;
        }
      }
      assert rights[..|rights|] == rights;
      if isLeft && !matched {
        out := out + [left];
      }
    }
    assert lefts[..|lefts|] == lefts;
  }

  // The table of that name, else of its alias, else the default input.
  function TableRows(table: TableRef, tables: Tables): Result<seq<Value>> {
    match table
    case OtherTable => UsageError("sql_from")
    case NamedTable(name, alias) =>
      if name in tables then Ok(tables[name])
      else if alias.Some? && alias.value in tables then Ok(tables[alias.value])
      else if "input" in tables then Ok(tables["input"])
      else UsageError("sql_unknown_table")
  }

  function RightName(table: TableRef): string {
    match table
    case OtherTable => ""
    case NamedTable(name, alias) => OrElse(alias, name)
  }

  function ApplyJoin(lib: Lib, lefts: seq<Value>, join: JoinClause, tables: Tables): Result<seq<Value>> {
    var rights :- TableRows(join.relation, tables);
    if join.kind.OtherJoin? || join.on.None? then UsageError("sql_join")
    else Ok(EquiJoin(JoinTest(lib, join.on.value, RightName(join.relation)), lefts, rights, join.kind.LeftJoin?))
  }

  function ApplyJoins(lib: Lib, base: seq<Value>, joins: seq<JoinClause>, tables: Tables): Result<seq<Value>> {
    if joins == [] then Ok(base) else
      var rows :- ApplyJoins(lib, base, joins[..|joins| - 1], tables);
      ApplyJoin(lib, rows, joins[|joins| - 1], tables)
  }

  lemma {:induction false} JoiningFails(lib: Lib, base: seq<Value>, joins: seq<JoinClause>, tables: Tables, n: nat)
    requires n <= |joins| && ApplyJoins(lib, base, joins[..n], tables).Err?
    ensures ApplyJoins(lib, base, joins, tables) == ApplyJoins(lib, base, joins[..n], tables)
    decreases |joins|
  {
    if n < |joins| {
      var front := joins[..|joins| - 1];
      assert front[..n] == joins[..n];
      JoiningFails(lib, base, front, tables, n);
    } else {
      assert joins[..n] == joins;
    }
  }

  method JoinAll(lib: Lib, base: seq<Value>, joins: seq<JoinClause>, tables: Tables) returns (r: Result<seq<Value>>)
    ensures r == ApplyJoins(lib, base, joins, tables)
  {
    var rows := base;
    for i := 0 to |joins|
      invariant ApplyJoins(lib, base, joins[..i], tables) == Ok(rows)
    {
      assert joins[..i + 1][..i] == joins[..i];
      var join := joins[i];
      var rights := TableRows(join.relation, tables);
      if rights.Err? {
        JoiningFails(lib, base, joins, tables, i + 1);
        return Err(rights.error);
      }
      if join.kind.OtherJoin? || join.on.None? {
        JoiningFails(lib, base, joins, tables, i + 1);
        return UsageError("sql_join");
      }
      rows := JoinTables(JoinTest(lib, join.on.value, RightName(join.relation)), rows, rights.value, join.kind.LeftJoin?);
    }
    assert joins[..|joins|] == joins;
    return Ok(rows);
  }

  // ---------------------------------------------------------------------
  // Filtering.
  // ---------------------------------------------------------------------

  function Retain(lib: Lib, selection: SqlExpr, rows: seq<Value>): seq<Value> {
    if rows == [] then [] else
      var last := rows[|rows| - 1];
      Retain(lib, selection, rows[..|rows| - 1]) + (if Holds(EvalSql(lib, selection, last)) then [last] else [])
  }

  function Selected(lib: Lib, select: Select, rows: seq<Value>): seq<Value> {
    match select.selection
    case Some(selection) => Retain(lib, selection, rows)
    case None => rows
  }

  // ---------------------------------------------------------------------
  // Grouping.
  // ---------------------------------------------------------------------

  type Groups = IndexMap<seq<Value>>

  function KeyValues(lib: Lib, keys: seq<SqlExpr>, row: Value): Result<seq<Value>> {
    if keys == [] then Ok([]) else
      var front :- KeyValues(lib, keys[..|keys| - 1], row);
      var value :- EvalSql(lib, keys[|keys| - 1], row);
      Ok(front + [value])
  }

  function JsonTexts(lib: Lib, values: seq<Value>): (texts: seq<string>)
    ensures |texts| == |values|
  {
    seq(|values|, i requires 0 <= i < |values| => JsonText(lib, values[i]))
  }

  function GroupKey(lib: Lib, keys: seq<SqlExpr>, row: Value): Result<string> {
    var values :- KeyValues(lib, keys, row);
    Ok(Join(JsonTexts(lib, values), "|"))
  }

  type Keying = Value -> Result<string>

  function KeyedBy(lib: Lib, keys: seq<SqlExpr>): Keying {
    (row: Value) => GroupKey(lib, keys, row)
  }

  function AddToGroup(groups: Groups, key: string, row: Value): Groups {
    Insert(groups, key, OrElse(Get(groups, key), []) + [row])
  }

  function GroupRows(keying: Keying, rows: seq<Value>): Result<Groups> {
    if rows == [] then Ok([]) else
      var groups :- GroupRows(keying, rows[..|rows| - 1]);
      var key :- keying(rows[|rows| - 1]);
      Ok(AddToGroup(groups, key, rows[|rows| - 1]))
  }

  function FoldNumbers(lib: Lib, op: FloatOp, members: seq<Value>, arg: Option<SqlExpr>, init: Float): Result<Float> {
    if members == [] then Ok(init) else
      var acc :- FoldNumbers(lib, op, members[..|members| - 1], arg, init);
      var value :- if arg.Some? then EvalSql(lib, arg.value, members[|members| - 1]) else Ok(Int(1));
      var number :- ValueFloat(lib, value);
      Ok(lib.floatArith(op, acc, number))
  }

  const POSITIVE_INFINITY := Float(0x7FF0_0000_0000_0000)
  const NEGATIVE_INFINITY := Float(0xFFF0_0000_0000_0000)

  function CountValue(members: seq<Value>): Value {
    Int(if |members| < 0x8000_0000_0000_0000 then |members| else 0x7FFF_FFFF_FFFF_FFFF)
  }

  function EvalAggregate(lib: Lib, expr: SqlExpr, members: seq<Value>): Result<Value>
    requires IsAggregate(expr)
  {
    if expr.name == "count" then Ok(CountValue(members))
    else if expr.name == "sum" then
      var sum :- FoldNumbers(lib, Add, members, expr.arg, Float(0));
      Ok(FloatValue(sum))
    else if expr.name == "avg" then
      var sum :- FoldNumbers(lib, Add, members, expr.arg, Float(0));
      Ok(FloatValue(lib.floatArith(Over, sum, lib.intToFloat(if members == [] then 1 else |members|))))
    else if expr.name == "min" then
      var low :- FoldNumbers(lib, Minimum, members, expr.arg, POSITIVE_INFINITY);
      Ok(FloatValue(low))
    else
      var high :- FoldNumbers(lib, Maximum, members, expr.arg, NEGATIVE_INFINITY);
      Ok(FloatValue(high))
  }

  // Anything but an aggregate is read off the group's first row.
  function EvalGroup(lib: Lib, expr: SqlExpr, members: seq<Value>): Result<Value>
    requires members != []
  {
    if IsAggregate(expr) then EvalAggregate(lib, expr, members) else EvalSql(lib, expr, members[0])
  }

  function ProjectGroupEntries(lib: Lib, items: seq<SelectItem>, members: seq<Value>): Result<IndexMap<Value>>
    requires members != []
  {
    if items == [] then Ok([]) else
      var entries :- ProjectGroupEntries(lib, items[..|items| - 1], members);
      var item := items[|items| - 1];
      if !item.ExprItem? then UsageError("sql_select") else
        var value :- EvalGroup(lib, item.expr, members);
        Ok(Insert(entries, item.name, value))
  }

  function ProjectGroups(lib: Lib, items: seq<SelectItem>, groups: Groups): Result<seq<Value>> {
    if groups == [] then Ok([]) else
      var out :- ProjectGroups(lib, items, groups[..|groups| - 1]);
      var members := groups[|groups| - 1].value;
      if members == [] then Ok(out) else
        var entries :- ProjectGroupEntries(lib, items, members);
        Ok(out + [Object(entries)])
  }

  function GroupKeys(select: Select): seq<SqlExpr> {
    if select.groupBy.GroupExpressions? then select.groupBy.exprs else []
  }

  method CollectGroups(lib: Lib, keys: seq<SqlExpr>, rows: seq<Value>) returns (r: Result<Groups>)
    ensures r == GroupRows(KeyedBy(lib, keys), rows)
  {
    var groups: Groups := [];
    for i := 0 to |rows|
      invariant GroupRows(KeyedBy(lib, keys), rows[..i]) == Ok(groups)
    {
      assert rows[..i + 1][..i] == rows[..i];
      var key := GroupKey(lib, keys, rows[i]);
      if key.Err? {
        GroupingFails(KeyedBy(lib, keys), rows, i + 1);
        return Err(key.error);
      }
      var found := Get(groups, key.value);
      groups := Insert(groups, key.value, (if found.Some? then found.value else []) + [rows[i]]);
    }
    assert rows[..|rows|] == rows;
    return Ok(groups);
  }

  lemma {:induction false} GroupingFails(keying: Keying, rows: seq<Value>, n: nat)
    requires n <= |rows| && GroupRows(keying, rows[..n]).Err?
    ensures GroupRows(keying, rows) == GroupRows(keying, rows[..n])
    decreases |rows|
  {
    if n < |rows| {
      var front := rows[..|rows| - 1];
      assert front[..n] == rows[..n];
      GroupingFails(keying, front, n);
    } else {
      assert rows[..n] == rows;
    }
  }

  // ---------------------------------------------------------------------
  // Projection and the whole selection.
  // ---------------------------------------------------------------------

  function InsertAll(entries: IndexMap<Value>, more: IndexMap<Value>): IndexMap<Value> {
    if more == [] then entries else
      Insert(InsertAll(entries, more[..|more| - 1]), more[|more| - 1].key, more[|more| - 1].value)
  }

  function ProjectEntries(lib: Lib, items: seq<SelectItem>, row: Value): Result<IndexMap<Value>> {
    if items == [] then Ok([]) else
      var entries :- ProjectEntries(lib, items[..|items| - 1], row);
      match items[|items| - 1]
      case ExprItem(expr, name) =>
        var value :- EvalSql(lib, expr, row);
        Ok(Insert(entries, name, value))
      case Wildcard => Ok(if row.Object? then InsertAll(entries, row.fields) else entries)
      case QualifiedWildcard => UsageError("sql_select")
  }

  function ProjectRow(lib: Lib, items: seq<SelectItem>, row: Value): Result<Value> {
    if items == [Wildcard] then Ok(row) else
      var entries :- ProjectEntries(lib, items, row);
      Ok(Object(entries))
  }

  function ProjectRows(lib: Lib, items: seq<SelectItem>, rows: seq<Value>): Result<seq<Value>> {
    if rows == [] then Ok([]) else
      var front :- ProjectRows(lib, items, rows[..|rows| - 1]);
      var last :- ProjectRow(lib, items, rows[|rows| - 1]);
      Ok(front + [last])
  }

  predicate IsGrouped(select: Select) {
    match select.groupBy
    case GroupExpressions(exprs) => exprs != []
    case GroupAll => exists i :: 0 <= i < |select.projection| && select.projection[i].ExprItem? && IsAggregate(select.projection[i].expr)
  }

  function ProjectOrGroup(lib: Lib, select: Select, rows: seq<Value>): Result<seq<Value>> {
    if IsGrouped(select) then
      var groups :- GroupRows(KeyedBy(lib, GroupKeys(select)), rows);
      ProjectGroups(lib, select.projection, groups)
    else ProjectRows(lib, select.projection, rows)
  }

  // The selection over a given first table.
  function SelectOver(lib: Lib, select: Select, base: seq<Value>, tables: Tables): Result<seq<Value>> {
    var rows :- ApplyJoins(lib, base, select.joins, tables);
    ProjectOrGroup(lib, select, Selected(lib, select, rows))
  }

  function SelectRows(lib: Lib, select: Select, tables: Tables): Result<seq<Value>> {
    if select.from.None? then UsageError("sql_from") else
      var base :- TableRows(select.from.value, tables);
      SelectOver(lib, select, base, tables)
  }

  lemma {:induction false} ProjectingFails(lib: Lib, items: seq<SelectItem>, rows: seq<Value>, n: nat)
    requires n <= |rows| && ProjectRows(lib, items, rows[..n]).Err?
    ensures ProjectRows(lib, items, rows) == ProjectRows(lib, items, rows[..n])
    decreases |rows|
  {
    if n < |rows| {
      var front := rows[..|rows| - 1];
      assert front[..n] == rows[..n];
      ProjectingFails(lib, items, front, n);
    } else {
      assert rows[..n] == rows;
    }
  }

  method ExecuteSelect(lib: Lib, select: Select, tables: Tables) returns (r: Result<seq<Value>>)
    ensures r == SelectRows(lib, select, tables)
  {
    if select.from.None? {
      return UsageError("sql_from");
    }
    var base := TableRows(select.from.value, tables);
    if base.Err? {
      return base;
    }
    var rows := JoinAll(lib, base.value, select.joins, tables);
    if rows.Err? {
      return rows;
    }
    var kept := Selected(lib, select, rows.value);
    if IsGrouped(select) {
      var groups := CollectGroups(lib, GroupKeys(select), kept);
      return if groups.Ok? then ProjectGroups(lib, select.projection, groups.value) else Err(groups.error);
    }
    r := ProjectAll(lib, select.projection, kept);
  }

  method ProjectAll(lib: Lib, items: seq<SelectItem>, rows: seq<Value>) returns (r: Result<seq<Value>>)
    ensures r == ProjectRows(lib, items, rows)
  {
    var out: seq<Value> := [];
    for i := 0 to |rows|
      invariant ProjectRows(lib, items, rows[..i]) == Ok(out)
    {
      assert rows[..i + 1][..i] == rows[..i];
      var row := ProjectRow(lib, items, rows[i]);
      if row.Err? {
        ProjectingFails(lib, items, rows, i + 1);
        return Err(row.error);
      }
      out := out + [row.value];
    }
    assert rows[..|rows|] == rows;
    return Ok(out);
  }

  // ---------------------------------------------------------------------
  // Ordering, limit and the whole query.
  // ---------------------------------------------------------------------

  // A key that cannot be evaluated counts as null.
  function OrderValue(lib: Lib, expr: SqlExpr, row: Value): Value {
    match EvalSql(lib, expr, row)
    case Ok(value) => value
    case Err(_) => Null
  }

  function CompareByOrder(lib: Lib, key: OrderKey, a: Value, b: Value): Ordering {
    var ord := ValuesCmp(lib, OrderValue(lib, key.expr, a), OrderValue(lib, key.expr, b));
    if key.descending then ord.Reverse() else ord
  }

  function CompareRows(lib: Lib, keys: seq<OrderKey>, a: Value, b: Value): Ordering {
    if keys == [] then Equal
    else if CompareByOrder(lib, keys[0], a, b) != Equal then CompareByOrder(lib, keys[0], a, b)
    else CompareRows(lib, keys[1..], a, b)
  }

  function RowOrder(lib: Lib, keys: seq<OrderKey>): Comparison<Value> {
    (a: Value, b: Value) => CompareRows(lib, keys, a, b)
  }

  function SortRows(lib: Lib, order: OrderBy, rows: seq<Value>): Result<seq<Value>> {
    match order
    case OrderAll => UsageError("sql_order")
    case OrderKeys(keys) => Ok(StableSort(RowOrder(lib, keys), rows))
  }

  function Truncate(rows: seq<Value>, limit: Option<nat>): seq<Value> {
    if limit.Some? && limit.value < |rows| then rows[..limit.value] else rows
  }

  function QueryRows(lib: Lib, query: SqlQuery, tables: Tables): Result<seq<Value>> {
    if query.hasWith || query.body.None? then UsageError("sql_unsupported") else
      var rows :- SelectRows(lib, query.body.value, tables);
      var sorted :- if query.orderBy.Some? then SortRows(lib, query.orderBy.value, rows) else Ok(rows);
      Ok(Truncate(sorted, query.limit))
  }

  method ExecuteQuery(lib: Lib, query: SqlQuery, tables: Tables) returns (r: Result<seq<Value>>)
    ensures r == QueryRows(lib, query, tables)
  {
    if query.hasWith || query.body.None? {
      return UsageError("sql_unsupported");
    }
    var selected := ExecuteSelect(lib, query.body.value, tables);
    if selected.Err? {
      return selected;
    }
    var rows := selected.value;
    if query.orderBy.Some? {
      var sorted := SortRows(lib, query.orderBy.value, rows);
      if sorted.Err? {
        return sorted;
      }
      rows := sorted.value;
    }
    if query.limit.Some? && query.limit.value < |rows| {
      rows := rows[..query.limit.value];
    }
    return Ok(rows);
  }
}
