// Compiler correctness.
module Soundness {
  import opened Results
  import opened IndexMaps
  import opened Paths
  import opened Values
  import opened Schemas
  import opened Validation
  import opened Inclusion
  import opened Plans
  import opened Engine
  import opened EngineLaws
  import opened Planner
  import opened SourceLeaves
  import opened Compiled
  import Fingerprint

  // ---------------------------------------------------------------------
  // Evaluating an object expression with distinct names.
  // ---------------------------------------------------------------------

  function FieldResults(lib: Lib, record: Value, exprs: IndexMap<Expr>): (results: seq<Result<Value>>)
    ensures |results| == |exprs| && forall i :: 0 <= i < |exprs| ==> results[i] == EvalExpr(lib, record, exprs[i].value)
  {
    seq(|exprs|, i requires 0 <= i < |exprs| => EvalExpr(lib, record, exprs[i].value))
  }

  // The evaluated entries: same names, same order.
  predicate Evaluated(exprs: IndexMap<Expr>, results: seq<Result<Value>>, out: IndexMap<Value>) {
    && |out| == |exprs| == |results|
    && forall i :: 0 <= i < |exprs| ==> out[i].key == exprs[i].key && results[i] == Ok(out[i].value)
  }

  lemma EvaluatedSnoc(exprs: IndexMap<Expr>, results: seq<Result<Value>>, out: IndexMap<Value>, value: Value)
    requires exprs != [] && |results| == |exprs| && UniqueKeys(exprs)
    requires Evaluated(exprs[..|exprs| - 1], results[..|exprs| - 1], out)
    requires results[|exprs| - 1] == Ok(value)
    ensures Evaluated(exprs, results, Insert(out, exprs[|exprs| - 1].key, value))
  {
    var n := |exprs| - 1;
    assert forall i :: 0 <= i < n ==> exprs[..n][i] == exprs[i] && results[..n][i] == results[i];
    assert !HasKey(out, exprs[n].key);
    InsertFresh(out, exprs[n].key, value);
  }

  // Inserting results one by one, stopping at the first error.
  function FoldEntries(exprs: IndexMap<Expr>, results: seq<Result<Value>>): Result<IndexMap<Value>>
    requires |results| == |exprs|
  {
    if exprs == [] then Ok([]) else
      var n := |exprs| - 1;
      var entries :- FoldEntries(exprs[..n], results[..n]);
      var value :- results[n];
      Ok(Insert(entries, exprs[n].key, value))
  }

  lemma {:induction false} FieldsAreFolded(lib: Lib, record: Value, exprs: IndexMap<Expr>)
    ensures EvalFields(lib, record, exprs) == FoldEntries(exprs, FieldResults(lib, record, exprs))
    decreases |exprs|
  {
    if exprs != [] {
      var n := |exprs| - 1;
      FieldsAreFolded(lib, record, exprs[..n]);
      assert FieldResults(lib, record, exprs)[..n] == FieldResults(lib, record, exprs[..n]);
    }
  }

  lemma {:induction false} FieldsFold(exprs: IndexMap<Expr>, results: seq<Result<Value>>)
    requires UniqueKeys(exprs) && |results| == |exprs|
    ensures FoldEntries(exprs, results).Ok? <==> forall i :: 0 <= i < |results| ==> results[i].Ok?
    ensures FoldEntries(exprs, results).Ok? ==> Evaluated(exprs, results, FoldEntries(exprs, results).value)
    decreases |exprs|
  {
    if exprs != [] {
      var n := |exprs| - 1;
      FieldsFold(exprs[..n], results[..n]);
      assert (forall i :: 0 <= i < |results| ==> results[i].Ok?) <==>
             (forall i :: 0 <= i < n ==> results[..n][i].Ok?) && results[n].Ok?;
      var front := FoldEntries(exprs[..n], results[..n]);
      if front.Ok? && results[n].Ok? {
        EvaluatedSnoc(exprs, results, front.value, results[n].value);
      }
    }
  }

  // Evaluation succeeds field by field and keeps names and order.
  lemma FieldsEvaluate(lib: Lib, record: Value, exprs: IndexMap<Expr>)
    requires UniqueKeys(exprs)
    ensures EvalFields(lib, record, exprs).Ok? <==>
            forall i :: 0 <= i < |exprs| ==> FieldResults(lib, record, exprs)[i].Ok?
    ensures EvalFields(lib, record, exprs).Ok? ==>
            Evaluated(exprs, FieldResults(lib, record, exprs), EvalFields(lib, record, exprs).value)
  {
    FieldsAreFolded(lib, record, exprs);
    FieldsFold(exprs, FieldResults(lib, record, exprs));
  }

  // ---------------------------------------------------------------------
  // Joined leaves.
  // ---------------------------------------------------------------------

  // Every joined source leaf is included in the target leaf it feeds.
  ghost predicate JoinIncluded(source: seq<Field>, target: Field, expr: Expr)
    requires CompiledExpr(source, target, expr)
    decreases target
  {
    if target.ty.RecordType? then JoinsIncluded(source, target.ty.fields, expr.fields)
    else match expr
      case FieldExpr(path) => Included(LeafAt(source, path).value.ty, target.ty)
      case ListMapExpr(input, item) =>
        JoinsIncluded(LeafAt(source, input).value.ty.element.fields, target.ty.element.fields, item.fields)
  }

  ghost predicate JoinsIncluded(source: seq<Field>, targets: seq<Field>, exprs: IndexMap<Expr>)
    decreases targets
  {
    forall k, i :: 0 <= k < |targets| && 0 <= i < |exprs| && targets[k].name == exprs[i].key
                   && CompiledExpr(source, targets[k], exprs[i].value)
                   ==> JoinIncluded(source, targets[k], exprs[i].value)
  }

  // ---------------------------------------------------------------------
  // Evaluation never fails.
  // ---------------------------------------------------------------------

  ghost predicate Conforms(fields: seq<Field>, record: Value) {
    Accepts(RecordType(fields), record)
  }

  lemma PathReadAccepted(source: seq<Field>, path: FieldPath, record: Value)
    requires LeafAt(source, path).Some? && Conforms(source, record)
    ensures Accepts(LeafAt(source, path).value.ty, ReadPath(record, path))
  {
    LeafAtSegments(source, path);
    LeafReadAccepted(source, KeyNames(path.segments), LeafAt(source, path).value, record);
  }

  lemma {:induction false} ExprEvaluates(lib: Lib, source: seq<Field>, target: Field, expr: Expr, record: Value)
    requires CompiledExpr(source, target, expr) && WellNamed(target.ty)
    requires Conforms(source, record)
    ensures EvalExpr(lib, record, expr).Ok?
    decreases target
  {
    if target.ty.RecordType? {
      FieldsEvaluateOk(lib, source, target.ty.fields, expr.fields, record);
    } else if expr.ListMapExpr? {
      ListMapEvaluates(lib, source, target, expr, record);
    }
  }

  lemma {:induction false} ListMapEvaluates(lib: Lib, source: seq<Field>, target: Field, expr: Expr, record: Value)
    requires CompiledExpr(source, target, expr) && WellNamed(target.ty) && expr.ListMapExpr? && !target.ty.RecordType?
    requires Conforms(source, record)
    ensures EvalExpr(lib, record, expr).Ok?
    decreases target, 0
  {
    PathReadAccepted(source, expr.input, record);
    var value, from := ReadPath(record, expr.input), LeafAt(source, expr.input).value.ty;
    if value.Array? {
      ListAccepted(from.element, value.items);
      forall i | 0 <= i < |value.items| ensures EvalItem(lib, value.items[i], expr.item).Ok? {
        assert Accepts(from.element, value.items[i]);
        FieldsEvaluateOk(lib, from.element.fields, target.ty.element.fields, expr.item.fields, value.items[i]);
      }
      ListMapOk(lib, record, expr);
    }
  }

  lemma ListMapOk(lib: Lib, record: Value, expr: Expr)
    requires expr.ListMapExpr? && ReadPath(record, expr.input).Array?
    requires var items := ReadPath(record, expr.input).items;
             forall i :: 0 <= i < |items| ==> EvalItem(lib, items[i], expr.item).Ok?
    ensures EvalExpr(lib, record, expr).Ok?
  {
    ListMapPointwise(lib, ReadPath(record, expr.input).items, expr.item);
  }

  lemma {:induction false} FieldsEvaluateOk(lib: Lib, source: seq<Field>, targets: seq<Field>, exprs: IndexMap<Expr>, record: Value)
    requires CompiledFields(source, targets, exprs) && WellNamedFields(targets)
    requires Conforms(source, record)
    ensures EvalFields(lib, record, exprs).Ok? && EvalExpr(lib, record, ObjectExpr(exprs)).Ok?
    decreases targets
  {
    CompiledKeysUnique(source, targets, exprs);
    CompiledPositions(source, targets, exprs);
    forall i | 0 <= i < |exprs| ensures FieldResults(lib, record, exprs)[i].Ok? {
      assert Serves(source, targets, exprs[i]);
      var k :| 0 <= k < |targets| && targets[k].name == exprs[i].key && CompiledExpr(source, targets[k], exprs[i].value);
      assert WellNamed(targets[k].ty);
      ExprEvaluates(lib, source, targets[k], exprs[i].value, record);
    }
    FieldsEvaluate(lib, record, exprs);
  }

  // ---------------------------------------------------------------------
  // Inclusive joins are sufficient.
  // ---------------------------------------------------------------------

  lemma {:induction false} ExprSound(lib: Lib, source: seq<Field>, target: Field, expr: Expr, record: Value)
    requires CompiledExpr(source, target, expr) && WellNamed(target.ty)
    requires Conforms(source, record) && JoinIncluded(source, target, expr)
    ensures EvalExpr(lib, record, expr).Ok? && Accepts(target.ty, EvalExpr(lib, record, expr).value)
    decreases target
  {
    ExprEvaluates(lib, source, target, expr, record);
    if target.ty.RecordType? {
      FieldsSound(lib, source, target.ty.fields, expr.fields, record);
    } else if expr.FieldExpr? {
      PathReadAccepted(source, expr.path, record);
    } else {
      ListMapSound(lib, source, target, expr, record);
    }
  }

  lemma {:induction false} ListMapSound(lib: Lib, source: seq<Field>, target: Field, expr: Expr, record: Value)
    requires CompiledExpr(source, target, expr) && WellNamed(target.ty) && expr.ListMapExpr? && !target.ty.RecordType?
    requires Conforms(source, record) && JoinIncluded(source, target, expr)
    requires EvalExpr(lib, record, expr).Ok?
    ensures Accepts(target.ty, EvalExpr(lib, record, expr).value)
    decreases target, 0
  {
    PathReadAccepted(source, expr.input, record);
    var value, from := ReadPath(record, expr.input), LeafAt(source, expr.input).value.ty;
    if value.Array? {
      ListAccepted(from.element, value.items);
      forall i | 0 <= i < |value.items| && EvalItem(lib, value.items[i], expr.item).Ok?
        ensures Accepts(target.ty.element, EvalItem(lib, value.items[i], expr.item).value)
      {
        assert Accepts(from.element, value.items[i]);
        if !value.items[i].Null? {
          FieldsSound(lib, from.element.fields, target.ty.element.fields, expr.item.fields, value.items[i]);
        }
      }
      ListMapAccepts(lib, target.ty, expr, record);
    }
  }

  lemma ListMapAccepts(lib: Lib, ty: Type, expr: Expr, record: Value)
    requires ty.ListType? && expr.ListMapExpr? && ReadPath(record, expr.input).Array? && EvalExpr(lib, record, expr).Ok?
    requires var items := ReadPath(record, expr.input).items;
             forall i :: 0 <= i < |items| && EvalItem(lib, items[i], expr.item).Ok? ==>
               Accepts(ty.element, EvalItem(lib, items[i], expr.item).value)
    ensures Accepts(ty, EvalExpr(lib, record, expr).value)
  {
    var items := ReadPath(record, expr.input).items;
    ListMapPointwise(lib, items, expr.item);
    var out := EvalItems(lib, items, expr.item).value;
    forall i | 0 <= i < |out| ensures Accepts(ty.element, out[i]) {
      assert EvalItem(lib, items[i], expr.item) == Ok(out[i]);
    }
    ListAccepted(ty.element, out);
  }

  lemma {:induction false} FieldsSound(lib: Lib, source: seq<Field>, targets: seq<Field>, exprs: IndexMap<Expr>, record: Value)
    requires CompiledFields(source, targets, exprs) && WellNamedFields(targets)
    requires Conforms(source, record) && JoinsIncluded(source, targets, exprs)
    ensures EvalFields(lib, record, exprs).Ok? && Conforms(targets, Object(EvalFields(lib, record, exprs).value))
    decreases targets, 1
  {
    FieldsEvaluateOk(lib, source, targets, exprs, record);
    CompiledKeysUnique(source, targets, exprs);
    FieldsEvaluate(lib, record, exprs);
    var out := EvalFields(lib, record, exprs).value;
    forall k | 0 <= k < |targets| ensures FieldAccepts(targets[k], out) {
      TargetSound(lib, source, targets, exprs, record, out, k);
    }
    EntriesConform(targets, out);
  }

  lemma {:induction false} TargetSound(lib: Lib, source: seq<Field>, targets: seq<Field>, exprs: IndexMap<Expr>, record: Value, out: IndexMap<Value>, k: nat)
    requires CompiledFields(source, targets, exprs) && WellNamedFields(targets) && k < |targets|
    requires Conforms(source, record) && JoinsIncluded(source, targets, exprs)
    requires Evaluated(exprs, FieldResults(lib, record, exprs), out)
    ensures FieldAccepts(targets[k], out)
    decreases targets, 0
  {
    CompiledPositions(source, targets, exprs);
    if HasKey(exprs, targets[k].name) {
      EvaluatedKeys(exprs, FieldResults(lib, record, exprs), out, targets[k].name);
    }
    if HasKey(out, targets[k].name) {
      var i := EntryOf(source, targets, exprs, out, k);
      assert WellNamed(targets[k].ty);
      ExprSound(lib, source, targets[k], exprs[i].value, record);
      assert FieldResults(lib, record, exprs)[i] == Ok(out[i].value);
    }
  }

  lemma EvaluatedKeys(exprs: IndexMap<Expr>, results: seq<Result<Value>>, out: IndexMap<Value>, name: string)
    requires Evaluated(exprs, results, out) && HasKey(exprs, name)
    ensures HasKey(out, name)
  {
    var i :| 0 <= i < |exprs| && exprs[i].key == name;
    assert out[i].key == name;
  }

  lemma EntriesConform(targets: seq<Field>, out: IndexMap<Value>)
    requires forall k :: 0 <= k < |targets| ==> FieldAccepts(targets[k], out)
    ensures Conforms(targets, Object(out))
  {
    ObjectAccepted(targets, out);
  }

  // The output entry of a present target is the value of its own expression.
  lemma EntryOf(source: seq<Field>, targets: seq<Field>, exprs: IndexMap<Expr>, out: IndexMap<Value>, k: nat) returns (i: nat)
    requires CompiledFields(source, targets, exprs) && UniqueNames(targets) && k < |targets|
    requires |out| == |exprs| && forall j :: 0 <= j < |exprs| ==> out[j].key == exprs[j].key
    requires HasKey(out, targets[k].name)
    ensures i < |exprs| && exprs[i].key == targets[k].name && CompiledExpr(source, targets[k], exprs[i].value)
    ensures Get(out, targets[k].name) == Some(out[i].value)
  {
    CompiledKeysUnique(source, targets, exprs);
    CompiledPositions(source, targets, exprs);
    i :| 0 <= i < |out| && out[i].key == targets[k].name;
    assert Serves(source, targets, exprs[i]);
    GetAt(out, i);
  }

  // ---------------------------------------------------------------------
  // Inclusive joins are necessary.
  // ---------------------------------------------------------------------

  // A record that conforms to the source but whose image is refused.
  ghost predicate Refutes(lib: Lib, source: seq<Field>, targets: seq<Field>, exprs: IndexMap<Expr>, record: Value) {
    && record.Object? && Conforms(source, record)
    && EvalFields(lib, record, exprs).Ok?
    && !Conforms(targets, Object(EvalFields(lib, record, exprs).value))
  }

  lemma PlantAt(source: seq<Field>, path: FieldPath, value: Value) returns (record: Value)
    requires WellNamedFields(source) && LeafAt(source, path).Some?
    requires Accepts(LeafAt(source, path).value.ty, value)
    ensures record.Object? && Conforms(source, record) && ReadPath(record, path) == value
  {
    var names := KeyNames(path.segments);
    LeafAtSegments(source, path);
    PlantAccepted(source, names, LeafAt(source, path).value, value);
    PlantReads(source, names, LeafAt(source, path).value, value);
    record := Object(PlantEntries(source, names, value));
  }

  // A record whose value for one target field is refused by its type.
  ghost predicate RefutesExpr(lib: Lib, source: seq<Field>, target: Field, expr: Expr, record: Value) {
    && record.Object? && Conforms(source, record)
    && EvalExpr(lib, record, expr).Ok?
    && !Accepts(target.ty, EvalExpr(lib, record, expr).value)
  }

  lemma {:induction false} ExprRefuted(lib: Lib, source: seq<Field>, target: Field, expr: Expr) returns (record: Value)
    requires CompiledExpr(source, target, expr) && WellNamed(target.ty) && WellNamedFields(source)
    requires !JoinIncluded(source, target, expr)
    ensures RefutesExpr(lib, source, target, expr, record)
    decreases target, 1
  {
    if target.ty.RecordType? {
      record := FieldsRefuted(lib, source, target.ty.fields, expr.fields);
    } else if expr.FieldExpr? {
      record := LeafRefuted(lib, source, target, expr);
    } else {
      record := ListRefuted(lib, source, target, expr);
    }
  }

  lemma LeafRefuted(lib: Lib, source: seq<Field>, target: Field, expr: Expr) returns (record: Value)
    requires CompiledExpr(source, target, expr) && WellNamedFields(source) && !target.ty.RecordType? && expr.FieldExpr?
    requires !JoinIncluded(source, target, expr)
    ensures RefutesExpr(lib, source, target, expr, record)
  {
    var from := LeafAt(source, expr.path).value.ty;
    var value :| Accepts(from, value) && !Accepts(target.ty, value);
    record := PlantAt(source, expr.path, value);
  }

  lemma {:induction false} ListRefuted(lib: Lib, source: seq<Field>, target: Field, expr: Expr) returns (record: Value)
    requires CompiledExpr(source, target, expr) && WellNamed(target.ty) && WellNamedFields(source)
    requires !target.ty.RecordType? && expr.ListMapExpr?
    requires !JoinIncluded(source, target, expr)
    ensures RefutesExpr(lib, source, target, expr, record)
    decreases target, 0
  {
    var from := LeafAt(source, expr.input).value.ty;
    LeafWellNamed(source, KeyNames(expr.input.segments));
    var item := FieldsRefuted(lib, from.element.fields, target.ty.element.fields, expr.item.fields);
    record := PlantList(lib, source, target, expr, item);
  }

  lemma PlantList(lib: Lib, source: seq<Field>, target: Field, expr: Expr, item: Value) returns (record: Value)
    requires CompiledExpr(source, target, expr) && WellNamedFields(source) && !target.ty.RecordType? && expr.ListMapExpr?
    requires Refutes(lib, LeafAt(source, expr.input).value.ty.element.fields, target.ty.element.fields, expr.item.fields, item)
    ensures RefutesExpr(lib, source, target, expr, record)
  {
    var from := LeafAt(source, expr.input).value.ty;
    SingletonAccepted(from, item);
    record := PlantAt(source, expr.input, Array([item]));
    RefutesItem(lib, from.element.fields, target.ty.element, expr.item, item);
    ListMapRefuted(lib, target.ty, expr, record, item);
  }

  lemma SingletonAccepted(ty: Type, item: Value)
    requires ty.ListType? && ty.element.RecordType? && Conforms(ty.element.fields, item)
    ensures Accepts(ty, Array([item]))
  {
    ListAccepted(ty.element, [item]);
  }

  lemma RefutesItem(lib: Lib, source: seq<Field>, ty: Type, expr: Expr, item: Value)
    requires ty.RecordType? && expr.ObjectExpr? && Refutes(lib, source, ty.fields, expr.fields, item)
    ensures !item.Null? && EvalExpr(lib, item, expr).Ok? && !Accepts(ty, EvalExpr(lib, item, expr).value)
  {
  }

  lemma ListMapRefuted(lib: Lib, ty: Type, expr: Expr, record: Value, item: Value)
    requires ty.ListType? && expr.ListMapExpr? && ReadPath(record, expr.input) == Array([item])
    requires !item.Null? && EvalExpr(lib, item, expr.item).Ok? && !Accepts(ty.element, EvalExpr(lib, item, expr.item).value)
    ensures EvalExpr(lib, record, expr).Ok? && !Accepts(ty, EvalExpr(lib, record, expr).value)
  {
    RefutedList(lib, ty.element, expr.item, item);
  }

  lemma RefutedList(lib: Lib, element: Type, expr: Expr, item: Value)
    requires !item.Null? && EvalExpr(lib, item, expr).Ok? && !Accepts(element, EvalExpr(lib, item, expr).value)
    ensures EvalItems(lib, [item], expr).Ok? && ValidateList(element, EvalItems(lib, [item], expr).value).Err?
  {
    ListMapPointwise(lib, [item], expr);
    assert [item][0] == item;
    assert EvalItem(lib, [item][0], expr).Ok?;
    var out := EvalItems(lib, [item], expr).value;
    ListAccepted(element, out);
    assert !Accepts(element, out[0]);
  }

  lemma {:induction false} FieldsRefuted(lib: Lib, source: seq<Field>, targets: seq<Field>, exprs: IndexMap<Expr>) returns (record: Value)
    requires CompiledFields(source, targets, exprs) && WellNamedFields(targets) && WellNamedFields(source)
    requires !JoinsIncluded(source, targets, exprs)
    ensures Refutes(lib, source, targets, exprs, record)
    decreases targets
  {
    var k, i :| 0 <= k < |targets| && 0 <= i < |exprs| && targets[k].name == exprs[i].key
                && CompiledExpr(source, targets[k], exprs[i].value) && !JoinIncluded(source, targets[k], exprs[i].value);
    assert WellNamed(targets[k].ty);
    record := ExprRefuted(lib, source, targets[k], exprs[i].value);
    RefutedField(lib, source, targets, exprs, record, k, i);
  }

  lemma RefutedField(lib: Lib, source: seq<Field>, targets: seq<Field>, exprs: IndexMap<Expr>, record: Value, k: nat, i: nat)
    requires CompiledFields(source, targets, exprs) && WellNamedFields(targets)
    requires k < |targets| && i < |exprs| && targets[k].name == exprs[i].key
    requires RefutesExpr(lib, source, targets[k], exprs[i].value, record)
    ensures Refutes(lib, source, targets, exprs, record)
  {
    FieldsEvaluateOk(lib, source, targets, exprs, record);
    CompiledKeysUnique(source, targets, exprs);
    FieldsEvaluate(lib, record, exprs);
    var out := EvalFields(lib, record, exprs).value;
    assert FieldResults(lib, record, exprs)[i] == Ok(out[i].value);
    RefusedEntry(targets, out, k, i);
  }

  lemma RefusedEntry(targets: seq<Field>, out: IndexMap<Value>, k: nat, i: nat)
    requires k < |targets| && i < |out| && UniqueKeys(out) && out[i].key == targets[k].name
    requires !Accepts(targets[k].ty, out[i].value)
    ensures !Conforms(targets, Object(out))
  {
    GetAt(out, i);
    assert !FieldAccepts(targets[k], out);
    ObjectAccepted(targets, out);
  }

  // ---------------------------------------------------------------------
  // Plans.
  // ---------------------------------------------------------------------

  ghost predicate AllConform(fields: seq<Field>, records: seq<Value>) {
    forall i :: 0 <= i < |records| ==> Conforms(fields, records[i])
  }

  ghost predicate ReadyPlan(source: seq<Field>, targets: seq<Field>, options: Options, plan: Plan) {
    && WellNamedFields(source) && WellNamedFields(targets)
    && PlanSchemas(RecordType(source), RecordType(targets), options).Ok?
    && PlanSchemas(RecordType(source), RecordType(targets), options).value.Ready?
    && PlanSchemas(RecordType(source), RecordType(targets), options).value.plan == plan
  }

  // The fields of the one map operation of a ready plan.
  function PlanFields(plan: Plan): IndexMap<Expr> {
    if |plan.operations| == 1 && plan.operations[0].MapOp? then plan.operations[0].fields else []
  }

  lemma {:induction false} ExprValidates(source: seq<Field>, target: Field, expr: Expr)
    requires CompiledExpr(source, target, expr)
    ensures ValidateExpr(expr).Ok?
    decreases target
  {
    if target.ty.RecordType? {
      FieldsValidate(source, target.ty.fields, expr.fields);
    } else if expr.ListMapExpr? {
      FieldsValidate(LeafAt(source, expr.input).value.ty.element.fields, target.ty.element.fields, expr.item.fields);
    }
  }

  lemma {:induction false} ValidateEach(exprs: IndexMap<Expr>)
    requires forall i :: 0 <= i < |exprs| ==> ValidateExpr(exprs[i].value).Ok?
    ensures ValidateFieldExprs(exprs).Ok?
  {
    if exprs != [] {
      ValidateEach(exprs[1..]);
    }
  }

  lemma {:induction false} FieldsValidate(source: seq<Field>, targets: seq<Field>, exprs: IndexMap<Expr>)
    requires CompiledFields(source, targets, exprs)
    ensures ValidateFieldExprs(exprs).Ok?
    decreases targets
  {
    CompiledPositions(source, targets, exprs);
    forall i | 0 <= i < |exprs| ensures ValidateExpr(exprs[i].value).Ok? {
      assert Serves(source, targets, exprs[i]);
      var k :| 0 <= k < |targets| && targets[k].name == exprs[i].key && CompiledExpr(source, targets[k], exprs[i].value);
      ExprValidates(source, targets[k], exprs[i].value);
    }
    ValidateEach(exprs);
  }

  lemma ReadyPlanValid(source: seq<Field>, targets: seq<Field>, options: Options, plan: Plan)
    requires ReadyPlan(source, targets, options, plan)
    ensures ValidateShape(plan).Ok?
    ensures plan.operations == [MapOp(PlanFields(plan))] && CompiledFields(source, targets, PlanFields(plan))
  {
    PlanCompiles(source, targets, options);
    FieldsValidate(source, targets, PlanFields(plan));
    assert plan.operations == [MapOp(PlanFields(plan))];
    assert plan.operations[1..] == [];
    assert ValidateOps(plan.operations[1..]).Ok?;
  }

  lemma ReadyContracts(source: seq<Field>, targets: seq<Field>, options: Options, plan: Plan)
    requires ReadyPlan(source, targets, options, plan)
    ensures plan.inputContract == Some(options.fingerprint(RecordType(source)))
    ensures plan.outputContract == Some(options.fingerprint(RecordType(targets)))
  {
  }

  // Two ready plans carry the same contracts exactly when they were planned
  // for the same pair of schemas, up to metadata.
  lemma ContractsIdentifySchemas(source: seq<Field>, targets: seq<Field>, plan: Plan, source2: seq<Field>, targets2: seq<Field>, plan2: Plan, options: Options)
    requires ReadyPlan(source, targets, options, plan) && ReadyPlan(source2, targets2, options, plan2)
    requires Fingerprint.DigestOfText(options.fingerprint)
    ensures plan.inputContract == plan2.inputContract && plan.outputContract == plan2.outputContract <==>
            && Fingerprint.Erase(RecordType(source)) == Fingerprint.Erase(RecordType(source2))
            && Fingerprint.Erase(RecordType(targets)) == Fingerprint.Erase(RecordType(targets2))
  {
    ReadyContracts(source, targets, options, plan);
    ReadyContracts(source2, targets2, options, plan2);
    Fingerprint.FingerprintsIdentify(options.fingerprint, RecordType(source), RecordType(source2));
    Fingerprint.FingerprintsIdentify(options.fingerprint, RecordType(targets), RecordType(targets2));
  }

  // One output record.
  function ImageOf(lib: Lib, plan: Plan, record: Value): Result<Value> {
    EvalExpr(lib, record, ObjectExpr(PlanFields(plan)))
  }

  lemma {:induction false} AllStepsSurvive(steps: seq<Step>, policy: ErrorPolicy)
    requires forall i :: 0 <= i < |steps| ==> steps[i].Ok? && |steps[i].value| == 1
    ensures FoldSteps(steps, policy).Ok? && FoldSteps(steps, policy).value.rejects == []
    ensures var out := FoldSteps(steps, policy).value.records;
            |out| == |steps| && forall i :: 0 <= i < |steps| ==> steps[i].value == [out[i]]
  {
    if steps != [] {
      AllStepsSurvive(steps[..|steps| - 1], policy);
    }
  }

  // A run without rejects that maps each record to its own image, in order.
  ghost predicate RunsTo(lib: Lib, plan: Plan, policy: ErrorPolicy, records: seq<Value>, out: seq<Value>) {
    && Execute(lib, WithPolicy(plan, policy), records) == Ok(Outcome(out, []))
    && |out| == |records|
    && forall i :: 0 <= i < |records| ==> ImageOf(lib, plan, records[i]) == Ok(out[i])
  }

  lemma RunOpsOne(lib: Lib, op: Operation, policy: ErrorPolicy, records: seq<Value>, out: seq<Value>)
    requires ApplyOp(lib, op, records, policy) == Ok(Outcome(out, []))
    ensures RunOps(lib, [op], records, policy) == Ok(Outcome(out, []))
  {
    var ops := [op];
    assert ops[..|ops| - 1] == [];
    var start := RunOps(lib, ops[..|ops| - 1], records, policy);
    assert start == Ok(Outcome(records, []));
    assert start.value.rejects + [] == [];
    assert RunOps(lib, ops, records, policy) == Ok(Outcome(out, start.value.rejects + []));
  }

  lemma MapSteps(lib: Lib, op: Operation, records: seq<Value>, images: seq<Value>)
    requires op.MapOp? && |images| == |records|
    requires forall i :: 0 <= i < |records| ==> EvalExpr(lib, records[i], ObjectExpr(op.fields)) == Ok(images[i])
    ensures forall i :: 0 <= i < |records| ==> StepsOf(lib, op, records)[i] == Ok([images[i]])
  {
    forall i | 0 <= i < |records| ensures StepsOf(lib, op, records)[i] == Ok([images[i]]) {
      MapStep(lib, op, records[i], images[i]);
    }
  }

  lemma MapStep(lib: Lib, op: Operation, record: Value, image: Value)
    requires op.MapOp? && EvalExpr(lib, record, ObjectExpr(op.fields)) == Ok(image)
    ensures RecordStep(lib, op, record) == Ok([image])
  {
    assert ApplyRecord(lib, op, record) == EvalExpr(lib, record, ObjectExpr(op.fields));
  }

  // Whatever the joined types, a ready plan is valid, runs without an error
  // or a reject under every policy, and maps each conforming record to its
  // own image, in order.
  lemma ReadyPlanRuns(lib: Lib, source: seq<Field>, targets: seq<Field>, options: Options, plan: Plan, policy: ErrorPolicy, records: seq<Value>)
    returns (out: seq<Value>)
    requires ReadyPlan(source, targets, options, plan) && AllConform(source, records)
    ensures ValidateShape(plan).Ok? && RunsTo(lib, plan, policy, records, out)
  {
    ReadyPlanValid(source, targets, options, plan);
    forall i | 0 <= i < |records| ensures ImageOf(lib, plan, records[i]).Ok? {
      assert Conforms(source, records[i]);
      FieldsEvaluateOk(lib, source, targets, PlanFields(plan), records[i]);
    }
    out := seq(|records|, i requires 0 <= i < |records| => ImageOf(lib, plan, records[i]).value);
    MapRuns(lib, plan, policy, records, out);
  }

  lemma MapRuns(lib: Lib, plan: Plan, policy: ErrorPolicy, records: seq<Value>, out: seq<Value>)
    requires plan.operations == [MapOp(PlanFields(plan))] && ValidateShape(plan).Ok?
    requires |out| == |records| && forall i :: 0 <= i < |records| ==> ImageOf(lib, plan, records[i]) == Ok(out[i])
    ensures RunsTo(lib, plan, policy, records, out)
  {
    var op := MapOp(PlanFields(plan));
    var steps := StepsOf(lib, op, records);
    MapSteps(lib, op, records, out);
    AllStepsSurvive(steps, policy);
    var folded := FoldSteps(steps, policy).value;
    forall i | 0 <= i < |out| ensures folded.records[i] == out[i] {
      assert steps[i].value == [folded.records[i]];
      assert [folded.records[i]][0] == [out[i]][0];
    }
    assert folded.records == out;
    assert folded == Outcome(out, []);
    RunOpsOne(lib, op, policy, records, out);
    assert ValidateShape(WithPolicy(plan, policy)) == ValidateShape(plan);
  }

  // A plan meets its target on every batch of conforming records.
  ghost predicate MeetsTarget(lib: Lib, source: seq<Field>, targets: seq<Field>, plan: Plan) {
    forall records, policy :: AllConform(source, records) ==> OutputConforms(lib, targets, plan, policy, records)
  }

  ghost predicate OutputConforms(lib: Lib, targets: seq<Field>, plan: Plan, policy: ErrorPolicy, records: seq<Value>) {
    var outcome := Execute(lib, WithPolicy(plan, policy), records);
    outcome.Ok? && AllConform(targets, outcome.value.records)
  }

  lemma ImageConforms(lib: Lib, source: seq<Field>, targets: seq<Field>, plan: Plan, record: Value, image: Value)
    requires CompiledFields(source, targets, PlanFields(plan)) && WellNamedFields(targets)
    requires JoinsIncluded(source, targets, PlanFields(plan)) && Conforms(source, record)
    requires ImageOf(lib, plan, record) == Ok(image)
    ensures Conforms(targets, image)
  {
    FieldsSound(lib, source, targets, PlanFields(plan), record);
  }

  lemma RunConforms(lib: Lib, source: seq<Field>, targets: seq<Field>, plan: Plan, policy: ErrorPolicy, records: seq<Value>, out: seq<Value>)
    requires CompiledFields(source, targets, PlanFields(plan)) && WellNamedFields(targets)
    requires JoinsIncluded(source, targets, PlanFields(plan)) && AllConform(source, records)
    requires RunsTo(lib, plan, policy, records, out)
    ensures OutputConforms(lib, targets, plan, policy, records)
  {
    forall i | 0 <= i < |out| ensures Conforms(targets, out[i]) {
      assert Conforms(source, records[i]);
      assert ImageOf(lib, plan, records[i]) == Ok(out[i]);
      ImageConforms(lib, source, targets, plan, records[i], out[i]);
    }
  }

  lemma RunRefuted(lib: Lib, source: seq<Field>, targets: seq<Field>, plan: Plan, record: Value, out: seq<Value>)
    requires Refutes(lib, source, targets, PlanFields(plan), record)
    requires RunsTo(lib, plan, Fail, [record], out)
    ensures !OutputConforms(lib, targets, plan, Fail, [record])
  {
    assert ImageOf(lib, plan, [record][0]) == Ok(out[0]);
    assert !Conforms(targets, out[0]);
  }

  // A ready plan turns conforming records into conforming records if and only
  // if every joined source leaf type is included in its target leaf type.
  lemma CompilerCorrect(lib: Lib, source: seq<Field>, targets: seq<Field>, options: Options, plan: Plan)
    requires ReadyPlan(source, targets, options, plan)
    ensures CompiledFields(source, targets, PlanFields(plan))
    ensures MeetsTarget(lib, source, targets, plan) <==> JoinsIncluded(source, targets, PlanFields(plan))
  {
    ReadyPlanValid(source, targets, options, plan);
    if JoinsIncluded(source, targets, PlanFields(plan)) {
      forall records, policy | AllConform(source, records) ensures OutputConforms(lib, targets, plan, policy, records) {
        var out := ReadyPlanRuns(lib, source, targets, options, plan, policy, records);
        RunConforms(lib, source, targets, plan, policy, records, out);
      }
    } else {
      var record := FieldsRefuted(lib, source, targets, PlanFields(plan));
      assert AllConform(source, [record]);
      var out := ReadyPlanRuns(lib, source, targets, options, plan, Fail, [record]);
      RunRefuted(lib, source, targets, plan, record, out);
    }
  }

  // ---------------------------------------------------------------------
  // The condition, decided.
  // ---------------------------------------------------------------------

  // Every joined source leaf may be copied to its target leaf without a cast.
  predicate JoinSafe(source: seq<Field>, target: Field, expr: Expr)
    requires CompiledExpr(source, target, expr)
    decreases target
  {
    if target.ty.RecordType? then JoinsSafe(source, target.ty.fields, expr.fields)
    else match expr
      case FieldExpr(path) => SafeToCopy(LeafAt(source, path).value.ty, target.ty)
      case ListMapExpr(input, item) =>
        JoinsSafe(LeafAt(source, input).value.ty.element.fields, target.ty.element.fields, item.fields)
  }

  predicate JoinsSafe(source: seq<Field>, targets: seq<Field>, exprs: IndexMap<Expr>)
    decreases targets
  {
    forall k, i :: 0 <= k < |targets| && 0 <= i < |exprs| && targets[k].name == exprs[i].key
                   && CompiledExpr(source, targets[k], exprs[i].value)
                   ==> JoinSafe(source, targets[k], exprs[i].value)
  }

  lemma {:induction false} LeafIsNoRecord(fields: seq<Field>, names: seq<string>)
    requires LeafField(fields, names).Some?
    ensures !LeafField(fields, names).value.ty.RecordType?
    decreases |names|
  {
    if |names| > 1 {
      LeafIsNoRecord(FindField(fields, names[0]).value.ty.fields, names[1..]);
    }
  }

  lemma {:induction false} JoinDecided(source: seq<Field>, target: Field, expr: Expr)
    requires CompiledExpr(source, target, expr)
    ensures JoinIncluded(source, target, expr) <==> JoinSafe(source, target, expr)
    decreases target
  {
    if target.ty.RecordType? {
      JoinsDecided(source, target.ty.fields, expr.fields);
    } else if expr.FieldExpr? {
      LeafIsNoRecord(source, KeyNames(expr.path.segments));
      JoinableInclusion(LeafAt(source, expr.path).value.ty, target.ty);
    } else {
      JoinsDecided(LeafAt(source, expr.input).value.ty.element.fields, target.ty.element.fields, expr.item.fields);
    }
  }

  lemma {:induction false} JoinsDecided(source: seq<Field>, targets: seq<Field>, exprs: IndexMap<Expr>)
    ensures JoinsIncluded(source, targets, exprs) <==> JoinsSafe(source, targets, exprs)
    decreases targets
  {
    forall k, i | 0 <= k < |targets| && 0 <= i < |exprs| && targets[k].name == exprs[i].key
                  && CompiledExpr(source, targets[k], exprs[i].value)
      ensures JoinIncluded(source, targets[k], exprs[i].value) <==> JoinSafe(source, targets[k], exprs[i].value)
    {
      JoinDecided(source, targets[k], exprs[i].value);
    }
  }

  // Whether a ready plan always meets its target can be read off its joins.
  lemma CompilerDecided(lib: Lib, source: seq<Field>, targets: seq<Field>, options: Options, plan: Plan)
    requires ReadyPlan(source, targets, options, plan)
    ensures MeetsTarget(lib, source, targets, plan) <==> JoinsSafe(source, targets, PlanFields(plan))
  {
    CompilerCorrect(lib, source, targets, options, plan);
    JoinsDecided(source, targets, PlanFields(plan));
  }
}
