// The document VM: expressions and operations.
module Engine {
  import opened Results
  import opened Orders
  import opened Text
  import opened IndexMaps
  import opened Paths
  import opened Decimals
  import opened Schemas
  import opened Values
  import opened Serialization
  import opened Plans

  datatype Reject = Reject(index: nat, code: string)

  datatype Outcome = Outcome(records: seq<Value>, rejects: seq<Reject>)

  // ---------------------------------------------------------------------
  // Expressions.
  // ---------------------------------------------------------------------

  // Every miss reads as null.
  function ReadSegments(current: Value, segments: seq<Segment>): Value
    decreases |segments|
  {
    if segments == [] then current
    else match segments[0]
      case Key(name) =>
        if !current.Object? then Null
        else (match Get(current.fields, name)
              case Some(value) => ReadSegments(value, segments[1..])
              case None => ReadSegments(Null, segments[1..]))
      case At(index) =>
        if !current.Array? then Null
        else if index < |current.items| then ReadSegments(current.items[index], segments[1..])
        else ReadSegments(Null, segments[1..])
  }

  function ReadPath(record: Value, path: FieldPath): Value {
    ReadSegments(record, path.segments)
  }

  // The same walk, one segment at a time.
  method ReadPathLoop(record: Value, path: FieldPath) returns (r: Value)
    ensures r == ReadPath(record, path)
  {
    var current := record;
    for i := 0 to |path.segments|
      invariant ReadSegments(record, path.segments) == ReadSegments(current, path.segments[i..])
    {
      var segment := path.segments[i];
      assert path.segments[i..][1..] == path.segments[i + 1..];
      if segment.Key? && current.Object? {
        var found := Get(current.fields, segment.name);
        current := if found.Some? then found.value else Null;
      } else if segment.At? && current.Array? {
        current := if segment.index < |current.items| then current.items[segment.index] else Null;
      } else {
        return Null;
      }
    }
    return current;
  }

  function StringifyValue(lib: Lib, value: Value): string {
    match value
    case String(text) => text
    case Decimal(d) => RenderDecimal(d)
    case Int(v) => IntText(v)
    case UInt(v) => IntText(v)
    case FloatValue(f) => lib.floatText(f)
    case Bool(b) => if b then "true" else "false"
    case _ => JsonText(lib, value)
  }

  // An optional sign and decimal digits within the 64-bit signed range.
  function ParseInt64(text: string): Option<Int64> {
    var signed := StartsWith(text, '-') || StartsWith(text, '+');
    var digits := if signed then text[1..] else text;
    if digits == "" || !AllDigits(digits) then None else
      var magnitude: int := DigitsValue(digits);
      var v: int := if StartsWith(text, '-') then 0 - magnitude else magnitude;
      if -0x8000_0000_0000_0000 <= v < 0x8000_0000_0000_0000 then Some(v) else None
  }

  function ParseIntCast(text: string, policy: CastPolicy): Result<Value> {
    if policy == StrictCast && StartsWith(text, '0') && |text| > 1 then TransformError("leading_zero")
    else match ParseInt64(text)
      case Some(v) => Ok(Int(v))
      case None => TransformError("cast_failed")
  }

  function CastFloat(lib: Lib, value: Value, policy: CastPolicy): Result<Value> {
    match value
    case FloatValue(_) => Ok(value)
    case Int(v) => Ok(FloatValue(lib.intToFloat(v)))
    case Decimal(d) =>
      if policy != LossyCast then PlanError("lossy_cast_required")
      else (match lib.parseFloat(RenderDecimal(d))
            case Some(f) => Ok(FloatValue(f))
            case None => Ok(FloatValue(Float(0x7FF8_0000_0000_0000))))
    case String(text) =>
      if policy == StrictCast then TransformError("lossy_cast_required")
      else (match lib.parseFloat(text)
            case Some(f) => Ok(FloatValue(f))
            case None => if policy == LossyCast then TransformError("cast_failed") else Ok(Null))
    case _ => if policy == TryCast then Ok(Null) else TransformError("cast_failed")
  }

  function CastValue(lib: Lib, value: Value, target: string, policy: CastPolicy): Result<Value> {
    if value.Null? then Ok(Null) else
      var ty :- ParseTargetName(target);
      if ty.StringType? then Ok(String(StringifyValue(lib, value)))
      else if ty.IntType? && value.Int? then Ok(value)
      else if ty.IntType? && value.String? then ParseIntCast(value.text, policy)
      else if ty.FloatType? then CastFloat(lib, value, policy)
      else if ty.DecimalType? && value.Decimal? then Ok(value)
      else if ty.DecimalType? && value.String? then
        match ParseDecimal(value.text)
        case Some(d) => Ok(Decimal(d))
        case None => TransformError("cast_failed")
      else if ty.BoolType? && value.Bool? then Ok(value)
      else if policy == TryCast then Ok(Null)
      else TransformError("cast_failed")
  }

  function EvalExpr(lib: Lib, record: Value, expr: Expr): Result<Value>
    decreases expr, 0
  {
    match expr
    case FieldExpr(path) => Ok(ReadPath(record, path))
    case LiteralExpr(value) => Ok(value)
    case CastExpr(inner, target, policy) =>
      var value :- EvalExpr(lib, record, inner);
      CastValue(lib, value, target, policy)
    case CoalesceExpr(items) => EvalCoalesce(lib, record, items)
    case CallExpr(callee, args) =>
      var values :- EvalArgs(lib, record, args);
      lib.call(callee, values)
    case ObjectExpr(fields) =>
      var entries :- EvalFields(lib, record, fields);
      Ok(Object(entries))
    case ListMapExpr(input, item) =>
      (match ReadPath(record, input)
       case Null => Ok(Null)
       case Array(items) =>
         var out :- EvalItems(lib, items, item);
         Ok(Array(out))
       case _ => TransformError("list_map_type"))
  }

  // First non-null value; later expressions are not evaluated.
  function EvalCoalesce(lib: Lib, record: Value, items: seq<Expr>): Result<Value>
    decreases items, 0
  {
    if items == [] then Ok(Null) else
      var value :- EvalExpr(lib, record, items[0]);
      if value.Null? then EvalCoalesce(lib, record, items[1..]) else Ok(value)
  }

  function EvalArgs(lib: Lib, record: Value, args: seq<Expr>): Result<seq<Value>>
    decreases args, 0
  {
    if args == [] then Ok([]) else
      var value :- EvalExpr(lib, record, args[0]);
      var rest :- EvalArgs(lib, record, args[1..]);
      Ok([value] + rest)
  }

  // Fields are evaluated in order and inserted one by one.
  function EvalFields(lib: Lib, record: Value, fields: IndexMap<Expr>): Result<IndexMap<Value>>
    decreases fields, 0
  {
    if fields == [] then Ok([]) else
      var last := fields[|fields| - 1];
      var entries :- EvalFields(lib, record, fields[..|fields| - 1]);
      var value :- EvalExpr(lib, record, last.value);
      Ok(Insert(entries, last.key, value))
  }

  function EvalItem(lib: Lib, item: Value, expr: Expr): Result<Value>
    decreases expr, 1
  {
    if item.Null? then Ok(Null) else EvalExpr(lib, item, expr)
  }

  function EvalItems(lib: Lib, items: seq<Value>, expr: Expr): Result<seq<Value>>
    decreases expr, 2 + |items|
  {
    if items == [] then Ok([]) else
      var value :- EvalItem(lib, items[0], expr);
      var rest :- EvalItems(lib, items[1..], expr);
      Ok([value] + rest)
  }

  // A list map keeps length, order and the positions of nulls.
  lemma {:induction false} ListMapPointwise(lib: Lib, items: seq<Value>, expr: Expr)
    ensures EvalItems(lib, items, expr).Ok? <==> forall i :: 0 <= i < |items| ==> EvalItem(lib, items[i], expr).Ok?
    ensures EvalItems(lib, items, expr).Ok? ==>
              var out := EvalItems(lib, items, expr).value;
              && |out| == |items|
              && (forall i :: 0 <= i < |items| ==> EvalItem(lib, items[i], expr) == Ok(out[i]))
              && (forall i :: 0 <= i < |items| && items[i].Null? ==> out[i].Null?)
  {
    if items != [] {
      var rest := items[1..];
      ListMapPointwise(lib, rest, expr);
      assert forall i :: 0 <= i < |rest| ==> rest[i] == items[i + 1];
      if forall i :: 0 <= i < |items| ==> EvalItem(lib, items[i], expr).Ok? {
        assert EvalItem(lib, items[0], expr).Ok?;
        forall i | 0 <= i < |rest| ensures EvalItem(lib, rest[i], expr).Ok? {
          assert EvalItem(lib, items[i + 1], expr).Ok?;
        }
      }
      if EvalItem(lib, items[0], expr).Ok? && EvalItems(lib, rest, expr).Ok? {
        forall i | 0 <= i < |items| ensures EvalItem(lib, items[i], expr).Ok? {
          if i > 0 { assert EvalItem(lib, rest[i - 1], expr).Ok?; }
        }
        var out, tail := EvalItems(lib, items, expr).value, EvalItems(lib, rest, expr).value;
        forall i | 0 <= i < |items| ensures EvalItem(lib, items[i], expr) == Ok(out[i]) {
          if i > 0 { assert EvalItem(lib, rest[i - 1], expr) == Ok(tail[i - 1]); }
        }
      }
    }
  }

  // ---------------------------------------------------------------------
  // Record operations.
  // ---------------------------------------------------------------------

  function ProjectFields(record: Value, paths: seq<FieldPath>): Result<IndexMap<Value>> {
    if paths == [] then Ok([]) else
      var last := paths[|paths| - 1];
      var entries :- ProjectFields(record, paths[..|paths| - 1]);
      match last.SimpleName()
      case Some(name) => Ok(Insert(entries, name, ReadPath(record, last)))
      case None => PlanError("project_path")
  }

  function RenameOne(entries: IndexMap<Value>, from: string, to: string): IndexMap<Value> {
    match Get(entries, from)
    case Some(value) => Insert(Remove(entries, from), to, value)
    case None => entries
  }

  function RenameEntries(entries: IndexMap<Value>, mapping: IndexMap<string>): IndexMap<Value> {
    if mapping == [] then entries else
      var last := mapping[|mapping| - 1];
      RenameOne(RenameEntries(entries, mapping[..|mapping| - 1]), last.key, last.value)
  }

  function DropOne(entries: IndexMap<Value>, path: FieldPath): IndexMap<Value> {
    match path.SimpleName()
    case Some(name) => Remove(entries, name)
    case None => entries
  }

  function DropEntries(entries: IndexMap<Value>, paths: seq<FieldPath>): IndexMap<Value> {
    if paths == [] then entries
    else DropOne(DropEntries(entries, paths[..|paths| - 1]), paths[|paths| - 1])
  }

  function InsertField(record: Value, name: string, value: Value): Result<Value> {
    if record.Object? then Ok(Object(Insert(record.fields, name, value))) else TransformError("not_an_object")
  }

  function CastField(lib: Lib, record: Value, field: FieldPath, target: string, policy: CastPolicy): Result<Value> {
    var casted :- CastValue(lib, ReadPath(record, field), target, policy);
    match field.SimpleName()
    case None => PlanError("cast_path")
    case Some(name) => InsertField(record, name, casted)
  }

  function ApplyRecord(lib: Lib, op: Operation, record: Value): Result<Value> {
    match op
    case ProjectOp(paths) =>
      var entries :- ProjectFields(record, paths);
      Ok(Object(entries))
    case RenameOp(mapping) =>
      if record.Object? then Ok(Object(RenameEntries(record.fields, mapping))) else TransformError("not_an_object")
    case DropOp(paths) =>
      if record.Object? then Ok(Object(DropEntries(record.fields, paths))) else TransformError("not_an_object")
    case LiteralOp(name, value) => InsertField(record, name, value)
    case CastOp(field, target, policy) => CastField(lib, record, field, target, policy)
    case CoalesceOp(name, values) =>
      var resolved :- EvalCoalesce(lib, record, values);
      InsertField(record, name, resolved)
    case ObjectOp(fields) => EvalExpr(lib, record, ObjectExpr(fields))
    case MapOp(fields) => EvalExpr(lib, record, ObjectExpr(fields))
    case _ => Err(Error(Internal, "internal"))
  }

  method RenameInPlace(record: Value, mapping: IndexMap<string>) returns (r: Result<Value>)
    ensures r == if record.Object? then Ok(Object(RenameEntries(record.fields, mapping)))
                 else TransformError("not_an_object")
  {
    if !record.Object? {
      return TransformError("not_an_object");
    }
    var entries := record.fields;
    for i := 0 to |mapping|
      invariant entries == RenameEntries(record.fields, mapping[..i])
    {
      assert mapping[..i + 1][..i] == mapping[..i];
      var found := Get(entries, mapping[i].key);
      if found.Some? {
        entries := Remove(entries, mapping[i].key);
        entries := Insert(entries, mapping[i].value, found.value);
      }
    }
    assert mapping[..|mapping|] == mapping;
    return Ok(Object(entries));
  }

  method DropInPlace(record: Value, paths: seq<FieldPath>) returns (r: Result<Value>)
    ensures r == if record.Object? then Ok(Object(DropEntries(record.fields, paths)))
                 else TransformError("not_an_object")
  {
    if !record.Object? {
      return TransformError("not_an_object");
    }
    var entries := record.fields;
    for i := 0 to |paths|
      invariant entries == DropEntries(record.fields, paths[..i])
    {
      assert paths[..i + 1][..i] == paths[..i];
      var name := paths[i].SimpleName();
      if name.Some? {
        entries := Remove(entries, name.value);
      }
    }
    assert paths[..|paths|] == paths;
    return Ok(Object(entries));
  }

  method Project(record: Value, paths: seq<FieldPath>) returns (r: Result<Value>)
    ensures r == match ProjectFields(record, paths)
                 case Ok(entries) => Ok(Object(entries))
                 case Err(e) => Err(e)
  {
    var entries: IndexMap<Value> := [];
    for i := 0 to |paths|
      invariant ProjectFields(record, paths[..i]) == Ok(entries)
    {
      assert paths[..i + 1][..i] == paths[..i];
      var name := paths[i].SimpleName();
      if name.None? {
        ProjectFails(record, paths, i + 1);
        return PlanError("project_path");
      }
      entries := Insert(entries, name.value, ReadPath(record, paths[i]));
    }
    assert paths[..|paths|] == paths;
    return Ok(Object(entries));
  }

  // A failing prefix decides the whole projection.
  lemma {:induction false} ProjectFails(record: Value, paths: seq<FieldPath>, n: nat)
    requires n <= |paths| && ProjectFields(record, paths[..n]).Err?
    ensures ProjectFields(record, paths) == ProjectFields(record, paths[..n])
    decreases |paths|
  {
    if n < |paths| {
      var front := paths[..|paths| - 1];
      assert front[..n] == paths[..n];
      ProjectFails(record, front, n);
    } else {
      assert paths[..n] == paths;
    }
  }

  method ApplyRecordOnce(lib: Lib, op: Operation, record: Value) returns (r: Result<Value>)
    ensures r == ApplyRecord(lib, op, record)
  {
    match op {
      case ProjectOp(paths) => r := Project(record, paths);
      case RenameOp(mapping) => r := RenameInPlace(record, mapping);
      case DropOp(paths) => r := DropInPlace(record, paths);
      case _ => r := ApplyRecord(lib, op, record);
    }
  }

  // ---------------------------------------------------------------------
  // Explode.
  // ---------------------------------------------------------------------

  function WithExploded(record: Value, field: FieldPath, to: Option<string>, item: Value): Result<Value> {
    var dest := if to.Some? then to else field.SimpleName();
    match dest
    case Some(name) => InsertField(record, name, item)
    case None => PlanError("explode_to")
  }

  function ExplodeItems(record: Value, field: FieldPath, to: Option<string>, items: seq<Value>): Result<seq<Value>> {
    if items == [] then Ok([]) else
      var done :- ExplodeItems(record, field, to, items[..|items| - 1]);
      var one :- WithExploded(record, field, to, items[|items| - 1]);
      Ok(done + [one])
  }

  function ExplodeRecord(record: Value, field: FieldPath, to: Option<string>, outer: bool): Result<seq<Value>> {
    match ReadPath(record, field)
    case Array(items) => ExplodeItems(record, field, to, items)
    case Null => if outer then ExplodeItems(record, field, to, [Null]) else Ok([])
    case _ => TransformError("explode_type")
  }

  // ---------------------------------------------------------------------
  // Sort order.
  // ---------------------------------------------------------------------

  function RankValue(lib: Lib, value: Value): string {
    match value
    case String(text) => text
    case Int(v) => PadInt(v, 20)
    case UInt(v) => PadInt(v, 20)
    case FloatValue(f) => lib.floatRank(f)
    case Bool(b) => if b then "true" else "false"
    case Decimal(d) => RenderDecimal(d)
    case _ => JsonText(lib, value)
  }

  function CompareValues(lib: Lib, left: Value, right: Value, nulls: NullsOrder): Ordering {
    if left.Null? && right.Null? then Equal
    else if left.Null? then (if nulls == NullsFirst then Less else Greater)
    else if right.Null? then (if nulls == NullsFirst then Greater else Less)
    else StrCmp(RankValue(lib, left), RankValue(lib, right))
  }

  function CompareByKey(lib: Lib, left: Value, right: Value, key: SortKey): Ordering {
    var ord := CompareValues(lib, ReadPath(left, key.field), ReadPath(right, key.field), key.nulls);
    if key.order == Desc then ord.Reverse() else ord
  }

  function CompareRecords(lib: Lib, left: Value, right: Value, keys: seq<SortKey>): Ordering {
    if keys == [] then Equal else
      var ord := CompareByKey(lib, left, right, keys[0]);
      if ord != Equal then ord else CompareRecords(lib, left, right, keys[1..])
  }

  function RecordOrder(lib: Lib, keys: seq<SortKey>): Comparison<Value> {
    (left: Value, right: Value) => CompareRecords(lib, left, right, keys)
  }

  function SortRecords(lib: Lib, keys: seq<SortKey>, records: seq<Value>): Result<seq<Value>> {
    if keys == [] then PlanError("invalid_sort") else Ok(StableSort(RecordOrder(lib, keys), records))
  }

  // ---------------------------------------------------------------------
  // Running an operation over a batch, as a function.
  // ---------------------------------------------------------------------

  type Step = Result<seq<Value>>

  // What one record becomes: nothing, itself, its image or its explosion.
  function RecordStep(lib: Lib, op: Operation, record: Value): Result<seq<Value>> {
    match op
    case FilterOp(predicateExpr) =>
      var value :- EvalExpr(lib, record, predicateExpr);
      Ok(if value.IsTruthy() then [record] else [])
    case ExplodeOp(field, to, outer) => ExplodeRecord(record, field, to, outer)
    case _ =>
      var value :- ApplyRecord(lib, op, record);
      Ok([value])
  }

  // Explode failures are never tolerated.
  function EffectivePolicy(op: Operation, policy: ErrorPolicy): ErrorPolicy {
    if op.ExplodeOp? then Fail else policy
  }

  function HandleResult(done: Outcome, step: Result<seq<Value>>, index: nat, policy: ErrorPolicy): Result<Outcome> {
    match step
    case Ok(out) => Ok(Outcome(done.records + out, done.rejects))
    case Err(e) =>
      match policy
      case Skip => Ok(done)
      case Collect => Ok(Outcome(done.records, done.rejects + [Reject(index, e.code)]))
      case Fail => Err(e)
  }

  function FoldSteps(steps: seq<Step>, policy: ErrorPolicy): Result<Outcome> {
    if steps == [] then Ok(Outcome([], [])) else
      var last := |steps| - 1;
      var done :- FoldSteps(steps[..last], policy);
      HandleResult(done, steps[last], last, policy)
  }

  function StepsOf(lib: Lib, op: Operation, records: seq<Value>): (steps: seq<Step>)
    ensures |steps| == |records| && forall i :: 0 <= i < |records| ==> steps[i] == RecordStep(lib, op, records[i])
  {
    seq(|records|, i requires 0 <= i < |records| => RecordStep(lib, op, records[i]))
  }

  function RunBatch(lib: Lib, op: Operation, records: seq<Value>, policy: ErrorPolicy): Result<Outcome> {
    FoldSteps(StepsOf(lib, op, records), policy)
  }

  function ApplyOp(lib: Lib, op: Operation, records: seq<Value>, policy: ErrorPolicy): Result<Outcome> {
    if op.SortOp? then
      var sorted :- SortRecords(lib, op.keys, records);
      Ok(Outcome(sorted, []))
    else RunBatch(lib, op, records, EffectivePolicy(op, policy))
  }

  function RunOps(lib: Lib, ops: seq<Operation>, records: seq<Value>, policy: ErrorPolicy): Result<Outcome> {
    if ops == [] then Ok(Outcome(records, [])) else
      var last := |ops| - 1;
      var done :- RunOps(lib, ops[..last], records, policy);
      var next :- ApplyOp(lib, ops[last], done.records, policy);
      Ok(Outcome(next.records, done.rejects + next.rejects))
  }

  function Execute(lib: Lib, plan: Plan, records: seq<Value>): Result<Outcome> {
    var shape :- ValidateShape(plan);
    RunOps(lib, plan.operations, records, plan.errorPolicy)
  }

  // ---------------------------------------------------------------------
  // The loops of the executor.
  // ---------------------------------------------------------------------

  // A failing prefix decides the whole batch.
  lemma {:induction false} BatchFails(steps: seq<Step>, policy: ErrorPolicy, n: nat)
    requires n <= |steps| && FoldSteps(steps[..n], policy).Err?
    ensures FoldSteps(steps, policy) == FoldSteps(steps[..n], policy)
    decreases |steps|
  {
    if n < |steps| {
      var front := steps[..|steps| - 1];
      assert front[..n] == steps[..n];
      BatchFails(front, policy, n);
    } else {
      assert steps[..n] == steps;
    }
  }

  method HandleRecordResult(result: Result<Value>, index: nat, policy: ErrorPolicy, out: seq<Value>, rejects: seq<Reject>)
    returns (r: Result<(seq<Value>, seq<Reject>)>)
    ensures result.Ok? ==> r == Ok((out + [result.value], rejects))
    ensures result.Err? && policy == Skip ==> r == Ok((out, rejects))
    ensures result.Err? && policy == Collect ==> r == Ok((out, rejects + [Reject(index, result.error.code)]))
    ensures result.Err? && policy == Fail ==> r == Err(result.error)
  {
    match result {
      case Ok(value) => r := Ok((out + [value], rejects));
      case Err(e) =>
        if policy == Skip {
          r := Ok((out, rejects));
        } else if policy == Collect {
          r := Ok((out, rejects + [Reject(index, e.code)]));
        } else {
          r := Err(e);
        }
    }
  }

  // One more step of a fold, with rejects collected behind earlier ones.
  lemma FoldOne(steps: seq<Step>, policy: ErrorPolicy, i: nat, rejects: seq<Reject>)
    requires i < |steps| && FoldSteps(steps[..i], policy).Ok?
    ensures var done := FoldSteps(steps[..i], policy).value;
            && FoldSteps(steps[..i + 1], policy) == HandleResult(done, steps[i], i, policy)
            && (steps[i].Err? ==> forall r: Reject :: rejects + done.rejects + [r] == rejects + (done.rejects + [r]))
  {
    assert steps[..i + 1][..i] == steps[..i];
  }

  method MapRecords(lib: Lib, op: Operation, records: seq<Value>, policy: ErrorPolicy, rejects: seq<Reject>)
    returns (r: Result<(seq<Value>, seq<Reject>)>)
    requires !op.FilterOp? && !op.ExplodeOp?
    ensures r == match RunBatch(lib, op, records, policy)
                 case Ok(o) => Ok((o.records, rejects + o.rejects))
                 case Err(e) => Err(e)
  {
    ghost var steps := StepsOf(lib, op, records);
    var out: seq<Value> := [];
    var collected := rejects;
    for i := 0 to |records|
      invariant FoldSteps(steps[..i], policy).Ok?
      invariant out == FoldSteps(steps[..i], policy).value.records
      invariant collected == rejects + FoldSteps(steps[..i], policy).value.rejects
    {
      FoldOne(steps, policy, i, rejects);
      var result := ApplyRecordOnce(lib, op, records[i]);
      var handled := HandleRecordResult(result, i, policy, out, collected);
      if handled.Err? {
        BatchFails(steps, policy, i + 1);
        return Err(handled.error);
      }
      out, collected := handled.value.0, handled.value.1;
    }
    assert steps[..|records|] == steps;
    return Ok((out, collected));
  }

  method FilterRecords(lib: Lib, predicateExpr: Expr, records: seq<Value>, policy: ErrorPolicy, rejects: seq<Reject>)
    returns (r: Result<(seq<Value>, seq<Reject>)>)
    ensures r == match RunBatch(lib, FilterOp(predicateExpr), records, policy)
                 case Ok(o) => Ok((o.records, rejects + o.rejects))
                 case Err(e) => Err(e)
  {
    ghost var op := FilterOp(predicateExpr);
    ghost var steps := StepsOf(lib, op, records);
    var out: seq<Value> := [];
    var collected := rejects;
    for i := 0 to |records|
      invariant FoldSteps(steps[..i], policy).Ok?
      invariant out == FoldSteps(steps[..i], policy).value.records
      invariant collected == rejects + FoldSteps(steps[..i], policy).value.rejects
    {
      FoldOne(steps, policy, i, rejects);
      match EvalExpr(lib, records[i], predicateExpr) {
        case Ok(value) =>
          if value.IsTruthy() {
            out := out + [records[i]];
          }
        case Err(e) =>
          if policy == Collect {
            collected := collected + [Reject(i, e.code)];
          } else if policy == Fail {
            BatchFails(steps, policy, i + 1);
            return Err(e);
          }
      }
    }
    assert steps[..|records|] == steps;
    return Ok((out, collected));
  }

  method ExplodeArray(record: Value, field: FieldPath, to: Option<string>, items: seq<Value>, out: seq<Value>)
    returns (r: Result<seq<Value>>)
    ensures r == match ExplodeItems(record, field, to, items)
                 case Ok(made) => Ok(out + made)
                 case Err(e) => Err(e)
  {
    var acc := out;
    for i := 0 to |items|
      invariant ExplodeItems(record, field, to, items[..i]).Ok?
      invariant acc == out + ExplodeItems(record, field, to, items[..i]).value
    {
      assert items[..i + 1][..i] == items[..i];
      var one := WithExploded(record, field, to, items[i]);
      if one.Err? {
        ExplodeFails(record, field, to, items, i + 1);
        return Err(one.error);
      }
      acc := acc + [one.value];
    }
    assert items[..|items|] == items;
    return Ok(acc);
  }

  method ExplodeOne(record: Value, field: FieldPath, to: Option<string>, outer: bool, out: seq<Value>)
    returns (r: Result<seq<Value>>)
    ensures r == match ExplodeRecord(record, field, to, outer)
                 case Ok(made) => Ok(out + made)
                 case Err(e) => Err(e)
  {
    match ReadPath(record, field) {
      case Array(items) =>
        r := ExplodeArray(record, field, to, items, out);
      case Null =>
        if !outer {
          assert out + [] == out;
          return Ok(out);
        }
        var one := WithExploded(record, field, to, Null);
        ExplodeSingle(record, field, to, Null);
        if one.Err? {
          return Err(one.error);
        }
        return Ok(out + [one.value]);
      case _ =>
        return TransformError("explode_type");
    }
  }

  lemma ExplodeSingle(record: Value, field: FieldPath, to: Option<string>, item: Value)
    ensures ExplodeItems(record, field, to, [item]) ==
            match WithExploded(record, field, to, item)
            case Ok(made) => Ok([made])
            case Err(e) => Err(e)
  {
    var items := [item];
    assert items[..|items| - 1] == [];
    assert ExplodeItems(record, field, to, items[..|items| - 1]) == Ok([]);
    var one := WithExploded(record, field, to, items[|items| - 1]);
    if one.Ok? {
      assert [] + [one.value] == [one.value];
      assert ExplodeItems(record, field, to, items) == Ok([one.value]);
    } else {
      assert ExplodeItems(record, field, to, items) == Err(one.error);
    }
  }

  lemma {:induction false} ExplodeFails(record: Value, field: FieldPath, to: Option<string>, items: seq<Value>, n: nat)
    requires n <= |items| && ExplodeItems(record, field, to, items[..n]).Err?
    ensures ExplodeItems(record, field, to, items) == ExplodeItems(record, field, to, items[..n])
    decreases |items|
  {
    if n < |items| {
      var front := items[..|items| - 1];
      assert front[..n] == items[..n];
      ExplodeFails(record, field, to, front, n);
    } else {
      assert items[..n] == items;
    }
  }

  method ExplodeRecords(lib: Lib, field: FieldPath, to: Option<string>, outer: bool, records: seq<Value>)
    returns (r: Result<seq<Value>>)
    ensures r == match RunBatch(lib, ExplodeOp(field, to, outer), records, Fail)
                 case Ok(o) => Ok(o.records)
                 case Err(e) => Err(e)
    ensures r.Ok? ==> RunBatch(lib, ExplodeOp(field, to, outer), records, Fail).value.rejects == []
  {
    ghost var steps := StepsOf(lib, ExplodeOp(field, to, outer), records);
    var out: seq<Value> := [];
    for i := 0 to |records|
      invariant FoldSteps(steps[..i], Fail) == Ok(Outcome(out, []))
    {
      FoldOne(steps, Fail, i, []);
      var made := ExplodeOne(records[i], field, to, outer, out);
      if made.Err? {
        BatchFails(steps, Fail, i + 1);
        return Err(made.error);
      }
      out := made.value;
    }
    assert steps[..|records|] == steps;
    return Ok(out);
  }

  method ApplyOperation(lib: Lib, op: Operation, records: seq<Value>, policy: ErrorPolicy, rejects: seq<Reject>)
    returns (r: Result<(seq<Value>, seq<Reject>)>)
    ensures r == match ApplyOp(lib, op, records, policy)
                 case Ok(o) => Ok((o.records, rejects + o.rejects))
                 case Err(e) => Err(e)
  {
    assert rejects + [] == rejects;
    match op {
      case FilterOp(predicateExpr) =>
        r := FilterRecords(lib, predicateExpr, records, policy, rejects);
      case SortOp(keys) =>
        var sorted := SortRecords(lib, keys, records);
        r := if sorted.Ok? then Ok((sorted.value, rejects)) else Err(sorted.error);
      case ExplodeOp(field, to, outer) =>
        var exploded := ExplodeRecords(lib, field, to, outer, records);
        r := if exploded.Ok? then Ok((exploded.value, rejects)) else Err(exploded.error);
      case _ =>
        r := MapRecords(lib, op, records, policy, rejects);
    }
  }

  lemma {:induction false} OpsFail(lib: Lib, ops: seq<Operation>, records: seq<Value>, policy: ErrorPolicy, n: nat)
    requires n <= |ops| && RunOps(lib, ops[..n], records, policy).Err?
    ensures RunOps(lib, ops, records, policy) == RunOps(lib, ops[..n], records, policy)
    decreases |ops|
  {
    if n < |ops| {
      var front := ops[..|ops| - 1];
      assert front[..n] == ops[..n];
      OpsFail(lib, front, records, policy, n);
    } else {
      assert ops[..n] == ops;
    }
  }

  method ExecuteDetailed(lib: Lib, plan: Plan, records: seq<Value>) returns (r: Result<Outcome>)
    ensures r == Execute(lib, plan, records)
  {
    var shape := ValidateShape(plan);
    if shape.Err? {
      return Err(shape.error);
    }
    var rejects: seq<Reject> := [];
    var current := records;
    for i := 0 to |plan.operations|
      invariant RunOps(lib, plan.operations[..i], records, plan.errorPolicy) == Ok(Outcome(current, rejects))
    {
      assert plan.operations[..i + 1][..i] == plan.operations[..i];
      var applied := ApplyOperation(lib, plan.operations[i], current, plan.errorPolicy, rejects);
      if applied.Err? {
        OpsFail(lib, plan.operations, records, plan.errorPolicy, i + 1);
        return Err(applied.error);
      }
      current, rejects := applied.value.0, applied.value.1;
    }
    assert plan.operations[..|plan.operations|] == plan.operations;
    return Ok(Outcome(current, rejects));
  }
}
