// Inferring a source schema from records.
module Inference {
  import opened Results
  import opened IndexMaps
  import opened Values
  import opened Schemas

  datatype InferMode = InferNone | Conservative | Aggressive

  function TypeOf(value: Value): Type
    decreases value
  {
    match value
    case Null => UnknownType
    case Bool(_) => BoolType
    case Int(_) => IntType(64, true)
    case UInt(_) => IntType(64, false)
    case FloatValue(_) => FloatType(64)
    case Decimal(_) => DecimalType(38, 10)
    case Array(items) => ListType(if items == [] then AnyType else TypeOf(items[0]), true)
    case Object(entries) => RecordType(FieldsOf(entries))
    case _ => StringType
  }

  function FieldsOf(entries: IndexMap<Value>): (fields: seq<Field>)
    ensures |fields| == |entries|
    ensures forall i :: 0 <= i < |entries| ==>
              fields[i] == NewField(entries[i].key, TypeOf(entries[i].value), entries[i].value.Null?)
    decreases entries
  {
    if entries == [] then [] else
      var front := entries[..|entries| - 1];
      var last := entries[|entries| - 1];
      FieldsOf(front) + [NewField(last.key, TypeOf(last.value), last.value.Null?)]
  }

  function UnifyTypes(left: Type, right: Type, infer: InferMode): Result<Type> {
    if left.UnknownType? then Ok(right)
    else if right.UnknownType? || left == right then Ok(left)
    else if infer == Conservative then Err(Error(Schema, "type_conflict"))
    else Ok(UnionType([left, right]))
  }

  function UpdateField(f: Field, entries: IndexMap<Value>, infer: InferMode): Result<Field> {
    match Get(entries, f.name)
    case Some(value) =>
      var ty :- UnifyTypes(f.ty, TypeOf(value), infer);
      Ok(f.(ty := ty, nullable := f.nullable || value.Null?))
    case None => Ok(f.(nullable := true))
  }

  function UpdateFields(fields: seq<Field>, entries: IndexMap<Value>, infer: InferMode): Result<seq<Field>> {
    if fields == [] then Ok([]) else
      var front :- UpdateFields(fields[..|fields| - 1], entries, infer);
      var last :- UpdateField(fields[|fields| - 1], entries, infer);
      Ok(front + [last])
  }

  predicate Knows(fields: seq<Field>, name: string) {
    exists i :: 0 <= i < |fields| && fields[i].name == name
  }

  // A field first seen after the first record is nullable.
  function AppendFields(fields: seq<Field>, entries: IndexMap<Value>): seq<Field> {
    if entries == [] then fields else
      var front, last := AppendFields(fields, entries[..|entries| - 1]), entries[|entries| - 1];
      if Knows(front, last.key) then front else front + [NewField(last.key, TypeOf(last.value), true)]
  }

  // Records that are not objects are passed over.
  function MergeRecord(fields: seq<Field>, record: Value, infer: InferMode): Result<seq<Field>> {
    if !record.Object? then Ok(fields) else
      var updated :- UpdateFields(fields, record.fields, infer);
      Ok(AppendFields(updated, record.fields))
  }

  function UnifyFields(fields: seq<Field>, records: seq<Value>, infer: InferMode): Result<seq<Field>> {
    if records == [] then Ok(fields) else
      var front :- UnifyFields(fields, records[..|records| - 1], infer);
      MergeRecord(front, records[|records| - 1], infer)
  }

  function InferFields(records: seq<Value>, infer: InferMode): Result<seq<Field>> {
    if records == [] || !records[0].Object? then Ok([])
    else UnifyFields(FieldsOf(records[0].fields), records[1..], infer)
  }

  function InferSchema(records: seq<Value>, infer: InferMode): Result<Type> {
    var fields :- InferFields(records, infer);
    Ok(RecordType(fields))
  }

  // ---------------------------------------------------------------------
  // The loops, over one list of fields updated in place.
  // ---------------------------------------------------------------------

  lemma {:induction false} UpdateFails(fields: seq<Field>, entries: IndexMap<Value>, infer: InferMode, n: nat)
    requires n <= |fields| && UpdateFields(fields[..n], entries, infer).Err?
    ensures UpdateFields(fields, entries, infer) == UpdateFields(fields[..n], entries, infer)
    decreases |fields|
  {
    if n < |fields| {
      var front := fields[..|fields| - 1];
      assert front[..n] == fields[..n];
      UpdateFails(front, entries, infer, n);
    } else {
      assert fields[..n] == fields;
    }
  }

  lemma {:induction false} UnifyFails(fields: seq<Field>, records: seq<Value>, infer: InferMode, n: nat)
    requires n <= |records| && UnifyFields(fields, records[..n], infer).Err?
    ensures UnifyFields(fields, records, infer) == UnifyFields(fields, records[..n], infer)
    decreases |records|
  {
    if n < |records| {
      var front := records[..|records| - 1];
      assert front[..n] == records[..n];
      UnifyFails(fields, front, infer, n);
    } else {
      assert records[..n] == records;
    }
  }

  class FieldTable {
    var fields: seq<Field>

    constructor (first: IndexMap<Value>)
      ensures fields == FieldsOf(first)
    {
      fields := [];
      new;
      for i := 0 to |first|
        invariant fields == FieldsOf(first[..i])
      {
        assert first[..i + 1][..i] == first[..i];
        fields := fields + [NewField(first[i].key, TypeOf(first[i].value), first[i].value.Null?)];
      }
      assert first[..|first|] == first;
    }

    // On a conflict the fields before it have already been updated; the
    // caller discards the table.
    method UpdateExisting(entries: IndexMap<Value>, infer: InferMode) returns (r: Result<Unit>)
      modifies this
      ensures match UpdateFields(old(fields), entries, infer)
              case Ok(updated) => r == Ok(Unit) && fields == updated
              case Err(e) => r == Err(e)
    {
      for i := 0 to |fields|
        invariant |fields| == |old(fields)| && fields[i..] == old(fields)[i..]
        invariant UpdateFields(old(fields)[..i], entries, infer) == Ok(fields[..i])
      {
        ghost var was := old(fields);
        assert was[..i + 1][..i] == was[..i];
        assert fields[i] == fields[i..][0] == was[i..][0] == was[i];
        var field := fields[i];
        var found := Get(entries, field.name);
        if found.Some? {
          var unified := UnifyTypes(field.ty, TypeOf(found.value), infer);
          if unified.Err? {
            UpdateFails(was, entries, infer, i + 1);
            return Err(unified.error);
          }
          field := field.(ty := unified.value);
          if found.value.Null? {
            field := field.(nullable := true);
          }
        } else {
          field := field.(nullable := true);
        }
        ghost var before := fields;
        fields := fields[i := field];
        assert fields[..i + 1] == before[..i] + [field];
        assert fields[i + 1..] == before[i..][1..];
      }
      assert old(fields)[..|fields|] == old(fields) && fields[..|fields|] == fields;
      return Ok(Unit);
    }

    method AppendNew(entries: IndexMap<Value>)
      modifies this
      ensures fields == AppendFields(old(fields), entries)
    {
      for i := 0 to |entries|
        invariant fields == AppendFields(old(fields), entries[..i])
      {
        assert entries[..i + 1][..i] == entries[..i];
        if !Knows(fields, entries[i].key) {
          fields := fields + [NewField(entries[i].key, TypeOf(entries[i].value), true)];
        }
      }
      assert entries[..|entries|] == entries;
    }

    method Unify(records: seq<Value>, infer: InferMode) returns (r: Result<Unit>)
      modifies this
      ensures match UnifyFields(old(fields), records, infer)
              case Ok(unified) => r == Ok(Unit) && fields == unified
              case Err(e) => r == Err(e)
    {
      for i := 0 to |records|
        invariant UnifyFields(old(fields), records[..i], infer) == Ok(fields)
      {
        assert records[..i + 1][..i] == records[..i];
        if records[i].Object? {
          ghost var before := fields;
          var updated := UpdateExisting(records[i].fields, infer);
          if updated.Err? {
            assert MergeRecord(before, records[i], infer) == Err(updated.error);
            UnifyFails(old(fields), records, infer, i + 1);
            return Err(updated.error);
          }
          AppendNew(records[i].fields);
        }
      }
      assert records[..|records|] == records;
      return Ok(Unit);
    }
  }

  method InferFromRecords(records: seq<Value>, infer: InferMode) returns (r: Result<Type>)
    ensures r == InferSchema(records, infer)
  {
    if records == [] || !records[0].Object? {
      return Ok(RecordType([]));
    }
    var table := new FieldTable(records[0].fields);
    var unified := table.Unify(records[1..], infer);
    if unified.Err? {
      return Err(unified.error);
    }
    return Ok(RecordType(table.fields));
  }
}
