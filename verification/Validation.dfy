// Which values a schema accepts, and when.
module Validation {
  import opened Results
  import opened IndexMaps
  import opened Values
  import opened Schemas

  function TargetError(code: string): Result<Unit> {
    Err(Error(TargetValidation, code))
  }

  function ValidateType(ty: Type, value: Value): Result<Unit>
    decreases ty, 0
  {
    if value.Null? then Ok(Unit)
    else match ty
      case AnyType => Ok(Unit)
      case UnknownType => Ok(Unit)
      case BoolType => if value.Bool? then Ok(Unit) else TargetError("type_mismatch")
      case IntType(_, _) => if value.Int? || value.UInt? then Ok(Unit) else TargetError("type_mismatch")
      case FloatType(_) =>
        if value.FloatValue? || value.Int? || value.UInt? then Ok(Unit) else TargetError("type_mismatch")
      case StringType => if value.String? || value.Decimal? then Ok(Unit) else TargetError("type_mismatch")
      case DecimalType(_, _) => if value.String? || value.Decimal? then Ok(Unit) else TargetError("type_mismatch")
      case RecordType(fields) =>
        if value.Object? then ValidateObject(fields, value.fields) else TargetError("type_mismatch")
      case ListType(element, _) =>
        if value.Array? then ValidateList(element, value.items) else TargetError("type_mismatch")
      case UnionType(variants) => ValidateUnion(variants, value)
      case _ => TargetError("type_mismatch")
  }

  // Fields are checked in schema order; the first failure is reported.
  function ValidateObject(fields: seq<Field>, entries: IndexMap<Value>): Result<Unit>
    decreases fields, 0
  {
    if fields == [] then Ok(Unit) else
      match Get(entries, fields[0].name)
      case Some(value) =>
        var checked :- ValidateType(fields[0].ty, value);
        ValidateObject(fields[1..], entries)
      case None =>
        if fields[0].nullable then ValidateObject(fields[1..], entries) else TargetError("missing_field")
  }

  function ValidateList(element: Type, items: seq<Value>): Result<Unit>
    decreases element, 1 + |items|
  {
    if items == [] then Ok(Unit) else
      var checked :- ValidateType(element, items[0]);
      ValidateList(element, items[1..])
  }

  function ValidateUnion(variants: seq<Type>, value: Value): Result<Unit>
    decreases variants, 0
  {
    if variants == [] then TargetError("type_mismatch")
    else if ValidateType(variants[0], value).Ok? then Ok(Unit)
    else ValidateUnion(variants[1..], value)
  }

  predicate Accepts(ty: Type, value: Value) {
    ValidateType(ty, value).Ok?
  }

  // The declarative reading of the three compound checks.
  predicate FieldAccepts(f: Field, entries: IndexMap<Value>) {
    match Get(entries, f.name)
    case Some(value) => Accepts(f.ty, value)
    case None => f.nullable
  }

  lemma {:induction false} ObjectAccepted(fields: seq<Field>, entries: IndexMap<Value>)
    ensures ValidateObject(fields, entries).Ok? <==> forall i :: 0 <= i < |fields| ==> FieldAccepts(fields[i], entries)
  {
    if fields != [] {
      ObjectAccepted(fields[1..], entries);
      var rest := fields[1..];
      assert forall i :: 0 <= i < |rest| ==> rest[i] == fields[i + 1];
      assert (forall i :: 0 <= i < |fields| ==> FieldAccepts(fields[i], entries)) <==>
             FieldAccepts(fields[0], entries) && forall i :: 0 <= i < |rest| ==> FieldAccepts(rest[i], entries) by {
        if FieldAccepts(fields[0], entries) && forall i :: 0 <= i < |rest| ==> FieldAccepts(rest[i], entries) {
          forall i | 0 <= i < |fields| ensures FieldAccepts(fields[i], entries) {
            if i > 0 { assert FieldAccepts(rest[i - 1], entries); }
          }
        }
      }
    }
  }

  lemma {:induction false} ListAccepted(element: Type, items: seq<Value>)
    ensures ValidateList(element, items).Ok? <==> forall i :: 0 <= i < |items| ==> Accepts(element, items[i])
  {
    if items != [] {
      ListAccepted(element, items[1..]);
      var rest := items[1..];
      if Accepts(element, items[0]) && forall i :: 0 <= i < |rest| ==> Accepts(element, rest[i]) {
        forall i | 0 <= i < |items| ensures Accepts(element, items[i]) {
          if i > 0 { assert Accepts(element, rest[i - 1]); }
        }
      }
      if forall i :: 0 <= i < |items| ==> Accepts(element, items[i]) {
        forall i | 0 <= i < |rest| ensures Accepts(element, rest[i]) { assert rest[i] == items[i + 1]; }
      }
    }
  }

  lemma {:induction false} UnionAccepted(variants: seq<Type>, value: Value)
    ensures ValidateUnion(variants, value).Ok? <==> exists i :: 0 <= i < |variants| && Accepts(variants[i], value)
  {
    if variants != [] {
      UnionAccepted(variants[1..], value);
      var rest := variants[1..];
      if exists i :: 0 <= i < |variants| && Accepts(variants[i], value) {
        var i :| 0 <= i < |variants| && Accepts(variants[i], value);
        assert i > 0 ==> rest[i - 1] == variants[i];
      }
      if exists i :: 0 <= i < |rest| && Accepts(rest[i], value) {
        var i :| 0 <= i < |rest| && Accepts(rest[i], value);
        assert variants[i + 1] == rest[i];
      }
    }
  }
}
