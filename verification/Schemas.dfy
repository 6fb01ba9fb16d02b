// The core schema model: types, fields and planner compatibility, and the
// naming discipline under which field paths reach exactly one field of a record.
module Schemas {
  import opened Results
  import opened Paths

  datatype TimeUnit = Second | Millisecond | Microsecond | Nanosecond

  // Free-form annotations: compared for equality, never interpreted.
  type Metadata = map<string, string>

  datatype Field = Field(
    name: string,
    ty: Type,
    nullable: bool,
    aliases: seq<string>,
    semantic: Option<string>,
    metadata: Metadata)

  datatype Type =
    | NullType
    | BoolType
    | IntType(bits: nat, signed: bool)
    | FloatType(floatBits: nat)
    | DecimalType(precision: nat, scale: int)
    | StringType
    | BinaryType
    | DateType
    | TimeType(unit: TimeUnit)
    | TimestampType(unit: TimeUnit, timezone: Option<string>)
    | DurationType(unit: TimeUnit)
    | RecordType(fields: seq<Field>)
    | ListType(element: Type, elementNullable: bool)
    | MapType(key: Type, value: Type, valueNullable: bool)
    | UnionType(variants: seq<Type>)
    | UnknownType
    | AnyType

  function NewField(name: string, ty: Type, nullable: bool): Field {
    Field(name, ty, nullable, [], None, map[])
  }

  // Same constructor, whatever the parameters.
  predicate SameKind(a: Type, b: Type) {
    match a
    case NullType => b.NullType?
    case BoolType => b.BoolType?
    case IntType(_, _) => b.IntType?
    case FloatType(_) => b.FloatType?
    case DecimalType(_, _) => b.DecimalType?
    case StringType => b.StringType?
    case BinaryType => b.BinaryType?
    case DateType => b.DateType?
    case TimeType(_) => b.TimeType?
    case TimestampType(_, _) => b.TimestampType?
    case DurationType(_) => b.DurationType?
    case RecordType(_) => b.RecordType?
    case ListType(_, _) => b.ListType?
    case MapType(_, _, _) => b.MapType?
    case UnionType(_) => b.UnionType?
    case UnknownType => b.UnknownType?
    case AnyType => b.AnyType?
  }

  // Assignability as the planner sees it.
  predicate TypesCompatible(source: Type, target: Type) {
    if target.AnyType? || source.UnknownType? then true
    else if source.ListType? && target.ListType? then source == target
    else if SameKind(source, target) then true
    else match source
      case IntType(_, _) => target.FloatType? || target.DecimalType? || target.StringType?
      case DecimalType(_, _) => target.StringType? || target.FloatType?
      case FloatType(_) => target.StringType?
      case BoolType => target.StringType?
      case _ => false
  }

  // Scalars that a cast can name.
  function ParseTargetName(name: string): Result<Type> {
    if name == "null" then Ok(NullType)
    else if name == "bool" || name == "boolean" then Ok(BoolType)
    else if name == "int" || name == "int64" then Ok(IntType(64, true))
    else if name == "int32" then Ok(IntType(32, true))
    else if name == "uint64" then Ok(IntType(64, false))
    else if name == "float" || name == "float64" || name == "number" then Ok(FloatType(64))
    else if name == "float32" then Ok(FloatType(32))
    else if name == "decimal" then Ok(DecimalType(38, 10))
    else if name == "string" then Ok(StringType)
    else if name == "binary" then Ok(BinaryType)
    else if name == "date" then Ok(DateType)
    else if name == "timestamp" then Ok(TimestampType(Microsecond, None))
    else PlanError("unknown_cast_target")
  }

  // ---------------------------------------------------------------------
  // Naming discipline: within every record that field paths can reach, names
  // are distinct identifiers.
  // ---------------------------------------------------------------------

  function FieldNames(fields: seq<Field>): (names: seq<string>)
    ensures |names| == |fields| && forall i :: 0 <= i < |fields| ==> names[i] == fields[i].name
  {
    seq(|fields|, i requires 0 <= i < |fields| => fields[i].name)
  }

  predicate UniqueNames(fields: seq<Field>) {
    forall i, j :: 0 <= i < j < |fields| ==> fields[i].name != fields[j].name
  }

  predicate WellNamed(ty: Type)
    decreases ty
  {
    match ty
    case RecordType(fields) => WellNamedFields(fields)
    case ListType(element, _) => WellNamed(element)
    case _ => true
  }

  predicate WellNamedFields(fields: seq<Field>)
    decreases fields
  {
    && UniqueNames(fields)
    && forall i :: 0 <= i < |fields| ==> IsIdent(fields[i].name) && WellNamed(fields[i].ty)
  }

  function FindField(fields: seq<Field>, name: string): (r: Option<Field>)
    ensures r.Some? <==> exists i :: 0 <= i < |fields| && fields[i].name == name
    ensures r.Some? ==> r.value in fields && r.value.name == name
  {
    if fields == [] then None
    else if fields[0].name == name then Some(fields[0])
    else
      var r := FindField(fields[1..], name);
      assert forall i :: 0 < i < |fields| ==> fields[i] == fields[1..][i - 1];
      r
  }

  lemma FindFieldAt(fields: seq<Field>, i: nat)
    requires UniqueNames(fields) && i < |fields|
    ensures FindField(fields, fields[i].name) == Some(fields[i])
  {
    var r := FindField(fields, fields[i].name);
    assert fields[i].name == fields[i].name;
    var j :| 0 <= j < |fields| && fields[j] == r.value;
  }
}
