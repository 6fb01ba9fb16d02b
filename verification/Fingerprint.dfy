// Schema fingerprints: the canonical text that is hashed. The digest itself
// is outside this model.
module Fingerprint {
  import opened Text
  import opened IndexMaps
  import opened Schemas
  import opened Jsons

  function KindName(ty: Type): string {
    match ty
    case NullType => "null"
    case BoolType => "bool"
    case IntType(_, _) => "int"
    case FloatType(_) => "float"
    case DecimalType(_, _) => "decimal"
    case StringType => "string"
    case BinaryType => "binary"
    case DateType => "date"
    case TimeType(_) => "time"
    case TimestampType(_, _) => "timestamp"
    case DurationType(_) => "duration"
    case RecordType(_) => "record"
    case ListType(_, _) => "list"
    case MapType(_, _, _) => "map"
    case UnionType(_) => "union"
    case UnknownType => "unknown"
    case AnyType => "any"
  }

  function UnitName(unit: TimeUnit): string {
    match unit
    case Second => "second"
    case Millisecond => "millisecond"
    case Microsecond => "microsecond"
    case Nanosecond => "nanosecond"
  }

  function NumberJson(n: int): Json {
    JNumber(IntText(n))
  }

  function Attributes(ty: Type): IndexMap<Json>
    decreases ty, 0
  {
    match ty
    case IntType(bits, signed) => [Entry("bits", NumberJson(bits)), Entry("signed", JBool(signed))]
    case FloatType(bits) => [Entry("bits", NumberJson(bits))]
    case DecimalType(precision, scale) => [Entry("precision", NumberJson(precision)), Entry("scale", NumberJson(scale))]
    case TimeType(unit) => [Entry("unit", JString(UnitName(unit)))]
    case TimestampType(unit, timezone) =>
      [Entry("unit", JString(UnitName(unit)))] +
      (if timezone.Some? then [Entry("timezone", JString(timezone.value))] else [])
    case DurationType(unit) => [Entry("unit", JString(UnitName(unit)))]
    case RecordType(fields) => [Entry("fields", JArray(FieldsToJson(fields)))]
    case ListType(element, elementNullable) =>
      [Entry("element", TypeToJson(element)), Entry("elementNullable", JBool(elementNullable))]
    case MapType(key, value, valueNullable) =>
      [Entry("key", TypeToJson(key)), Entry("value", TypeToJson(value)), Entry("valueNullable", JBool(valueNullable))]
    case UnionType(variants) => [Entry("variants", JArray(TypesToJson(variants)))]
    case _ => []
  }

  // The kind tag is inserted behind the attributes.
  function Members(ty: Type): IndexMap<Json>
    decreases ty, 1
  {
    Attributes(ty) + [Entry("kind", JString(KindName(ty)))]
  }

  function TypeToJson(ty: Type): Json
    decreases ty, 2
  {
    JObject(Members(ty))
  }

  function TypesToJson(types: seq<Type>): (r: seq<Json>)
    ensures |r| == |types| && forall i :: 0 <= i < |types| ==> r[i] == TypeToJson(types[i])
    decreases types, 0
  {
    if types == [] then [] else [TypeToJson(types[0])] + TypesToJson(types[1..])
  }

  function StringsToJson(texts: seq<string>): (r: seq<Json>)
    ensures |r| == |texts| && forall i :: 0 <= i < |texts| ==> r[i] == JString(texts[i])
  {
    seq(|texts|, i requires 0 <= i < |texts| => JString(texts[i]))
  }

  // Aliases and semantic are written only when present; metadata never is.
  function FieldMembers(field: Field): IndexMap<Json>
    decreases field, 0
  {
    [Entry("name", JString(field.name)), Entry("nullable", JBool(field.nullable)), Entry("type", TypeToJson(field.ty))] +
    (if field.aliases != [] then [Entry("aliases", JArray(StringsToJson(field.aliases)))] else []) +
    (if field.semantic.Some? then [Entry("semantic", JString(field.semantic.value))] else [])
  }

  function FieldToJson(field: Field): Json
    decreases field, 1
  {
    JObject(FieldMembers(field))
  }

  function FieldsToJson(fields: seq<Field>): (r: seq<Json>)
    ensures |r| == |fields| && forall i :: 0 <= i < |fields| ==> r[i] == FieldToJson(fields[i])
    decreases fields, 0
  {
    if fields == [] then [] else [FieldToJson(fields[0])] + FieldsToJson(fields[1..])
  }

  function CanonicalText(ty: Type): string {
    CanonicalJson(TypeToJson(ty))
  }

  // ---------------------------------------------------------------------
  // Erasing metadata.
  // ---------------------------------------------------------------------

  function Erase(ty: Type): Type
    decreases ty
  {
    match ty
    case RecordType(fields) => RecordType(EraseFields(fields))
    case ListType(element, nullable) => ListType(Erase(element), nullable)
    case MapType(key, value, nullable) => MapType(Erase(key), Erase(value), nullable)
    case UnionType(variants) => UnionType(EraseTypes(variants))
    case _ => ty
  }

  function EraseField(field: Field): Field
    decreases field
  {
    field.(ty := Erase(field.ty), metadata := map[])
  }

  function EraseFields(fields: seq<Field>): (r: seq<Field>)
    ensures |r| == |fields| && forall i :: 0 <= i < |fields| ==> r[i] == EraseField(fields[i])
    decreases fields
  {
    if fields == [] then [] else [EraseField(fields[0])] + EraseFields(fields[1..])
  }

  function EraseTypes(types: seq<Type>): (r: seq<Type>)
    ensures |r| == |types| && forall i :: 0 <= i < |types| ==> r[i] == Erase(types[i])
    decreases types
  {
    if types == [] then [] else [Erase(types[0])] + EraseTypes(types[1..])
  }

  // ---------------------------------------------------------------------
  // Injectivity.
  // ---------------------------------------------------------------------

  lemma IntTextInjective(a: int, b: int)
    requires IntText(a) == IntText(b)
    ensures a == b
  {
    NatTextValue(if a < 0 then -a else a);
    NatTextValue(if b < 0 then -b else b);
    assert a < 0 ==> IntText(a)[0] == '-' && IntText(a)[1..] == NatText(-a);
    assert b < 0 ==> IntText(b)[0] == '-' && IntText(b)[1..] == NatText(-b);
    assert a >= 0 ==> IsDigit(IntText(a)[0]);
    assert b >= 0 ==> IsDigit(IntText(b)[0]);
  }

  lemma KindNamesDiffer(a: Type, b: Type)
    requires KindName(a) == KindName(b)
    ensures SameKind(a, b)
  {
    var s, t := KindName(a), KindName(b);
    assert |s| == |t|;
    assert s[0] == t[0] && s[1] == t[1] && s[2] == t[2];
    if |s| == 4 { assert s[3] == t[3]; }
  }

  lemma UnitNamesDiffer(a: TimeUnit, b: TimeUnit)
    requires UnitName(a) == UnitName(b)
    ensures a == b
  {
    assert |UnitName(a)| == |UnitName(b)|;
    assert UnitName(a)[1] == UnitName(b)[1];
    assert UnitName(a)[0] == UnitName(b)[0];
  }

  lemma MemberKeysUnique(ty: Type)
    ensures UniqueKeys(Members(ty))
  {
    AttributeKeysDiffer();
  }

  // Keys that occur together in one object.
  lemma AttributeKeysDiffer()
    ensures "bits" != "kind" && "bits" != "signed" && "signed" != "kind"
    ensures "precision" != "scale" && "precision" != "kind" && "scale" != "kind"
    ensures "unit" != "kind" && "unit" != "timezone" && "timezone" != "kind"
    ensures "fields" != "kind" && "variants" != "kind"
    ensures "element" != "elementNullable" && "element" != "kind" && "elementNullable" != "kind"
    ensures "key" != "value" && "key" != "valueNullable" && "value" != "valueNullable"
    ensures "key" != "kind" && "value" != "kind" && "valueNullable" != "kind"
  {
    assert "bits"[0] != "kind"[0];
    assert "unit"[0] != "kind"[0];
  }

  lemma FieldKeysUnique(field: Field)
    ensures UniqueKeys(FieldMembers(field))
    ensures HasKey(FieldMembers(field), "aliases") <==> field.aliases != []
    ensures HasKey(FieldMembers(field), "semantic") <==> field.semantic.Some?
  {
    assert "name"[0] != "type"[0];
    assert "nullable"[0] != "semantic"[0];
    var m := FieldMembers(field);
    if field.aliases != [] { assert m[3].key == "aliases"; }
    if field.semantic.Some? { assert m[|m| - 1].key == "semantic"; }
  }

  lemma {:induction false} TypeReadable(ty: Type)
    ensures Readable(TypeToJson(ty))
    decreases ty, 1
  {
    var members := Members(ty);
    forall i | 0 <= i < |members| ensures Readable(members[i].value) {
      if i < |Attributes(ty)| {
        assert members[i] == Attributes(ty)[i];
        AttributeReadable(ty, i);
      }
    }
  }

  lemma {:induction false} AttributeReadable(ty: Type, i: nat)
    requires i < |Attributes(ty)|
    ensures Readable(Attributes(ty)[i].value)
    decreases ty, 0
  {
    match ty
    case IntType(bits, _) => IntTextReadable(bits);
    case FloatType(bits) => IntTextReadable(bits);
    case DecimalType(precision, scale) => IntTextReadable(precision); IntTextReadable(scale);
    case RecordType(fields) =>
      forall k | 0 <= k < |fields| ensures Readable(FieldsToJson(fields)[k]) { FieldReadable(fields[k]); }
    case ListType(element, _) => TypeReadable(element);
    case MapType(key, value, _) => TypeReadable(key); TypeReadable(value);
    case UnionType(variants) =>
      forall k | 0 <= k < |variants| ensures Readable(TypesToJson(variants)[k]) { TypeReadable(variants[k]); }
    case _ =>
  }

  lemma {:induction false} FieldReadable(field: Field)
    ensures Readable(FieldToJson(field))
    decreases field
  {
    TypeReadable(field.ty);
    assert forall k :: 0 <= k < |field.aliases| ==> Readable(StringsToJson(field.aliases)[k]);
    var members := FieldMembers(field);
    forall i | 0 <= i < |members| ensures Readable(members[i].value) {
    }
  }

  // Two types whose documents have the same canonical form.
  ghost predicate SameText(a: Type, b: Type) {
    SortKeys(TypeToJson(a)) == SortKeys(TypeToJson(b))
  }

  // They agree member by member.
  lemma SameMember(a: Type, b: Type, i: nat, key: string, x: Json, y: Json)
    requires SameText(a, b)
    requires i < |Members(a)| && i < |Members(b)|
    requires Members(a)[i] == Entry(key, x) && Members(b)[i] == Entry(key, y)
    ensures SortKeys(x) == SortKeys(y)
  {
    MemberKeysUnique(b);
    SameCanonicalMember(Members(a), Members(b), i, i);
  }

  lemma SameKindFromText(a: Type, b: Type)
    requires SameText(a, b)
    ensures SameKind(a, b) && |Members(a)| == |Members(b)|
  {
    SameKindMember(Members(a), Members(b), Attributes(a), Attributes(b), KindName(a), KindName(b), b);
    KindNamesDiffer(a, b);
  }

  lemma SameKindMember(m: IndexMap<Json>, n: IndexMap<Json>, x: IndexMap<Json>, y: IndexMap<Json>, s: string, t: string, b: Type)
    requires SortKeys(JObject(m)) == SortKeys(JObject(n)) && n == Members(b)
    requires m == x + [Entry("kind", JString(s))] && n == y + [Entry("kind", JString(t))]
    ensures s == t && |m| == |n|
  {
    MemberKeysUnique(b);
    SameCanonicalMembers(m, n);
    SameCanonicalMember(m, n, |m| - 1, |n| - 1);
  }

  lemma IntInjective(a: Type, b: Type)
    requires SameText(a, b) && a.IntType? && b.IntType?
    ensures a == b
  {
    SameMember(a, b, 0, "bits", NumberJson(a.bits), NumberJson(b.bits));
    SameMember(a, b, 1, "signed", JBool(a.signed), JBool(b.signed));
    IntTextInjective(a.bits, b.bits);
  }

  lemma FloatInjective(a: Type, b: Type)
    requires SameText(a, b) && a.FloatType? && b.FloatType?
    ensures a == b
  {
    SameMember(a, b, 0, "bits", NumberJson(a.floatBits), NumberJson(b.floatBits));
    IntTextInjective(a.floatBits, b.floatBits);
  }

  lemma DecimalInjective(a: Type, b: Type)
    requires SameText(a, b) && a.DecimalType? && b.DecimalType?
    ensures a == b
  {
    SameMember(a, b, 0, "precision", NumberJson(a.precision), NumberJson(b.precision));
    SameMember(a, b, 1, "scale", NumberJson(a.scale), NumberJson(b.scale));
    IntTextInjective(a.precision, b.precision);
    IntTextInjective(a.scale, b.scale);
  }

  lemma UnitInjective(a: Type, b: Type, u: TimeUnit, v: TimeUnit)
    requires SameText(a, b)
    requires Members(a)[0] == Entry("unit", JString(UnitName(u))) && Members(b)[0] == Entry("unit", JString(UnitName(v)))
    ensures u == v
  {
    SameMember(a, b, 0, "unit", JString(UnitName(u)), JString(UnitName(v)));
    UnitNamesDiffer(u, v);
  }

  lemma ListParts(a: Type, b: Type)
    requires SameText(a, b) && a.ListType? && b.ListType?
    ensures SameText(a.element, b.element) && a.elementNullable == b.elementNullable
  {
    SameMember(a, b, 0, "element", TypeToJson(a.element), TypeToJson(b.element));
    SameMember(a, b, 1, "elementNullable", JBool(a.elementNullable), JBool(b.elementNullable));
  }

  lemma MapParts(a: Type, b: Type)
    requires SameText(a, b) && a.MapType? && b.MapType?
    ensures SameText(a.key, b.key) && SameText(a.value, b.value) && a.valueNullable == b.valueNullable
  {
    SameMember(a, b, 0, "key", TypeToJson(a.key), TypeToJson(b.key));
    MapValueParts(a, b);
  }

  lemma MapValueParts(a: Type, b: Type)
    requires SameText(a, b) && a.MapType? && b.MapType?
    ensures SameText(a.value, b.value) && a.valueNullable == b.valueNullable
  {
    SameMember(a, b, 1, "value", TypeToJson(a.value), TypeToJson(b.value));
    SameMember(a, b, 2, "valueNullable", JBool(a.valueNullable), JBool(b.valueNullable));
  }

  lemma RecordParts(a: Type, b: Type)
    requires SameText(a, b) && a.RecordType? && b.RecordType?
    ensures SortItems(FieldsToJson(a.fields)) == SortItems(FieldsToJson(b.fields))
  {
    SameMember(a, b, 0, "fields", JArray(FieldsToJson(a.fields)), JArray(FieldsToJson(b.fields)));
  }

  lemma UnionParts(a: Type, b: Type)
    requires SameText(a, b) && a.UnionType? && b.UnionType?
    ensures SortItems(TypesToJson(a.variants)) == SortItems(TypesToJson(b.variants))
  {
    SameMember(a, b, 0, "variants", JArray(TypesToJson(a.variants)), JArray(TypesToJson(b.variants)));
  }

  lemma {:induction false} TypeInjective(a: Type, b: Type)
    requires SameText(a, b)
    ensures Erase(a) == Erase(b)
    decreases a
  {
    SameKindFromText(a, b);
    match a
    case IntType(_, _) => IntInjective(a, b);
    case FloatType(_) => FloatInjective(a, b);
    case DecimalType(_, _) => DecimalInjective(a, b);
    case TimeType(_) => UnitInjective(a, b, a.unit, b.unit);
    case DurationType(_) => UnitInjective(a, b, a.unit, b.unit);
    case TimestampType(_, _) => TimestampInjective(a, b);
    case RecordType(fields) => RecordParts(a, b); FieldsInjective(fields, b.fields);
    case ListType(element, _) => ListParts(a, b); TypeInjective(element, b.element);
    case MapType(key, value, _) => MapParts(a, b); TypeInjective(key, b.key); TypeInjective(value, b.value);
    case UnionType(variants) => UnionParts(a, b); TypesInjective(variants, b.variants);
    case _ =>
  }

  lemma TimestampInjective(a: Type, b: Type)
    requires SameText(a, b) && a.TimestampType? && b.TimestampType?
    ensures a == b
  {
    SameKindFromText(a, b);
    UnitInjective(a, b, a.unit, b.unit);
    if a.timezone.Some? {
      SameMember(a, b, 1, "timezone", JString(a.timezone.value), JString(b.timezone.value));
    }
  }

  lemma {:induction false} TypesInjective(a: seq<Type>, b: seq<Type>)
    requires SortItems(TypesToJson(a)) == SortItems(TypesToJson(b))
    ensures EraseTypes(a) == EraseTypes(b)
    decreases a
  {
    assert |a| == |b|;
    forall i | 0 <= i < |a| ensures Erase(a[i]) == Erase(b[i]) {
      assert SortItems(TypesToJson(a))[i] == SortKeys(TypeToJson(a[i]));
      assert SortItems(TypesToJson(b))[i] == SortKeys(TypeToJson(b[i]));
      TypeInjective(a[i], b[i]);
    }
  }

  lemma {:induction false} FieldsInjective(a: seq<Field>, b: seq<Field>)
    requires SortItems(FieldsToJson(a)) == SortItems(FieldsToJson(b))
    ensures EraseFields(a) == EraseFields(b)
    decreases a
  {
    assert |a| == |b|;
    forall i | 0 <= i < |a| ensures EraseField(a[i]) == EraseField(b[i]) {
      assert SortItems(FieldsToJson(a))[i] == SortKeys(FieldToJson(a[i]));
      assert SortItems(FieldsToJson(b))[i] == SortKeys(FieldToJson(b[i]));
      FieldInjective(a[i], b[i]);
    }
  }

  lemma StringsInjective(a: seq<string>, b: seq<string>)
    requires SortKeys(JArray(StringsToJson(a))) == SortKeys(JArray(StringsToJson(b)))
    ensures a == b
  {
    var x, y := SortItems(StringsToJson(a)), SortItems(StringsToJson(b));
    assert x == y && |a| == |b|;
    forall i | 0 <= i < |a| ensures a[i] == b[i] {
      assert x[i] == JString(a[i]) && y[i] == JString(b[i]);
    }
  }

  lemma FieldLabelsInjective(a: Field, b: Field)
    requires SortKeys(FieldToJson(a)) == SortKeys(FieldToJson(b))
    ensures a.name == b.name && a.nullable == b.nullable && SortKeys(TypeToJson(a.ty)) == SortKeys(TypeToJson(b.ty))
  {
    var m, n := FieldMembers(a), FieldMembers(b);
    FieldKeysUnique(b);
    SameCanonicalMember(m, n, 0, 0);
    SameCanonicalMember(m, n, 1, 1);
    SameCanonicalMember(m, n, 2, 2);
  }

  lemma AliasesInjective(a: Field, b: Field)
    requires SortKeys(FieldToJson(a)) == SortKeys(FieldToJson(b))
    ensures a.aliases == b.aliases
  {
    var m, n := FieldMembers(a), FieldMembers(b);
    FieldKeysUnique(a);
    FieldKeysUnique(b);
    SameCanonicalKeys(m, n, "aliases");
    SameCanonicalKeys(n, m, "aliases");
    if a.aliases != [] {
      assert m[3] == Entry("aliases", JArray(StringsToJson(a.aliases)));
      assert n[3] == Entry("aliases", JArray(StringsToJson(b.aliases)));
      SameCanonicalMember(m, n, 3, 3);
      StringsInjective(a.aliases, b.aliases);
    }
  }

  lemma SemanticInjective(a: Field, b: Field)
    requires SortKeys(FieldToJson(a)) == SortKeys(FieldToJson(b))
    ensures a.semantic == b.semantic
  {
    var m, n := FieldMembers(a), FieldMembers(b);
    FieldKeysUnique(a);
    FieldKeysUnique(b);
    SameCanonicalKeys(m, n, "semantic");
    SameCanonicalKeys(n, m, "semantic");
    if a.semantic.Some? {
      assert m[|m| - 1] == Entry("semantic", JString(a.semantic.value));
      assert n[|n| - 1] == Entry("semantic", JString(b.semantic.value));
      SameCanonicalMember(m, n, |m| - 1, |n| - 1);
    }
  }

  lemma {:induction false} FieldInjective(a: Field, b: Field)
    requires SortKeys(FieldToJson(a)) == SortKeys(FieldToJson(b))
    ensures EraseField(a) == EraseField(b)
    decreases a
  {
    FieldLabelsInjective(a, b);
    TypeInjective(a.ty, b.ty);
    AliasesInjective(a, b);
    SemanticInjective(a, b);
  }

  // Metadata never reaches the text.
  lemma {:induction false} EraseKeepsJson(ty: Type)
    ensures Attributes(Erase(ty)) == Attributes(ty) && TypeToJson(Erase(ty)) == TypeToJson(ty)
    decreases ty
  {
    match ty
    case RecordType(fields) =>
      FieldsKeepJson(fields);
      assert Attributes(Erase(ty)) == Attributes(ty);
    case ListType(element, _) =>
      EraseKeepsJson(element);
      assert Attributes(Erase(ty)) == Attributes(ty);
    case MapType(key, value, _) =>
      EraseKeepsJson(key);
      EraseKeepsJson(value);
      assert Attributes(Erase(ty)) == Attributes(ty);
    case UnionType(variants) =>
      TypesKeepJson(variants);
      assert Attributes(Erase(ty)) == Attributes(ty);
    case _ =>
  }

  lemma {:induction false} TypesKeepJson(types: seq<Type>)
    ensures TypesToJson(EraseTypes(types)) == TypesToJson(types)
    decreases types
  {
    var x, y := TypesToJson(EraseTypes(types)), TypesToJson(types);
    forall i | 0 <= i < |types| ensures x[i] == y[i] {
      EraseKeepsJson(types[i]);
    }
  }

  lemma {:induction false} FieldsKeepJson(fields: seq<Field>)
    ensures FieldsToJson(EraseFields(fields)) == FieldsToJson(fields)
    decreases fields
  {
    var x, y := FieldsToJson(EraseFields(fields)), FieldsToJson(fields);
    forall i | 0 <= i < |fields| ensures x[i] == y[i] {
      EraseKeepsJson(fields[i].ty);
      assert FieldMembers(EraseField(fields[i])) == FieldMembers(fields[i]);
    }
  }

  // A digest that keeps different canonical texts apart.
  ghost predicate DigestOfText(fingerprint: Type -> string) {
    forall a, b :: fingerprint(a) == fingerprint(b) <==> CanonicalText(a) == CanonicalText(b)
  }

  // Under such a digest, equal fingerprints mean equal schemas up to metadata.
  lemma FingerprintsIdentify(fingerprint: Type -> string, a: Type, b: Type)
    requires DigestOfText(fingerprint)
    ensures fingerprint(a) == fingerprint(b) <==> Erase(a) == Erase(b)
  {
    FingerprintTextInjective(a, b);
  }

  // The fingerprinted text identifies a schema up to metadata.
  lemma FingerprintTextInjective(a: Type, b: Type)
    ensures CanonicalText(a) == CanonicalText(b) <==> Erase(a) == Erase(b)
  {
    TypeReadable(a);
    TypeReadable(b);
    CanonicalInjective(TypeToJson(a), TypeToJson(b));
    EraseKeepsJson(a);
    EraseKeepsJson(b);
    if CanonicalText(a) == CanonicalText(b) {
      TypeInjective(a, b);
    }
  }
}
