// What survives the way of a core type to JSON Schema 2020-12 and back: field
// order, nullability and, for most types, acceptance.
module JsonSchemaLaws {
  import opened Results
  import opened IndexMaps
  import opened Values
  import opened Schemas
  import opened Validation
  import opened Jsons
  import opened JsonSchema
  import Inclusion

  // The type a core type comes back as: widths, precision and list element
  // nullability go, decimals become strings, field order and nullability stay.
  function Returned(ty: Type): Type
    decreases ty
  {
    match ty
    case NullType => NullType
    case BoolType => BoolType
    case IntType(_, _) => IntType(64, true)
    case FloatType(_) => FloatType(64)
    case DecimalType(_, _) => StringType
    case StringType => StringType
    case DateType => StringType
    case TimestampType(_, _) => StringType
    case BinaryType => StringType
    case RecordType(fields) => RecordType(ReturnedFields(fields))
    case ListType(element, _) => ListType(Returned(element), true)
    case UnionType(variants) => UnionType(ReturnedTypes(variants))
    case _ => RecordType([])
  }

  function ReturnedFields(fields: seq<Field>): (r: seq<Field>)
    ensures |r| == |fields|
    ensures forall i :: 0 <= i < |fields| ==> r[i] == NewField(fields[i].name, Returned(fields[i].ty), fields[i].nullable)
    decreases fields
  {
    if fields == [] then [] else
      var last := fields[|fields| - 1];
      ReturnedFields(fields[..|fields| - 1]) + [NewField(last.name, Returned(last.ty), last.nullable)]
  }

  function ReturnedTypes(types: seq<Type>): (r: seq<Type>)
    ensures |r| == |types| && forall i :: 0 <= i < |types| ==> r[i] == Returned(types[i])
    decreases types
  {
    if types == [] then [] else ReturnedTypes(types[..|types| - 1]) + [Returned(types[|types| - 1])]
  }

  // Field names are distinct in every record the conversion visits.
  predicate DistinctNames(ty: Type)
    decreases ty
  {
    match ty
    case RecordType(fields) =>
      UniqueNames(fields) && forall i :: 0 <= i < |fields| ==> DistinctNames(fields[i].ty)
    case ListType(element, _) => DistinctNames(element)
    case UnionType(variants) => forall i :: 0 <= i < |variants| ==> DistinctNames(variants[i])
    case _ => true
  }

  // ---------------------------------------------------------------------
  // The documents the writer produces, as the reader sees them.
  // ---------------------------------------------------------------------

  lemma {:induction false} PropertiesInOrder(fields: seq<Field>)
    requires UniqueNames(fields)
    ensures var p := Properties(fields);
            |p| == |fields| && forall i :: 0 <= i < |fields| ==> p[i] == Entry(fields[i].name, TypeToSchema(fields[i].ty))
  {
    if fields != [] {
      var n := |fields| - 1;
      PropertiesInOrder(fields[..n]);
      InsertFresh(Properties(fields[..n]), fields[n].name, TypeToSchema(fields[n].ty));
    }
  }

  predicate Demands(f: Field, name: string) {
    f.name == name && !f.nullable
  }

  predicate Demanded(fields: seq<Field>, name: string) {
    exists i :: 0 <= i < |fields| && Demands(fields[i], name)
  }

  lemma DemandedSnoc(front: seq<Field>, last: Field, name: string)
    ensures Demanded(front + [last], name) <==> Demanded(front, name) || Demands(last, name)
  {
    var all := front + [last];
    if Demanded(front, name) {
      var i :| 0 <= i < |front| && Demands(front[i], name);
      assert Demands(all[i], name);
    }
    assert Demands(last, name) ==> Demands(all[|front|], name);
  }

  lemma {:induction false} RequiredTexts(fields: seq<Field>, name: string)
    ensures name in TextsOf(RequiredList(fields)) <==> Demanded(fields, name)
  {
    if fields != [] {
      var n := |fields| - 1;
      RequiredTexts(fields[..n], name);
      assert fields == fields[..n] + [fields[n]];
      LastRequired(fields[..n], fields[n], name);
      DemandedSnoc(fields[..n], fields[n], name);
    }
  }

  lemma LastRequired(front: seq<Field>, last: Field, name: string)
    ensures name in TextsOf(RequiredList(front + [last])) <==> name in TextsOf(RequiredList(front)) || Demands(last, name)
  {
    assert (front + [last])[..|front|] == front;
    if last.nullable {
      assert RequiredList(front) + [] == RequiredList(front);
    } else {
      TextsSnoc(RequiredList(front), last.name);
    }
  }

  lemma TextsSnoc(items: seq<Json>, text: string)
    ensures TextsOf(items + [JString(text)]) == TextsOf(items) + [text]
  {
    assert (items + [JString(text)])[..|items|] == items;
  }

  lemma RecordMembers(properties: IndexMap<Json>, required: seq<Json>)
    ensures var d := RecordDocument(properties, required);
            && Member(d, "$ref") == None && Member(d, "oneOf") == None && Member(d, "anyOf") == None && Member(d, "allOf") == None
            && Member(d, "type") == Some(JString("object")) && Member(d, "properties") == Some(JObject(properties))
            && Member(d, "required") == if required == [] then None else Some(JArray(required))
  {
    forall key ensures Member(RecordDocument(properties, required), key) ==
                       if key == "type" then Some(JString("object"))
                       else if key == "properties" then Some(JObject(properties))
                       else if key == "required" && required != [] then Some(JArray(required))
                       else None
    {
      GetShort(RecordDocument(properties, required).members, key);
    }
  }

  lemma TagMembers(name: string)
    ensures var d := TypeTag(name);
            && Member(d, "$ref") == None && Member(d, "oneOf") == None && Member(d, "anyOf") == None && Member(d, "allOf") == None
            && Member(d, "type") == Some(JString(name)) && Member(d, "properties") == None
  {
    forall key ensures Member(TypeTag(name), key) == if key == "type" then Some(JString(name)) else None {
      GetShort(TypeTag(name).members, key);
    }
  }

  function ListDocument(element: Json): Json {
    JObject([Entry("type", JString("array")), Entry("items", element)])
  }

  lemma ListMembers(element: Json)
    ensures var d := ListDocument(element);
            && Member(d, "$ref") == None && Member(d, "oneOf") == None && Member(d, "anyOf") == None && Member(d, "allOf") == None
            && Member(d, "type") == Some(JString("array")) && Member(d, "items") == Some(element)
  {
    forall key ensures Member(ListDocument(element), key) ==
                       if key == "type" then Some(JString("array")) else if key == "items" then Some(element) else None
    {
      GetShort(ListDocument(element).members, key);
    }
  }

  function UnionDocument(variants: seq<Json>): Json {
    JObject([Entry("anyOf", JArray(variants))])
  }

  lemma UnionMembers(variants: seq<Json>)
    ensures var d := UnionDocument(variants);
            Member(d, "$ref") == None && Member(d, "oneOf") == None && Member(d, "type") == None && Member(d, "anyOf") == Some(JArray(variants))
  {
    forall key ensures Member(UnionDocument(variants), key) == if key == "anyOf" then Some(JArray(variants)) else None {
      GetShort(UnionDocument(variants).members, key);
    }
  }

  // A node with a type name and no combinator is read by that name.
  lemma ReadByName(node: Json, root: Root)
    requires Member(node, "$ref") == None && Member(node, "oneOf") == None && Member(node, "anyOf") == None && Member(node, "allOf") == None
    requires Member(node, "type").Some? && Member(node, "type").value.JString?
    ensures TypeFromSchema(node, root) == ScalarOrCompound(node, root)
  {
  }

  lemma ReadByUnion(node: Json, items: seq<Json>, variants: seq<Type>, root: Root)
    requires Member(node, "$ref") == None && Member(node, "oneOf") == None && Member(node, "type") == None
    requires Member(node, "anyOf") == Some(JArray(items)) && Gather(ReadAll(items, root)) == Ok(variants)
    ensures TypeFromSchema(node, root) == Ok(UnionType(variants))
  {
  }

  lemma ReadByProperties(node: Json, properties: IndexMap<Json>, required: seq<string>, fields: seq<Field>, root: Root)
    requires Member(node, "type") == Some(JString("object")) && Member(node, "properties") == Some(JObject(properties))
    requires RequiredNames(node) == required && GatherFields(properties, ReadProperties(properties, root), required) == Ok(fields)
    ensures ScalarOrCompound(node, root) == Ok(RecordType(fields))
  {
  }

  lemma ReadByItems(node: Json, items: Json, element: Type, root: Root)
    requires Member(node, "type") == Some(JString("array")) && Member(node, "items") == Some(items)
    requires !items.JNull? && TypeFromSchema(items, root) == Ok(element)
    ensures ScalarOrCompound(node, root) == Ok(ListType(element, true))
  {
  }

  // ---------------------------------------------------------------------
  // The round trip.
  // ---------------------------------------------------------------------

  // Every type with distinct field names converts, and comes back as its
  // returned form: the same fields, in order, with the same nullability.
  lemma {:induction false} RoundTrip(ty: Type, root: Root)
    requires DistinctNames(ty)
    ensures TypeFromSchema(TypeToSchema(ty), root) == Ok(Returned(ty))
    decreases ty
  {
    match ty
    case RecordType(fields) =>
      forall i | 0 <= i < |fields| ensures ComesBack(fields[i].ty, root) {
        RoundTrip(fields[i].ty, root);
      }
      RecordRoundTrip(fields, root);
    case ListType(element, nullable) =>
      RoundTrip(element, root);
      ListRoundTrip(element, nullable, root);
    case UnionType(variants) =>
      forall i | 0 <= i < |variants| ensures ComesBack(variants[i], root) {
        RoundTrip(variants[i], root);
      }
      UnionRoundTrip(variants, root);
    case _ =>
      ScalarRoundTrip(ty, root);
  }

  ghost predicate ComesBack(ty: Type, root: Root) {
    TypeFromSchema(TypeToSchema(ty), root) == Ok(Returned(ty))
  }

  lemma ScalarRoundTrip(ty: Type, root: Root)
    requires !ty.RecordType? && !ty.ListType? && !ty.UnionType?
    ensures ComesBack(ty, root)
  {
    ReadTag(TypeToSchema(ty).members[0].value.text, root);
  }

  lemma ReadTag(name: string, root: Root)
    ensures TypeFromSchema(TypeTag(name), root) == ScalarOrCompound(TypeTag(name), root)
    ensures Member(TypeTag(name), "type") == Some(JString(name)) && Member(TypeTag(name), "properties") == None
  {
    TagMembers(name);
    ReadByName(TypeTag(name), root);
  }

  lemma ListRoundTrip(element: Type, nullable: bool, root: Root)
    requires ComesBack(element, root)
    ensures ComesBack(ListType(element, nullable), root)
  {
    ReadItemsDocument(TypeToSchema(element), Returned(element), root);
    assert TypeToSchema(ListType(element, nullable)) == ListDocument(TypeToSchema(element));
  }

  lemma ReadItemsDocument(items: Json, element: Type, root: Root)
    requires !items.JNull? && TypeFromSchema(items, root) == Ok(element)
    ensures TypeFromSchema(ListDocument(items), root) == Ok(ListType(element, true))
  {
    ListMembers(items);
    ReadByItems(ListDocument(items), items, element, root);
    ReadByName(ListDocument(items), root);
  }

  lemma {:induction false} Gathered(read: seq<Result<Type>>, types: seq<Type>)
    requires |read| == |types| && forall i :: 0 <= i < |read| ==> read[i] == Ok(types[i])
    ensures Gather(read) == Ok(types)
  {
    if read != [] {
      var n := |read| - 1;
      Gathered(read[..n], types[..n]);
      assert types == types[..n] + [types[n]];
    }
  }

  lemma ItemReturned(variants: seq<Type>, i: nat, root: Root)
    requires i < |variants| && ComesBack(variants[i], root)
    ensures ReadAll(SchemasOf(variants), root)[i] == Ok(ReturnedTypes(variants)[i])
  {
    var items := SchemasOf(variants);
    assert ReadAll(items, root)[i] == TypeFromSchema(items[i], root);
  }

  lemma ItemsReturned(variants: seq<Type>, root: Root)
    requires forall i :: 0 <= i < |variants| ==> ComesBack(variants[i], root)
    ensures Gather(ReadAll(SchemasOf(variants), root)) == Ok(ReturnedTypes(variants))
  {
    var read := ReadAll(SchemasOf(variants), root);
    forall i | 0 <= i < |variants| ensures read[i] == Ok(ReturnedTypes(variants)[i]) {
      ItemReturned(variants, i, root);
    }
    Gathered(read, ReturnedTypes(variants));
  }

  lemma UnionRoundTrip(variants: seq<Type>, root: Root)
    requires forall i :: 0 <= i < |variants| ==> ComesBack(variants[i], root)
    ensures ComesBack(UnionType(variants), root)
  {
    ItemsReturned(variants, root);
    ReadUnionDocument(SchemasOf(variants), ReturnedTypes(variants), root);
    UnionWritten(variants);
  }

  lemma UnionWritten(variants: seq<Type>)
    ensures TypeToSchema(UnionType(variants)) == UnionDocument(SchemasOf(variants))
    ensures Returned(UnionType(variants)) == UnionType(ReturnedTypes(variants))
  {
    var ty := UnionType(variants);
    assert ty.variants == variants;
  }

  lemma ReadUnionDocument(items: seq<Json>, variants: seq<Type>, root: Root)
    requires Gather(ReadAll(items, root)) == Ok(variants)
    ensures TypeFromSchema(UnionDocument(items), root) == Ok(UnionType(variants))
  {
    UnionMembers(items);
    ReadByUnion(UnionDocument(items), items, variants, root);
  }

  // The properties name the fields, and the required list marks exactly the
  // fields that are not nullable.
  predicate Describes(fields: seq<Field>, properties: IndexMap<Json>, required: seq<string>) {
    && |properties| == |fields|
    && forall i :: 0 <= i < |fields| ==>
         properties[i].key == fields[i].name && (fields[i].name in required <==> !fields[i].nullable)
  }

  lemma {:induction false} FieldsGathered(fields: seq<Field>, properties: IndexMap<Json>, required: seq<string>, read: seq<Result<Type>>)
    requires Describes(fields, properties, required) && |read| == |fields|
    requires forall i :: 0 <= i < |fields| ==> read[i] == Ok(Returned(fields[i].ty))
    ensures GatherFields(properties, read, required) == Ok(ReturnedFields(fields))
    decreases |fields|
  {
    if fields != [] {
      var n := |fields| - 1;
      FieldsGathered(fields[..n], properties[..n], required, read[..n]);
      assert properties[n].key == fields[n].name;
    }
  }

  lemma RequiredExactly(fields: seq<Field>, i: nat)
    requires UniqueNames(fields) && i < |fields|
    ensures fields[i].name in TextsOf(RequiredList(fields)) <==> !fields[i].nullable
  {
    RequiredTexts(fields, fields[i].name);
    assert !fields[i].nullable ==> Demands(fields[i], fields[i].name);
  }

  lemma WrittenDescribes(fields: seq<Field>)
    requires UniqueNames(fields)
    ensures Describes(fields, Properties(fields), TextsOf(RequiredList(fields)))
  {
    PropertiesInOrder(fields);
    forall i | 0 <= i < |fields| ensures fields[i].name in TextsOf(RequiredList(fields)) <==> !fields[i].nullable {
      RequiredExactly(fields, i);
    }
  }

  lemma RecordRoundTrip(fields: seq<Field>, root: Root)
    requires UniqueNames(fields) && forall i :: 0 <= i < |fields| ==> ComesBack(fields[i].ty, root)
    ensures ComesBack(RecordType(fields), root)
  {
    var properties := Properties(fields);
    WrittenDescribes(fields);
    PropertiesInOrder(fields);
    forall i | 0 <= i < |fields| ensures ReadProperties(properties, root)[i] == Ok(Returned(fields[i].ty)) {
      assert ComesBack(fields[i].ty, root);
    }
    FieldsGathered(fields, properties, TextsOf(RequiredList(fields)), ReadProperties(properties, root));
    ReadRecordDocument(properties, RequiredList(fields), ReturnedFields(fields), root);
  }

  lemma ReadRecordDocument(properties: IndexMap<Json>, required: seq<Json>, fields: seq<Field>, root: Root)
    requires GatherFields(properties, ReadProperties(properties, root), TextsOf(required)) == Ok(fields)
    ensures TypeFromSchema(RecordDocument(properties, required), root) == Ok(RecordType(fields))
  {
    var d := RecordDocument(properties, required);
    RecordMembers(properties, required);
    ReadByProperties(d, properties, TextsOf(required), fields, root);
    ReadByName(d, root);
  }

  // ---------------------------------------------------------------------
  // Acceptance.
  // ---------------------------------------------------------------------

  ghost predicate SameValues(a: Type, b: Type) {
    forall value :: Accepts(a, value) <==> Accepts(b, value)
  }

  // Built from null, bool, int, float, decimal, string, record, list, union.
  predicate Expressible(ty: Type)
    decreases ty
  {
    match ty
    case RecordType(fields) => forall i :: 0 <= i < |fields| ==> Expressible(fields[i].ty)
    case ListType(element, _) => Expressible(element)
    case UnionType(variants) => forall i :: 0 <= i < |variants| ==> Expressible(variants[i])
    case _ => ty.NullType? || ty.BoolType? || ty.IntType? || ty.FloatType? || ty.DecimalType? || ty.StringType?
  }

  lemma {:induction false} ReturnedAccepts(ty: Type, value: Value)
    requires Expressible(ty)
    ensures Accepts(ty, value) <==> Accepts(Returned(ty), value)
    decreases ty, 1
  {
    match ty
    case RecordType(fields) =>
      if value.Object? {
        RecordReturned(fields, value.fields);
      }
    case ListType(element, _) =>
      if value.Array? {
        ListReturned(element, value.items);
      }
    case UnionType(variants) => UnionReturned(variants, value);
    case _ =>
  }

  lemma {:induction false} ListReturned(element: Type, items: seq<Value>)
    requires Expressible(element)
    ensures ValidateList(element, items).Ok? <==> ValidateList(Returned(element), items).Ok?
    decreases element, 2
  {
    forall i | 0 <= i < |items| ensures Accepts(element, items[i]) <==> Accepts(Returned(element), items[i]) {
      ReturnedAccepts(element, items[i]);
    }
    SameElementwise(element, Returned(element), items);
  }

  lemma {:induction false} UnionReturned(variants: seq<Type>, value: Value)
    requires Expressible(UnionType(variants))
    ensures Accepts(UnionType(variants), value) <==> Accepts(UnionType(ReturnedTypes(variants)), value)
    decreases UnionType(variants), 0
  {
    var returned := ReturnedTypes(variants);
    forall i | 0 <= i < |variants| ensures Accepts(variants[i], value) <==> Accepts(returned[i], value) {
      ReturnedAccepts(variants[i], value);
    }
    SameVariantwise(variants, returned, value);
  }

  lemma {:induction false} RecordReturned(fields: seq<Field>, entries: IndexMap<Value>)
    requires Expressible(RecordType(fields))
    ensures ValidateObject(fields, entries).Ok? <==> ValidateObject(ReturnedFields(fields), entries).Ok?
    decreases RecordType(fields), 0
  {
    var returned := ReturnedFields(fields);
    forall i | 0 <= i < |fields| ensures FieldAccepts(fields[i], entries) <==> FieldAccepts(returned[i], entries) {
      match Get(entries, fields[i].name)
      case Some(inner) => ReturnedAccepts(fields[i].ty, inner);
      case None =>
    }
    SameFieldwise(fields, returned, entries);
  }

  lemma SameFieldwise(a: seq<Field>, b: seq<Field>, entries: IndexMap<Value>)
    requires |a| == |b| && forall i :: 0 <= i < |a| ==> (FieldAccepts(a[i], entries) <==> FieldAccepts(b[i], entries))
    ensures ValidateObject(a, entries).Ok? <==> ValidateObject(b, entries).Ok?
  {
    ObjectAccepted(a, entries);
    ObjectAccepted(b, entries);
  }

  lemma SameElementwise(a: Type, b: Type, items: seq<Value>)
    requires forall i :: 0 <= i < |items| ==> (Accepts(a, items[i]) <==> Accepts(b, items[i]))
    ensures ValidateList(a, items).Ok? <==> ValidateList(b, items).Ok?
  {
    ListAccepted(a, items);
    ListAccepted(b, items);
  }

  lemma SameVariantwise(a: seq<Type>, b: seq<Type>, value: Value)
    requires |a| == |b| && forall i :: 0 <= i < |a| ==> (Accepts(a[i], value) <==> Accepts(b[i], value))
    ensures ValidateUnion(a, value).Ok? <==> ValidateUnion(b, value).Ok?
  {
    UnionAccepted(a, value);
    UnionAccepted(b, value);
  }

  // Expressible types come back accepting exactly the same values.
  lemma RoundTripKeepsValues(ty: Type, root: Root)
    requires Expressible(ty) && DistinctNames(ty)
    ensures TypeFromSchema(TypeToSchema(ty), root) == Ok(Returned(ty)) && SameValues(ty, Returned(ty))
  {
    RoundTrip(ty, root);
    forall value ensures Accepts(ty, value) <==> Accepts(Returned(ty), value) {
      ReturnedAccepts(ty, value);
    }
  }

  // Among types without parts, the expressible ones are the only ones that
  // do: dates, times, binaries and maps come back wider, any and unknown
  // narrower.
  lemma AtomsKeepValues(ty: Type)
    requires !ty.RecordType? && !ty.ListType? && !ty.UnionType?
    ensures SameValues(ty, Returned(ty)) <==> Expressible(ty)
  {
    if Expressible(ty) {
      forall value ensures Accepts(ty, value) <==> Accepts(Returned(ty), value) {
        ReturnedAccepts(ty, value);
      }
    } else if ty.AnyType? || ty.UnknownType? {
      assert Accepts(ty, Bool(true)) && !Accepts(Returned(ty), Bool(true));
    } else if ty.DateType? || ty.TimestampType? || ty.BinaryType? {
      assert !Accepts(ty, String("")) && Accepts(Returned(ty), String(""));
    } else {
      assert !Accepts(ty, Object([])) && Accepts(Returned(ty), Object([]));
    }
  }

  // For any type, whether it comes back accepting exactly the same values is
  // decided by comparing the two types.
  lemma RoundTripDecided(ty: Type, root: Root)
    requires DistinctNames(ty)
    ensures TypeFromSchema(TypeToSchema(ty), root) == Ok(Returned(ty))
    ensures SameValues(ty, Returned(ty)) <==>
            Inclusion.Covers([ty], [Returned(ty)]) && Inclusion.Covers([Returned(ty)], [ty])
  {
    RoundTrip(ty, root);
    Inclusion.InclusionDecided(ty, Returned(ty));
    Inclusion.InclusionDecided(Returned(ty), ty);
  }
}
