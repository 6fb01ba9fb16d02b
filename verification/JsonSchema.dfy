// Conversion between core types and JSON Schema documents.
module JsonSchema {
  import opened Results
  import opened IndexMaps
  import opened Schemas
  import opened Jsons

  // ---------------------------------------------------------------------
  // Core types to JSON Schema.
  // ---------------------------------------------------------------------

  function TypeTag(name: string): Json {
    JObject([Entry("type", JString(name))])
  }

  function TypeToSchema(ty: Type): Json
    decreases ty, 1
  {
    match ty
    case NullType => TypeTag("null")
    case BoolType => TypeTag("boolean")
    case IntType(_, _) => TypeTag("integer")
    case FloatType(_) => TypeTag("number")
    case DecimalType(_, _) => TypeTag("string")
    case StringType => TypeTag("string")
    case DateType => TypeTag("string")
    case TimestampType(_, _) => TypeTag("string")
    case BinaryType => TypeTag("string")
    case RecordType(fields) => RecordDocument(Properties(fields), RequiredList(fields))
    case ListType(element, _) => JObject([Entry("type", JString("array")), Entry("items", TypeToSchema(element))])
    case UnionType(variants) => JObject([Entry("anyOf", JArray(SchemasOf(variants)))])
    case _ => TypeTag("object")
  }

  function SchemasOf(types: seq<Type>): (r: seq<Json>)
    ensures |r| == |types| && forall i :: 0 <= i < |types| ==> r[i] == TypeToSchema(types[i])
    decreases types, 0
  {
    if types == [] then [] else [TypeToSchema(types[0])] + SchemasOf(types[1..])
  }

  function Properties(fields: seq<Field>): IndexMap<Json>
    decreases fields, 0
  {
    if fields == [] then [] else
      var last := fields[|fields| - 1];
      Insert(Properties(fields[..|fields| - 1]), last.name, TypeToSchema(last.ty))
  }

  function RequiredList(fields: seq<Field>): seq<Json> {
    if fields == [] then [] else
      var last := fields[|fields| - 1];
      RequiredList(fields[..|fields| - 1]) + (if last.nullable then [] else [JString(last.name)])
  }

  // An empty requirement list is not written.
  function RecordDocument(properties: IndexMap<Json>, required: seq<Json>): Json {
    JObject([Entry("type", JString("object")), Entry("properties", JObject(properties))] +
            (if required == [] then [] else [Entry("required", JArray(required))]))
  }

  // The same document, built by pushing onto both lists.
  method RecordSchema(fields: seq<Field>) returns (document: Json)
    ensures document == TypeToSchema(RecordType(fields))
  {
    var properties: IndexMap<Json> := [];
    var required: seq<Json> := [];
    for i := 0 to |fields|
      invariant properties == Properties(fields[..i]) && required == RequiredList(fields[..i])
    {
      assert fields[..i + 1][..i] == fields[..i];
      properties := Insert(properties, fields[i].name, TypeToSchema(fields[i].ty));
      if !fields[i].nullable {
        required := required + [JString(fields[i].name)];
      }
    }
    assert fields[..|fields|] == fields;
    document := RecordDocument(properties, required);
  }

  // ---------------------------------------------------------------------
  // Sizes, for termination.
  // ---------------------------------------------------------------------

  function Size(node: Json): nat
    decreases node
  {
    match node
    case JArray(items) => 1 + SizeAll(items)
    case JObject(members) => 1 + SizeMembers(members)
    case _ => 1
  }

  function SizeAll(items: seq<Json>): nat
    decreases items
  {
    if items == [] then 0 else SizeAll(items[..|items| - 1]) + Size(items[|items| - 1])
  }

  function SizeMembers(members: IndexMap<Json>): nat
    decreases members
  {
    if members == [] then 0 else SizeMembers(members[1..]) + Size(members[0].value)
  }

  lemma {:induction false} SizePrefix(items: seq<Json>, n: nat)
    requires n <= |items|
    ensures SizeAll(items[..n]) <= SizeAll(items)
    ensures n < |items| ==> Size(items[n]) <= SizeAll(items)
    decreases |items|
  {
    if n < |items| {
      var front := items[..|items| - 1];
      SizePrefix(front, n);
      assert front[..n] == items[..n];
      assert n < |front| ==> front[n] == items[n];
    } else {
      assert items[..n] == items;
    }
  }

  lemma {:induction false} SizeOfMember(members: IndexMap<Json>, n: nat)
    requires n < |members|
    ensures Size(members[n].value) <= SizeMembers(members)
  {
    if n > 0 {
      SizeOfMember(members[1..], n - 1);
    }
  }

  lemma {:induction false} InsertSize(members: IndexMap<Json>, key: string, value: Json)
    requires Get(members, key).Some?
    ensures SizeMembers(Insert(members, key, value)) + Size(Get(members, key).value) == SizeMembers(members) + Size(value)
  {
    if members[0].key != key {
      InsertSize(members[1..], key, value);
      assert ([members[0]] + Insert(members[1..], key, value))[1..] == Insert(members[1..], key, value);
    } else {
      assert ([Entry(key, value)] + members[1..])[1..] == members[1..];
    }
  }

  function Member(node: Json, key: string): Option<Json> {
    if node.JObject? then Get(node.members, key) else None
  }

  lemma MemberSmaller(node: Json, key: string)
    ensures Member(node, key).Some? ==> Size(Member(node, key).value) < Size(node)
  {
    if Member(node, key).Some? {
      var i := GetFirst(node.members, key);
      SizeOfMember(node.members, i);
    }
  }

  lemma RetypedSmaller(node: Json, n: nat)
    requires Member(node, "type").Some? && Member(node, "type").value.JArray? && n < |Member(node, "type").value.items|
    ensures Size(Retyped(node, Member(node, "type").value.items[n])) < Size(node)
  {
    var types := Member(node, "type").value.items;
    SizePrefix(types, n);
    InsertSize(node.members, "type", types[n]);
  }

  // ---------------------------------------------------------------------
  // JSON Schema to core types.
  // ---------------------------------------------------------------------

  function Retyped(node: Json, item: Json): Json {
    if node.JObject? then JObject(Insert(node.members, "type", item)) else node
  }

  function RequiredNames(node: Json): seq<string> {
    match Member(node, "required")
    case Some(JArray(items)) => TextsOf(items)
    case _ => []
  }

  function TextsOf(items: seq<Json>): seq<string> {
    if items == [] then [] else
      var last := items[|items| - 1];
      TextsOf(items[..|items| - 1]) + (if last.JString? then [last.text] else [])
  }

  function UnionMember(node: Json): Option<Json> {
    if Member(node, "oneOf").Some? then Member(node, "oneOf") else Member(node, "anyOf")
  }

  function SchemaError<T>(code: string): Result<T> {
    Err(Error(ErrorKind.Schema, code))
  }

  // All types, or the first error.
  function Gather(read: seq<Result<Type>>): Result<seq<Type>> {
    if read == [] then Ok([]) else
      var front :- Gather(read[..|read| - 1]);
      var last :- read[|read| - 1];
      Ok(front + [last])
  }

  function GatherFields(properties: IndexMap<Json>, read: seq<Result<Type>>, required: seq<string>): Result<seq<Field>>
    requires |read| == |properties|
  {
    if read == [] then Ok([]) else
      var n := |read| - 1;
      var front :- GatherFields(properties[..n], read[..n], required);
      var ty :- read[n];
      Ok(front + [NewField(properties[n].key, ty, properties[n].key !in required)])
  }

  // Records are merged; a leading type that is no record is the answer.
  function Merge(read: seq<Result<Type>>, fields: seq<Field>): Result<Type> {
    if read == [] then Ok(RecordType(fields)) else
      var ty :- read[0];
      if ty.RecordType? then Merge(read[1..], fields + ty.fields)
      else if fields == [] then Ok(ty)
      else Merge(read[1..], fields)
  }

  function GatherUnion(read: seq<Result<Type>>): Result<Type> {
    var variants :- Gather(read);
    Ok(UnionType(variants))
  }

  // The root document: the node behind each JSON pointer into it, and how many
  // references may be followed one inside the other. The program sets no
  // bound and does not return from a reference that contains itself.
  datatype Root = Root(find: string -> Option<Json>, hops: nat)

  const DEFS := "#/$defs/"

  const UNRESOLVED: Error := Error(ErrorKind.Schema, "unresolved_ref")

  // Not an error of the program: the bound was too small.
  const EXHAUSTED: Error := Error(Internal, "reference_depth")

  function Reference(node: Json): Option<string> {
    match Member(node, "$ref")
    case Some(JString(text)) => Some(text)
    case _ => None
  }

  function Resolve(reference: string, find: string -> Option<Json>): Result<Json> {
    if DEFS <= reference then
      var name := reference[|DEFS|..];
      if find("/$defs/" + name).Some? then Ok(find("/$defs/" + name).value)
      else if find("/definitions/" + name).Some? then Ok(find("/definitions/" + name).value)
      else Err(UNRESOLVED)
    else if "#/" <= reference then
      if find(reference[1..]).Some? then Ok(find(reference[1..]).value) else Err(UNRESOLVED)
    else SchemaError("remote_ref_denied")
  }

  function TypeFromSchema(node: Json, root: Root): Result<Type>
    decreases root.hops, Size(node), 2
  {
    match Reference(node)
    case None => ReadNode(node, root)
    case Some(reference) =>
      var target :- Resolve(reference, root.find);
      if root.hops == 0 then Err(EXHAUSTED) else ReadNode(target, root.(hops := root.hops - 1))
  }

  // A node that was reached: a reference of its own is not followed.
  function ReadNode(node: Json, root: Root): Result<Type>
    decreases root.hops, Size(node), 1
  {
    MemberSmaller(node, "oneOf");
    MemberSmaller(node, "anyOf");
    MemberSmaller(node, "allOf");
    var ty := Member(node, "type");
    if ty.Some? && ty.value.JArray? then GatherUnion(ReadVariants(node, root))
    else if UnionMember(node).Some? then
      if !UnionMember(node).value.JArray? then SchemaError("invalid_union")
      else GatherUnion(ReadAll(UnionMember(node).value.items, root))
    else if Member(node, "allOf").Some? && Member(node, "allOf").value.JArray? then
      Merge(ReadAll(Member(node, "allOf").value.items, root), [])
    else ScalarOrCompound(node, root)
  }

  function ReadAll(items: seq<Json>, root: Root): (read: seq<Result<Type>>)
    ensures |read| == |items|
    decreases root.hops, SizeAll(items), 3
  {
    seq(|items|, i requires 0 <= i < |items| => SizePrefix(items, i); TypeFromSchema(items[i], root))
  }

  // One variant per listed type name, each read off the whole node.
  function ReadVariants(node: Json, root: Root): seq<Result<Type>>
    requires Member(node, "type").Some? && Member(node, "type").value.JArray?
    decreases root.hops, Size(node), 0
  {
    var types := Member(node, "type").value.items;
    seq(|types|, i requires 0 <= i < |types| => RetypedSmaller(node, i); TypeFromSchema(Retyped(node, types[i]), root))
  }

  function ReadProperties(properties: IndexMap<Json>, root: Root): (read: seq<Result<Type>>)
    ensures |read| == |properties|
    decreases root.hops, SizeMembers(properties), 3
  {
    seq(|properties|, i requires 0 <= i < |properties| => SizeOfMember(properties, i); TypeFromSchema(properties[i].value, root))
  }

  function RecordFromObject(node: Json, root: Root): Result<Type>
    decreases root.hops, Size(node), 0, 0
  {
    MemberSmaller(node, "properties");
    match Member(node, "properties")
    case Some(JObject(properties)) =>
      var fields :- GatherFields(properties, ReadProperties(properties, root), RequiredNames(node));
      Ok(RecordType(fields))
    case _ => Ok(RecordType([]))
  }

  function ListFromArray(node: Json, root: Root): Result<Type>
    decreases root.hops, Size(node), 0, 0
  {
    MemberSmaller(node, "items");
    match Member(node, "items")
    case Some(items) =>
      if items.JNull? then Ok(ListType(AnyType, true)) else
        var element :- TypeFromSchema(items, root);
        Ok(ListType(element, true))
    case None => Ok(ListType(AnyType, true))
  }

  function ScalarOrCompound(node: Json, root: Root): Result<Type>
    decreases root.hops, Size(node), 0, 1
  {
    match Member(node, "type")
    case Some(JString(name)) =>
      if name == "object" then RecordFromObject(node, root)
      else if name == "array" then ListFromArray(node, root)
      else if name == "string" then Ok(StringType)
      else if name == "integer" then Ok(IntType(64, true))
      else if name == "number" then Ok(FloatType(64))
      else if name == "boolean" then Ok(BoolType)
      else if name == "null" then Ok(NullType)
      else SchemaError("unsupported_json_schema_type")
    case _ => if Member(node, "properties").Some? then RecordFromObject(node, root) else Ok(AnyType)
  }

  // ---------------------------------------------------------------------
  // The loops of the reader.
  // ---------------------------------------------------------------------

  lemma {:induction false} GatherFails(read: seq<Result<Type>>, n: nat)
    requires n <= |read| && Gather(read[..n]).Err?
    ensures Gather(read) == Gather(read[..n])
    decreases |read|
  {
    if n < |read| {
      var front := read[..|read| - 1];
      assert front[..n] == read[..n];
      GatherFails(front, n);
    } else {
      assert read[..n] == read;
    }
  }

  lemma {:induction false} FieldsFail(properties: IndexMap<Json>, read: seq<Result<Type>>, required: seq<string>, n: nat)
    requires |read| == |properties| && n <= |read| && GatherFields(properties[..n], read[..n], required).Err?
    ensures GatherFields(properties, read, required) == GatherFields(properties[..n], read[..n], required)
    decreases |read|
  {
    var m := |read| - 1;
    if n <= m {
      assert properties[..m][..n] == properties[..n] && read[..m][..n] == read[..n];
      FieldsFail(properties[..m], read[..m], required, n);
    } else {
      assert read[..n] == read && properties[..n] == properties;
    }
  }

  method ReadRecord(node: Json, root: Root) returns (r: Result<Type>)
    ensures r == RecordFromObject(node, root)
    decreases root.hops, Size(node), 0, 0
  {
    var required := RequiredNames(node);
    var found := Member(node, "properties");
    MemberSmaller(node, "properties");
    if found.None? || !found.value.JObject? {
      return Ok(RecordType([]));
    }
    var properties := found.value.members;
    ghost var read := ReadProperties(properties, root);
    var fields: seq<Field> := [];
    for i := 0 to |properties|
      invariant GatherFields(properties[..i], read[..i], required) == Ok(fields)
    {
      SizeOfMember(properties, i);
      assert properties[..i + 1][..i] == properties[..i] && read[..i + 1][..i] == read[..i];
      var ty := ReadType(properties[i].value, root);
      assert read[..i + 1][i] == ty;
      if ty.Err? {
        FieldsFail(properties, read, required, i + 1);
        return Err(ty.error);
      }
      fields := fields + [NewField(properties[i].key, ty.value, properties[i].key !in required)];
    }
    assert properties[..|properties|] == properties && read[..|properties|] == read;
    return Ok(RecordType(fields));
  }

  method ReadUnion(items: seq<Json>, root: Root) returns (r: Result<Type>)
    ensures r == GatherUnion(ReadAll(items, root))
    decreases root.hops, SizeAll(items), 3, 0
  {
    ghost var read := ReadAll(items, root);
    var variants: seq<Type> := [];
    for i := 0 to |items|
      invariant Gather(read[..i]) == Ok(variants)
    {
      SizePrefix(items, i);
      assert read[..i + 1][..i] == read[..i];
      var ty := ReadType(items[i], root);
      assert read[..i + 1][i] == ty;
      if ty.Err? {
        GatherFails(read, i + 1);
        return Err(ty.error);
      }
      variants := variants + [ty.value];
    }
    assert read[..|items|] == read;
    return Ok(UnionType(variants));
  }

  method ReadNullableUnion(node: Json, root: Root) returns (r: Result<Type>)
    requires Member(node, "type").Some? && Member(node, "type").value.JArray?
    ensures r == GatherUnion(ReadVariants(node, root))
    decreases root.hops, Size(node), 0, 0
  {
    ghost var read := ReadVariants(node, root);
    var types := Member(node, "type").value.items;
    var variants: seq<Type> := [];
    for i := 0 to |types|
      invariant |read| == |types| && Gather(read[..i]) == Ok(variants)
    {
      RetypedSmaller(node, i);
      assert read[..i + 1][..i] == read[..i];
      var ty := ReadType(Retyped(node, types[i]), root);
      assert read[..i + 1][i] == ty;
      if ty.Err? {
        GatherFails(read, i + 1);
        return Err(ty.error);
      }
      variants := variants + [ty.value];
    }
    assert read[..|types|] == read;
    return Ok(UnionType(variants));
  }

  method ReadAllOf(items: seq<Json>, root: Root) returns (r: Result<Type>)
    ensures r == Merge(ReadAll(items, root), [])
    decreases root.hops, SizeAll(items), 3, 0
  {
    ghost var read := ReadAll(items, root);
    assert read[0..] == read;
    var fields: seq<Field> := [];
    for i := 0 to |items|
      invariant Merge(read, []) == Merge(read[i..], fields)
    {
      SizePrefix(items, i);
      assert read[i..][1..] == read[i + 1..];
      var ty := ReadType(items[i], root);
      assert read[i..][0] == ty;
      if ty.Err? {
        return Err(ty.error);
      }
      if ty.value.RecordType? {
        fields := fields + ty.value.fields;
      } else if fields == [] {
        return Ok(ty.value);
      }
    }
    return Ok(RecordType(fields));
  }

  method ReadType(node: Json, root: Root) returns (r: Result<Type>)
    ensures r == TypeFromSchema(node, root)
    decreases root.hops, Size(node), 2
  {
    var reference := Reference(node);
    if reference.None? {
      r := ReadResolved(node, root);
    } else {
      var target := Resolve(reference.value, root.find);
      if target.Err? {
        return Err(target.error);
      }
      if root.hops == 0 {
        return Err(EXHAUSTED);
      }
      r := ReadResolved(target.value, root.(hops := root.hops - 1));
    }
  }

  method ReadResolved(node: Json, root: Root) returns (r: Result<Type>)
    ensures r == ReadNode(node, root)
    decreases root.hops, Size(node), 1
  {
    MemberSmaller(node, "oneOf");
    MemberSmaller(node, "anyOf");
    MemberSmaller(node, "allOf");
    var ty, union, all := Member(node, "type"), UnionMember(node), Member(node, "allOf");
    if ty.Some? && ty.value.JArray? {
      r := ReadNullableUnion(node, root);
    } else if union.Some? {
      if !union.value.JArray? {
        return SchemaError("invalid_union");
      }
      r := ReadUnion(union.value.items, root);
    } else if all.Some? && all.value.JArray? {
      r := ReadAllOf(all.value.items, root);
    } else if (ty == Some(JString("object"))) || (!(ty.Some? && ty.value.JString?) && Member(node, "properties").Some?) {
      r := ReadRecord(node, root);
    } else {
      r := ScalarOrCompound(node, root);
    }
  }
}
