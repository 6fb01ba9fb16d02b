// Reading JSON Schema documents: references and combinators.
module ReadingLaws {
  import opened Results
  import opened IndexMaps
  import opened Values
  import opened Schemas
  import opened Validation
  import opened Jsons
  import opened JsonSchema

  // ---------------------------------------------------------------------
  // An answer does not depend on how many references may be followed.
  // ---------------------------------------------------------------------

  ghost predicate Settled<T>(less: Result<T>, more: Result<T>) {
    less == Err(EXHAUSTED) || less == more
  }

  ghost predicate AllSettled(less: seq<Result<Type>>, more: seq<Result<Type>>) {
    |less| == |more| && forall i :: 0 <= i < |less| ==> Settled(less[i], more[i])
  }

  function Deeper(root: Root): Root {
    root.(hops := root.hops + 1)
  }

  lemma {:induction false} GatherSettles(less: seq<Result<Type>>, more: seq<Result<Type>>)
    requires AllSettled(less, more)
    ensures Settled(Gather(less), Gather(more)) && Settled(GatherUnion(less), GatherUnion(more))
    decreases |less|
  {
    if less != [] {
      GatherSettles(less[..|less| - 1], more[..|more| - 1]);
    }
  }

  lemma {:induction false} FieldsSettle(properties: IndexMap<Json>, less: seq<Result<Type>>, more: seq<Result<Type>>, required: seq<string>)
    requires AllSettled(less, more) && |less| == |properties|
    ensures Settled(GatherFields(properties, less, required), GatherFields(properties, more, required))
    decreases |less|
  {
    if less != [] {
      var n := |less| - 1;
      FieldsSettle(properties[..n], less[..n], more[..n], required);
    }
  }

  lemma {:induction false} MergeSettles(less: seq<Result<Type>>, more: seq<Result<Type>>, fields: seq<Field>)
    requires AllSettled(less, more)
    ensures Settled(Merge(less, fields), Merge(more, fields))
    decreases |less|
  {
    if less != [] && less[0].Ok? {
      if less[0].value.RecordType? {
        MergeSettles(less[1..], more[1..], fields + less[0].value.fields);
      } else {
        MergeSettles(less[1..], more[1..], fields);
      }
    }
  }

  lemma {:induction false} TypeSettles(node: Json, root: Root)
    ensures Settled(TypeFromSchema(node, root), TypeFromSchema(node, Deeper(root)))
    decreases root.hops, Size(node), 2
  {
    if Reference(node).None? {
      NodeSettles(node, root);
    } else if root.hops > 0 {
      var target := Resolve(Reference(node).value, root.find);
      if target.Ok? {
        NodeSettles(target.value, root.(hops := root.hops - 1));
      }
    }
  }

  lemma {:induction false} NodeSettles(node: Json, root: Root)
    ensures Settled(ReadNode(node, root), ReadNode(node, Deeper(root)))
    decreases root.hops, Size(node), 1
  {
    MemberSmaller(node, "oneOf");
    MemberSmaller(node, "anyOf");
    MemberSmaller(node, "allOf");
    var ty, union, all := Member(node, "type"), UnionMember(node), Member(node, "allOf");
    if ty.Some? && ty.value.JArray? {
      VariantsSettle(node, root);
    } else if union.Some? {
      if union.value.JArray? {
        ItemsSettle(union.value.items, root);
        GatherSettles(ReadAll(union.value.items, root), ReadAll(union.value.items, Deeper(root)));
      }
    } else if all.Some? && all.value.JArray? {
      ItemsSettle(all.value.items, root);
      MergeSettles(ReadAll(all.value.items, root), ReadAll(all.value.items, Deeper(root)), []);
    } else {
      CompoundSettles(node, root);
    }
  }

  lemma {:induction false} ItemsSettle(items: seq<Json>, root: Root)
    ensures AllSettled(ReadAll(items, root), ReadAll(items, Deeper(root)))
    decreases root.hops, SizeAll(items), 3
  {
    forall i | 0 <= i < |items| ensures Settled(ReadAll(items, root)[i], ReadAll(items, Deeper(root))[i]) {
      SizePrefix(items, i);
      TypeSettles(items[i], root);
    }
  }

  lemma {:induction false} VariantsSettle(node: Json, root: Root)
    requires Member(node, "type").Some? && Member(node, "type").value.JArray?
    ensures Settled(GatherUnion(ReadVariants(node, root)), GatherUnion(ReadVariants(node, Deeper(root))))
    decreases root.hops, Size(node), 0, 0
  {
    var types := Member(node, "type").value.items;
    forall i | 0 <= i < |types| ensures Settled(ReadVariants(node, root)[i], ReadVariants(node, Deeper(root))[i]) {
      RetypedSmaller(node, i);
      TypeSettles(Retyped(node, types[i]), root);
    }
    GatherSettles(ReadVariants(node, root), ReadVariants(node, Deeper(root)));
  }

  lemma {:induction false} PropertiesSettle(properties: IndexMap<Json>, root: Root)
    ensures AllSettled(ReadProperties(properties, root), ReadProperties(properties, Deeper(root)))
    decreases root.hops, SizeMembers(properties), 3
  {
    forall i | 0 <= i < |properties| ensures Settled(ReadProperties(properties, root)[i], ReadProperties(properties, Deeper(root))[i]) {
      SizeOfMember(properties, i);
      TypeSettles(properties[i].value, root);
    }
  }

  lemma {:induction false} RecordSettles(node: Json, root: Root)
    ensures Settled(RecordFromObject(node, root), RecordFromObject(node, Deeper(root)))
    decreases root.hops, Size(node), 0, 0
  {
    MemberSmaller(node, "properties");
    match Member(node, "properties")
    case Some(JObject(properties)) =>
      PropertiesSettle(properties, root);
      FieldsSettle(properties, ReadProperties(properties, root), ReadProperties(properties, Deeper(root)), RequiredNames(node));
    case _ =>
  }

  lemma {:induction false} CompoundSettles(node: Json, root: Root)
    ensures Settled(ScalarOrCompound(node, root), ScalarOrCompound(node, Deeper(root)))
    decreases root.hops, Size(node), 0, 1
  {
    MemberSmaller(node, "properties");
    MemberSmaller(node, "items");
    RecordSettles(node, root);
    if Member(node, "items").Some? {
      TypeSettles(Member(node, "items").value, root);
    }
  }

  lemma {:induction false} HopsSettle(node: Json, find: string -> Option<Json>, m: nat, n: nat)
    requires m <= n
    ensures Settled(TypeFromSchema(node, Root(find, m)), TypeFromSchema(node, Root(find, n)))
    decreases n
  {
    if m < n {
      HopsSettle(node, find, m, n - 1);
      TypeSettles(node, Root(find, n - 1));
    }
  }

  // Two bounds that both suffice give the same answer.
  lemma AnswerUnique(node: Json, find: string -> Option<Json>, m: nat, n: nat)
    requires TypeFromSchema(node, Root(find, m)) != Err(EXHAUSTED) && TypeFromSchema(node, Root(find, n)) != Err(EXHAUSTED)
    ensures TypeFromSchema(node, Root(find, m)) == TypeFromSchema(node, Root(find, n))
  {
    if m <= n {
      HopsSettle(node, find, m, n);
    } else {
      HopsSettle(node, find, n, m);
    }
  }

  function ReferenceTo(text: string): Json {
    JObject([Entry("$ref", JString(text))])
  }

  function ListOf(element: Json): Json {
    JObject([Entry("type", JString("array")), Entry("items", element)])
  }

  lemma ReferenceMembers(text: string)
    ensures var node := ReferenceTo(text);
            && Reference(node) == Some(text) && Member(node, "type") == None && UnionMember(node) == None
            && Member(node, "allOf") == None && Member(node, "properties") == None
  {
    forall key ensures Member(ReferenceTo(text), key) == if key == "$ref" then Some(JString(text)) else None {
      GetShort(ReferenceTo(text).members, key);
    }
  }

  lemma ListOfMembers(element: Json)
    ensures var node := ListOf(element);
            && Reference(node) == None && Member(node, "type") == Some(JString("array")) && UnionMember(node) == None
            && Member(node, "allOf") == None && Member(node, "items") == Some(element)
  {
    forall key ensures Member(ListOf(element), key)
                    == if key == "type" then Some(JString("array")) else if key == "items" then Some(element) else None {
      GetShort(ListOf(element).members, key);
    }
  }

  // A list of itself has no answer, however many references are followed.
  lemma {:induction false} SelfReference(reference: string, root: Root)
    requires Resolve(reference, root.find) == Ok(ListOf(ReferenceTo(reference)))
    ensures TypeFromSchema(ReferenceTo(reference), root) == Err(EXHAUSTED)
    decreases root.hops
  {
    ReferenceMembers(reference);
    if root.hops > 0 {
      var inner := root.(hops := root.hops - 1);
      SelfReference(reference, inner);
      ListReads(ReferenceTo(reference), inner);
    }
  }

  lemma ListReads(element: Json, root: Root)
    requires TypeFromSchema(element, root).Err? && !element.JNull?
    ensures ReadNode(ListOf(element), root) == Err(TypeFromSchema(element, root).error)
  {
    ListOfMembers(element);
    var node := ListOf(element);
    assert ReadNode(node, root) == ScalarOrCompound(node, root);
    assert ScalarOrCompound(node, root) == ListFromArray(node, root);
  }

  // A reference to a bare reference is not followed on: it reads as any type.
  lemma ChainedReference(reference: string, other: string, root: Root)
    requires Resolve(reference, root.find) == Ok(ReferenceTo(other)) && root.hops > 0
    ensures TypeFromSchema(ReferenceTo(reference), root) == Ok(AnyType)
  {
    ReferenceMembers(reference);
    ReferenceMembers(other);
    var node, inner := ReferenceTo(other), root.(hops := root.hops - 1);
    assert ReadNode(node, inner) == ScalarOrCompound(node, inner);
  }

  // ---------------------------------------------------------------------
  // allOf.
  // ---------------------------------------------------------------------

  ghost predicate Reads(read: seq<Result<Type>>, types: seq<Type>) {
    |read| == |types| && forall i :: 0 <= i < |read| ==> read[i] == Ok(types[i])
  }

  lemma RecordAppend(a: seq<Field>, b: seq<Field>, value: Value)
    ensures Accepts(RecordType(a + b), value) <==> Accepts(RecordType(a), value) && Accepts(RecordType(b), value)
  {
    if value.Object? {
      var all := a + b;
      ObjectAccepted(all, value.fields);
      ObjectAccepted(a, value.fields);
      ObjectAccepted(b, value.fields);
      assert forall i :: 0 <= i < |a| ==> all[i] == a[i];
      assert forall i :: 0 <= i < |b| ==> all[|a| + i] == b[i];
    }
  }

  ghost predicate RecordsAccept(types: seq<Type>, value: Value) {
    forall i :: 0 <= i < |types| && types[i].RecordType? ==> Accepts(types[i], value)
  }

  lemma RecordsFirst(types: seq<Type>, value: Value)
    requires types != []
    ensures RecordsAccept(types, value) <==> (types[0].RecordType? ==> Accepts(types[0], value)) && RecordsAccept(types[1..], value)
  {
    assert forall i :: 0 < i < |types| ==> types[i] == types[1..][i - 1];
    assert forall i :: 0 <= i < |types| - 1 ==> types[1..][i] == types[i + 1];
  }

  lemma {:induction false} MergeRecords(read: seq<Result<Type>>, types: seq<Type>, fields: seq<Field>, value: Value)
    requires Reads(read, types) && (fields != [] || types == [] || (types[0].RecordType? && types[0].fields != []))
    ensures Merge(read, fields).Ok? && Merge(read, fields).value.RecordType?
    ensures Accepts(Merge(read, fields).value, value) <==> Accepts(RecordType(fields), value) && RecordsAccept(types, value)
    decreases |read|
  {
    if read != [] {
      RecordsFirst(types, value);
      if types[0].RecordType? {
        RecordAppend(fields, types[0].fields, value);
        MergeRecords(read[1..], types[1..], fields + types[0].fields, value);
      } else {
        MergeRecords(read[1..], types[1..], fields, value);
      }
    }
  }

  // The records without fields that come first.
  function EmptyRecords(types: seq<Type>): nat {
    if types != [] && types[0] == RecordType([]) then 1 + EmptyRecords(types[1..]) else 0
  }

  lemma {:induction false} MergeSkips(read: seq<Result<Type>>, types: seq<Type>)
    requires Reads(read, types)
    ensures EmptyRecords(types) <= |types|
    ensures Merge(read, []) == Merge(read[EmptyRecords(types)..], [])
    ensures forall i :: 0 <= i < EmptyRecords(types) ==> types[i] == RecordType([])
    ensures EmptyRecords(types) < |types| ==> types[EmptyRecords(types)] != RecordType([])
    decreases |read|
  {
    if read != [] && types[0] == RecordType([]) {
      var k := EmptyRecords(types[1..]);
      MergeSkips(read[1..], types[1..]);
      assert read[1..][k..] == read[k + 1..];
      assert [] + types[0].fields == [];
      assert forall i :: 0 < i < |types| ==> types[i] == types[1..][i - 1];
    } else {
      assert read[0..] == read;
    }
  }

  // What allOf means: the conjunction of its records, with every other part
  // ignored, unless a part that is no record comes before any field, which is
  // then the whole answer.
  lemma AllOfAccepts(read: seq<Result<Type>>, types: seq<Type>, value: Value)
    requires Reads(read, types)
    ensures Merge(read, []).Ok? && EmptyRecords(types) <= |types|
    ensures var k, merged := EmptyRecords(types), Merge(read, []).value;
            if k < |types| && !types[k].RecordType? then merged == types[k]
            else Accepts(merged, value) <==> (value.Null? || value.Object?) && RecordsAccept(types, value)
  {
    MergeSkips(read, types);
    var k := EmptyRecords(types);
    if k == |types| || types[k].RecordType? {
      MergeRecords(read[k..], types[k..], [], value);
      SkippedAccept(types, k, value);
    }
  }

  lemma SkippedAccept(types: seq<Type>, k: nat, value: Value)
    requires k <= |types| && forall i :: 0 <= i < k ==> types[i] == RecordType([])
    ensures Accepts(RecordType([]), value) <==> value.Null? || value.Object?
    ensures value.Null? || value.Object? ==> (RecordsAccept(types, value) <==> RecordsAccept(types[k..], value))
  {
    assert forall i :: k <= i < |types| ==> types[i] == types[k..][i - k];
    assert forall i :: 0 <= i < |types| - k ==> types[k..][i] == types[k + i];
  }

  // ---------------------------------------------------------------------
  // Lists of type names.
  // ---------------------------------------------------------------------

  // A list of two names, the second null, accepts what the first name does.
  lemma NullableName(node: Json, name: string, root: Root)
    requires Reference(node) == None && UnionMember(node) == None && Member(node, "allOf") == None
    requires Member(node, "type") == Some(JArray([JString(name), JString("null")]))
    ensures var one, both := TypeFromSchema(Retyped(node, JString(name)), root), TypeFromSchema(node, root);
            && (both.Ok? <==> one.Ok?)
            && (both.Ok? ==> forall value :: Accepts(both.value, value) <==> Accepts(one.value, value))
  {
    var names := [JString(name), JString("null")];
    var read := ReadVariants(node, root);
    NullReads(node, root);
    var one := TypeFromSchema(Retyped(node, JString(name)), root);
    assert read[0] == one && read[1] == Ok(NullType);
    GatherTwo(read, one, NullType);
    if one.Ok? {
      forall value ensures Accepts(UnionType([one.value, NullType]), value) <==> Accepts(one.value, value) {
        UnionAccepted([one.value, NullType], value);
        assert [one.value, NullType][0] == one.value && [one.value, NullType][1] == NullType;
      }
    }
  }

  lemma RetypedMember(node: Json, item: Json, key: string)
    requires Member(node, "type").Some?
    ensures Member(Retyped(node, item), key) == if key == "type" then Some(item) else Member(node, key)
  {
    GetInsert(node.members, "type", item, key);
  }

  lemma NullReads(node: Json, root: Root)
    requires Reference(node) == None && UnionMember(node) == None && Member(node, "allOf") == None && Member(node, "type").Some?
    ensures TypeFromSchema(Retyped(node, JString("null")), root) == Ok(NullType)
  {
    forall key ensures Member(Retyped(node, JString("null")), key) == if key == "type" then Some(JString("null")) else Member(node, key) {
      RetypedMember(node, JString("null"), key);
    }
    var plain := Retyped(node, JString("null"));
    assert TypeFromSchema(plain, root) == ReadNode(plain, root);
    assert ReadNode(plain, root) == ScalarOrCompound(plain, root);
  }

  lemma GatherTwo(read: seq<Result<Type>>, first: Result<Type>, second: Type)
    requires read == [first, Ok(second)]
    ensures GatherUnion(read) == if first.Ok? then Ok(UnionType([first.value, second])) else Err(first.error)
  {
    assert [first][..0] == [] && Gather([]) == Ok([]);
    assert [first][0] == first;
    if first.Ok? {
      assert [] + [first.value] == [first.value];
      assert Gather([first]) == Ok([first.value]);
      assert [first.value] + [second] == [first.value, second];
    } else {
      assert Gather([first]) == Err(first.error);
    }
    assert read[..|read| - 1] == [first] && read[|read| - 1] == Ok(second);
  }
}
