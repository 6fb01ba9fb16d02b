// Inference is columnwise, sound and exact.
module InferenceLaws {
  import opened Results
  import opened IndexMaps
  import opened Paths
  import opened Values
  import opened Schemas
  import opened Validation
  import opened Inference

  // ---------------------------------------------------------------------
  // Columns.
  // ---------------------------------------------------------------------

  type Entries = IndexMap<Value>

  function ObjectsOf(records: seq<Value>): seq<Entries> {
    if records == [] then [] else
      var last := records[|records| - 1];
      ObjectsOf(records[..|records| - 1]) + (if last.Object? then [last.fields] else [])
  }

  // The values the records hold under one name, in record order.
  function Column(objects: seq<Entries>, name: string): seq<Value> {
    if objects == [] then [] else
      var found := Get(objects[|objects| - 1], name);
      Column(objects[..|objects| - 1], name) + (if found.Some? then [found.value] else [])
  }

  function ColumnType(column: seq<Value>, infer: InferMode): Result<Type> {
    if column == [] then Ok(UnknownType) else
      var left :- ColumnType(column[..|column| - 1], infer);
      UnifyTypes(left, TypeOf(column[|column| - 1]), infer)
  }

  predicate Gap(entries: Entries, name: string) {
    Get(entries, name).None? || Get(entries, name) == Some(Null)
  }

  // Some record lacks the name or holds null under it.
  predicate Gapped(objects: seq<Entries>, name: string) {
    exists i :: 0 <= i < |objects| && Gap(objects[i], name)
  }

  function AddNames(seen: seq<string>, entries: Entries): seq<string> {
    if entries == [] then seen else
      var front, key := AddNames(seen, entries[..|entries| - 1]), entries[|entries| - 1].key;
      if key in front then front else front + [key]
  }

  // Names in the order they are first seen.
  function SeenNames(objects: seq<Entries>): seq<string> {
    if objects == [] then [] else AddNames(SeenNames(objects[..|objects| - 1]), objects[|objects| - 1])
  }

  predicate AllUnique(objects: seq<Entries>) {
    forall i :: 0 <= i < |objects| ==> UniqueKeys(objects[i])
  }

  // ---------------------------------------------------------------------
  // The fields are the columns.
  // ---------------------------------------------------------------------

  ghost predicate Tabulated(f: Field, objects: seq<Entries>, infer: InferMode) {
    && f == NewField(f.name, f.ty, f.nullable)
    && ColumnType(Column(objects, f.name), infer) == Ok(f.ty)
    && (f.nullable <==> Gapped(objects, f.name))
  }

  ghost predicate Tabulates(fields: seq<Field>, objects: seq<Entries>, infer: InferMode) {
    && FieldNames(fields) == SeenNames(objects)
    && Distinct(SeenNames(objects))
    && forall k :: 0 <= k < |fields| ==> Tabulated(fields[k], objects, infer)
  }

  lemma {:induction false} AddedNames(seen: seq<string>, entries: Entries)
    requires Distinct(seen)
    ensures seen <= AddNames(seen, entries) && Distinct(AddNames(seen, entries))
    ensures forall name :: name in AddNames(seen, entries) <==> name in seen || HasKey(entries, name)
  {
    if entries != [] {
      var n := |entries| - 1;
      var front := entries[..n];
      AddedNames(seen, front);
      forall name ensures name in AddNames(seen, entries) <==> name in seen || HasKey(entries, name) {
        if HasKey(front, name) {
          var i :| 0 <= i < n && front[i].key == name;
          assert entries[i].key == name;
        }
        if HasKey(entries, name) && name != entries[n].key {
          var i :| 0 <= i < |entries| && entries[i].key == name;
          assert front[i].key == name;
        }
        assert entries[n].key == name ==> HasKey(entries, name);
      }
    }
  }

  lemma {:induction false} SeenOrUnseen(objects: seq<Entries>)
    ensures Distinct(SeenNames(objects))
    ensures forall name :: name in SeenNames(objects) <==> exists i :: 0 <= i < |objects| && HasKey(objects[i], name)
  {
    if objects != [] {
      var n := |objects| - 1;
      var front := objects[..n];
      SeenOrUnseen(front);
      AddedNames(SeenNames(front), objects[n]);
      forall name ensures name in SeenNames(objects) <==> exists i :: 0 <= i < |objects| && HasKey(objects[i], name) {
        if exists i :: 0 <= i < |objects| && HasKey(objects[i], name) {
          var i :| 0 <= i < |objects| && HasKey(objects[i], name);
          assert i < n ==> HasKey(front[i], name);
        }
        if i :| 0 <= i < n && HasKey(front[i], name) {
          assert HasKey(objects[i], name);
        }
      }
    }
  }

  lemma {:induction false} UnseenColumn(objects: seq<Entries>, name: string)
    requires forall i :: 0 <= i < |objects| ==> !HasKey(objects[i], name)
    ensures Column(objects, name) == []
  {
    if objects != [] {
      UnseenColumn(objects[..|objects| - 1], name);
    }
  }

  lemma ColumnSnoc(objects: seq<Entries>, last: Entries, name: string)
    ensures Column(objects + [last], name) == Column(objects, name) + if Get(last, name).Some? then [Get(last, name).value] else []
  {
    assert (objects + [last])[..|objects|] == objects;
  }

  lemma ColumnTypeSnoc(column: seq<Value>, last: Value, infer: InferMode)
    ensures ColumnType(column + [last], infer)
         == if ColumnType(column, infer).Ok? then UnifyTypes(ColumnType(column, infer).value, TypeOf(last), infer)
            else ColumnType(column, infer)
  {
    assert (column + [last])[..|column|] == column;
  }

  lemma GappedSnoc(objects: seq<Entries>, last: Entries, name: string)
    ensures Gapped(objects + [last], name) <==> Gapped(objects, name) || Gap(last, name)
  {
    var all := objects + [last];
    if Gapped(objects, name) {
      var i :| 0 <= i < |objects| && Gap(objects[i], name);
      assert Gap(all[i], name);
    }
    assert Gap(last, name) ==> Gap(all[|objects|], name);
  }

  lemma UpdateTabulates(f: Field, objects: seq<Entries>, last: Entries, infer: InferMode)
    requires Tabulated(f, objects, infer)
    ensures var r := UpdateField(f, last, infer);
            match ColumnType(Column(objects + [last], f.name), infer)
            case Ok(_) => r.Ok? && r.value.name == f.name && Tabulated(r.value, objects + [last], infer)
            case Err(e) => r == Err(e)
  {
    ColumnSnoc(objects, last, f.name);
    GappedSnoc(objects, last, f.name);
    var found := Get(last, f.name);
    if found.Some? {
      ColumnTypeSnoc(Column(objects, f.name), found.value, infer);
    } else {
      assert Column(objects, f.name) + [] == Column(objects, f.name);
    }
  }

  lemma {:induction false} UpdatePointwise(fields: seq<Field>, entries: Entries, infer: InferMode)
    ensures UpdateFields(fields, entries, infer).Ok? <==>
            forall k :: 0 <= k < |fields| ==> UpdateField(fields[k], entries, infer).Ok?
    ensures UpdateFields(fields, entries, infer).Ok? ==>
            var r := UpdateFields(fields, entries, infer).value;
            |r| == |fields| && forall k :: 0 <= k < |fields| ==> UpdateField(fields[k], entries, infer) == Ok(r[k])
  {
    if fields != [] {
      var n := |fields| - 1;
      var front := fields[..n];
      UpdatePointwise(front, entries, infer);
      assert forall k :: 0 <= k < n ==> front[k] == fields[k];
      assert (forall k :: 0 <= k < |fields| ==> UpdateField(fields[k], entries, infer).Ok?) <==>
             (forall k :: 0 <= k < n ==> UpdateField(front[k], entries, infer).Ok?) && UpdateField(fields[n], entries, infer).Ok?;
    }
  }

  lemma KnownNames(fields: seq<Field>, name: string)
    ensures Knows(fields, name) <==> name in FieldNames(fields)
  {
    var names := FieldNames(fields);
    if name in names {
      var i :| 0 <= i < |names| && names[i] == name;
      assert fields[i].name == name;
    }
    if Knows(fields, name) {
      var i :| 0 <= i < |fields| && fields[i].name == name;
      assert names[i] == name;
    }
  }

  // A field some entry of the object introduced.
  predicate Introduced(f: Field, entries: Entries) {
    exists i :: 0 <= i < |entries| && f == NewField(entries[i].key, TypeOf(entries[i].value), true)
  }

  lemma {:induction false} AppendPointwise(fields: seq<Field>, entries: Entries)
    ensures fields <= AppendFields(fields, entries)
    ensures FieldNames(AppendFields(fields, entries)) == AddNames(FieldNames(fields), entries)
    ensures var r := AppendFields(fields, entries); forall k :: |fields| <= k < |r| ==> Introduced(r[k], entries)
  {
    if entries != [] {
      var n := |entries| - 1;
      var front := entries[..n];
      AppendPointwise(fields, front);
      var before, r := AppendFields(fields, front), AppendFields(fields, entries);
      KnownNames(before, entries[n].key);
      forall k | |fields| <= k < |r| ensures Introduced(r[k], entries) {
        if k < |before| {
          assert Introduced(before[k], front);
          var i :| 0 <= i < n && before[k] == NewField(front[i].key, TypeOf(front[i].value), true);
          assert entries[i] == front[i];
        } else {
          assert r[k] == NewField(entries[n].key, TypeOf(entries[n].value), true);
        }
      }
      if r != before {
        assert FieldNames(r) == FieldNames(before) + [entries[n].key];
      }
    }
  }

  lemma SingleColumn(value: Value, infer: InferMode)
    ensures ColumnType([value], infer) == Ok(TypeOf(value))
  {
    var column := [value];
    assert column[..|column| - 1] == [];
    assert ColumnType(column[..|column| - 1], infer) == Ok(UnknownType);
  }

  // A column that starts with this object holds its one value.
  lemma StartsColumn(objects: seq<Entries>, last: Entries, i: nat)
    requires UniqueKeys(last) && i < |last| && forall j :: 0 <= j < |objects| ==> !HasKey(objects[j], last[i].key)
    ensures Column(objects + [last], last[i].key) == [last[i].value]
  {
    GetAt(last, i);
    UnseenColumn(objects, last[i].key);
    ColumnSnoc(objects, last, last[i].key);
  }

  // A name no earlier record had starts its column here, behind a gap.
  lemma IntroducedTabulated(f: Field, objects: seq<Entries>, last: Entries, infer: InferMode)
    requires Introduced(f, last) && UniqueKeys(last) && objects != []
    requires forall i :: 0 <= i < |objects| ==> !HasKey(objects[i], f.name)
    ensures Tabulated(f, objects + [last], infer)
  {
    var i :| 0 <= i < |last| && f == NewField(last[i].key, TypeOf(last[i].value), true);
    StartsColumn(objects, last, i);
    SingleColumn(last[i].value, infer);
    GapBefore(objects, last, f.name);
  }

  lemma GapBefore(objects: seq<Entries>, last: Entries, name: string)
    requires objects != [] && !HasKey(objects[0], name)
    ensures Gapped(objects + [last], name)
  {
    assert Gap((objects + [last])[0], name);
  }

  lemma MergeTabulates(fields: seq<Field>, objects: seq<Entries>, last: Entries, infer: InferMode)
    requires Tabulates(fields, objects, infer) && UniqueKeys(last) && objects != []
    requires UpdateFields(fields, last, infer).Ok?
    ensures Tabulates(AppendFields(UpdateFields(fields, last, infer).value, last), objects + [last], infer)
  {
    UpdatePointwise(fields, last, infer);
    var updated := UpdateFields(fields, last, infer).value;
    forall k | 0 <= k < |fields| ensures updated[k].name == fields[k].name && Tabulated(updated[k], objects + [last], infer) {
      assert UpdateField(fields[k], last, infer) == Ok(updated[k]);
      UpdateTabulates(fields[k], objects, last, infer);
    }
    assert FieldNames(updated) == FieldNames(fields);
    AppendPointwise(updated, last);
    var r := AppendFields(updated, last);
    assert (objects + [last])[..|objects|] == objects;
    SeenOrUnseen(objects + [last]);
    SeenOrUnseen(objects);
    forall k | 0 <= k < |r| ensures Tabulated(r[k], objects + [last], infer) {
      if k < |updated| {
        assert r[k] == updated[k];
      } else {
        NewNameUnseen(objects, last, r, |updated|, k);
        IntroducedTabulated(r[k], objects, last, infer);
      }
    }
  }

  lemma Unseen(objects: seq<Entries>, name: string)
    requires name !in SeenNames(objects)
    ensures forall i :: 0 <= i < |objects| ==> !HasKey(objects[i], name)
  {
    SeenOrUnseen(objects);
  }

  lemma NewNameUnseen(objects: seq<Entries>, last: Entries, r: seq<Field>, n: nat, k: nat)
    requires Distinct(SeenNames(objects)) && FieldNames(r) == AddNames(SeenNames(objects), last)
    requires n == |SeenNames(objects)| && n <= k < |r|
    ensures forall i :: 0 <= i < |objects| ==> !HasKey(objects[i], r[k].name)
  {
    var seen := SeenNames(objects);
    AddedNames(seen, last);
    SeenOrUnseen(objects);
    assert FieldNames(r)[k] == r[k].name;
    forall j | 0 <= j < n ensures seen[j] != r[k].name {
      assert seen[j] == FieldNames(r)[j];
    }
    Unseen(objects, r[k].name);
  }

  // A conflict is a column that does not unify.
  predicate Conflict(objects: seq<Entries>, name: string, infer: InferMode) {
    ColumnType(Column(objects, name), infer).Err?
  }

  lemma MergeConflict(fields: seq<Field>, objects: seq<Entries>, last: Entries, infer: InferMode) returns (name: string)
    requires Tabulates(fields, objects, infer) && UpdateFields(fields, last, infer).Err?
    ensures Conflict(objects + [last], name, infer)
  {
    UpdatePointwise(fields, last, infer);
    var k :| 0 <= k < |fields| && UpdateField(fields[k], last, infer).Err?;
    assert Tabulated(fields[k], objects, infer);
    UpdateTabulates(fields[k], objects, last, infer);
    name := fields[k].name;
    assert ColumnType(Column(objects + [last], name), infer).Err?;
  }

  lemma TabulatedNoConflict(fields: seq<Field>, objects: seq<Entries>, infer: InferMode, name: string)
    requires Tabulates(fields, objects, infer)
    ensures !Conflict(objects, name, infer)
  {
    SeenOrUnseen(objects);
    if name in SeenNames(objects) {
      var k :| 0 <= k < |SeenNames(objects)| && SeenNames(objects)[k] == name;
      assert FieldNames(fields)[k] == fields[k].name;
      assert Tabulated(fields[k], objects, infer);
    } else {
      UnseenColumn(objects, name);
    }
  }

  lemma ConflictPersists(objects: seq<Entries>, last: Entries, name: string, infer: InferMode)
    requires Conflict(objects, name, infer)
    ensures Conflict(objects + [last], name, infer)
  {
    ColumnSnoc(objects, last, name);
    if Get(last, name).Some? {
      ColumnTypeSnoc(Column(objects, name), Get(last, name).value, infer);
    } else {
      assert Column(objects, name) + [] == Column(objects, name);
    }
  }

  lemma FirstTabulates(first: Entries, infer: InferMode)
    requires UniqueKeys(first)
    ensures Tabulates(FieldsOf(first), [first], infer)
  {
    var fields := FieldsOf(first);
    SeenOrUnseen([first]);
    SeenFirst(first);
    assert FieldNames(fields) == Keys(first);
    forall k | 0 <= k < |fields| ensures Tabulated(fields[k], [first], infer) {
      FirstTabulated(first, k, infer);
    }
  }

  lemma SeenFirst(first: Entries)
    requires UniqueKeys(first)
    ensures SeenNames([first]) == Keys(first)
  {
    var objects := [first];
    assert objects[..|objects| - 1] == [];
    assert SeenNames(objects[..|objects| - 1]) == [];
    FirstNames(first);
  }

  lemma FirstTabulated(first: Entries, k: nat, infer: InferMode)
    requires UniqueKeys(first) && k < |first|
    ensures Tabulated(FieldsOf(first)[k], [first], infer)
  {
    StartsColumn([], first, k);
    assert [] + [first] == [first];
    SingleColumn(first[k].value, infer);
    FirstGap(first, k);
  }

  lemma FirstGap(first: Entries, k: nat)
    requires UniqueKeys(first) && k < |first|
    ensures Gapped([first], first[k].key) <==> first[k].value.Null?
  {
    GetAt(first, k);
    assert Gap([first][0], first[k].key) <==> first[k].value.Null?;
  }

  lemma {:induction false} FirstNames(entries: Entries)
    requires UniqueKeys(entries)
    ensures AddNames([], entries) == Keys(entries)
  {
    if entries != [] {
      var n := |entries| - 1;
      FirstNames(entries[..n]);
      assert forall i :: 0 <= i < n ==> Keys(entries[..n])[i] == entries[i].key;
      assert Keys(entries) == Keys(entries[..n]) + [entries[n].key];
    }
  }

  ghost predicate ColumnsInferred(r: Result<seq<Field>>, objects: seq<Entries>, infer: InferMode) {
    match r
    case Ok(fields) => Tabulates(fields, objects, infer)
    case Err(_) => exists name :: Conflict(objects, name, infer)
  }

  lemma {:induction false} UnifyColumns(first: Entries, rest: seq<Value>, infer: InferMode)
    requires UniqueKeys(first) && AllUnique(ObjectsOf(rest))
    ensures ColumnsInferred(UnifyFields(FieldsOf(first), rest, infer), [first] + ObjectsOf(rest), infer)
  {
    if rest == [] {
      FirstTabulates(first, infer);
      assert [first] + [] == [first];
    } else {
      var n := |rest| - 1;
      var before, last := ObjectsOf(rest[..n]), rest[n];
      assert AllUnique(before) by {
        forall i | 0 <= i < |before| ensures UniqueKeys(before[i]) { assert before[i] == ObjectsOf(rest)[i]; }
      }
      UnifyColumns(first, rest[..n], infer);
      var front := UnifyFields(FieldsOf(first), rest[..n], infer);
      if last.Object? {
        assert ObjectsOf(rest)[|before|] == last.fields;
        assert [first] + ObjectsOf(rest) == [first] + before + [last.fields];
        if front.Ok? {
          if UpdateFields(front.value, last.fields, infer).Ok? {
            MergeTabulates(front.value, [first] + before, last.fields, infer);
          } else {
            var name := MergeConflict(front.value, [first] + before, last.fields, infer);
          }
        } else {
          var name :| Conflict([first] + before, name, infer);
          ConflictPersists([first] + before, last.fields, name, infer);
        }
      } else {
        assert ObjectsOf(rest) == before + [] == before;
      }
    }
  }

  lemma {:induction false} ObjectsFromFirst(records: seq<Value>)
    requires records != [] && records[0].Object?
    ensures ObjectsOf(records) == [records[0].fields] + ObjectsOf(records[1..])
  {
    var n := |records| - 1;
    if n == 0 {
      assert records[..n] == [] && records[1..] == [];
    } else {
      ObjectsFromFirst(records[..n]);
      assert records[..n][1..] == records[1..][..n - 1];
    }
  }

  // Inference works column by column: it fails exactly when some column has
  // no unified type, and otherwise lists the names in first-seen order, each
  // with its column's type, nullable exactly when some object lacks it or
  // holds null.
  lemma InferenceIsColumnwise(records: seq<Value>, infer: InferMode)
    requires records != [] && records[0].Object? && AllUnique(ObjectsOf(records))
    ensures var r := InferFields(records, infer);
            && (r.Err? <==> exists name :: Conflict(ObjectsOf(records), name, infer))
            && (r.Ok? ==> Tabulates(r.value, ObjectsOf(records), infer))
  {
    ObjectsFromFirst(records);
    var objects := ObjectsOf(records);
    assert UniqueKeys(objects[0]);
    assert AllUnique(ObjectsOf(records[1..])) by {
      forall i | 0 <= i < |ObjectsOf(records[1..])| ensures UniqueKeys(ObjectsOf(records[1..])[i]) {
        assert objects[i + 1] == ObjectsOf(records[1..])[i];
      }
    }
    UnifyColumns(records[0].fields, records[1..], infer);
    var r := InferFields(records, infer);
    if r.Ok? {
      forall name ensures !Conflict(objects, name, infer) {
        TabulatedNoConflict(r.value, objects, infer, name);
      }
    }
  }

  // ---------------------------------------------------------------------
  // Acceptance.
  // ---------------------------------------------------------------------

  // The item can stand where the first value was seen: what the type inferred
  // from the first value accepts, read off the two values.
  predicate Fits(first: Value, item: Value)
    decreases first
  {
    || item.Null?
    || match first
       case Null => true
       case Bool(_) => item.Bool?
       case Int(_) => item.Int? || item.UInt?
       case UInt(_) => item.Int? || item.UInt?
       case FloatValue(_) => item.FloatValue? || item.Int? || item.UInt?
       case Array(xs) => item.Array? && (xs == [] || forall i :: 0 <= i < |item.items| ==> Fits(xs[0], item.items[i]))
       case Object(entries) => item.Object? && FitsEntries(entries, item.fields)
       case _ => item.String? || item.Decimal?
  }

  predicate FitsEntries(entries: Entries, fields: Entries)
    decreases entries
  {
    forall i :: 0 <= i < |entries| ==> FitsEntry(entries[i], fields)
  }

  // An object may lack only what was null.
  predicate FitsEntry(entry: Entry<Value>, fields: Entries)
    decreases entry
  {
    match Get(fields, entry.key)
    case Some(item) => Fits(entry.value, item)
    case None => entry.value.Null?
  }

  // The type of a value accepts exactly what fits the value.
  lemma {:induction false} FitsExact(first: Value, item: Value)
    ensures Accepts(TypeOf(first), item) <==> Fits(first, item)
    decreases first
  {
    if first.Array? && item.Array? {
      ItemsFit(first.items, item.items);
    } else if first.Object? && item.Object? {
      EntriesFit(first.fields, item.fields);
      ObjectFits(first.fields, item.fields);
    } else {
      ShallowFits(first, item);
    }
  }

  lemma ObjectFits(entries: Entries, fields: Entries)
    ensures Accepts(TypeOf(Object(entries)), Object(fields)) <==> ValidateObject(FieldsOf(entries), fields).Ok?
    ensures Fits(Object(entries), Object(fields)) <==> FitsEntries(entries, fields)
  {
    assert TypeOf(Object(entries)) == RecordType(FieldsOf(entries));
  }

  lemma ShallowFits(first: Value, item: Value)
    requires !(first.Array? && item.Array?) && !(first.Object? && item.Object?)
    ensures Accepts(TypeOf(first), item) <==> Fits(first, item)
  {
  }

  lemma {:induction false} ItemsFit(xs: seq<Value>, items: seq<Value>)
    ensures Accepts(TypeOf(Array(xs)), Array(items)) <==> Fits(Array(xs), Array(items))
    decreases xs
  {
    var element := if xs == [] then AnyType else TypeOf(xs[0]);
    ListAccepted(element, items);
    if xs != [] {
      forall i | 0 <= i < |items| ensures Accepts(element, items[i]) <==> Fits(xs[0], items[i]) {
        FitsExact(xs[0], items[i]);
      }
    }
  }

  lemma {:induction false} EntriesFit(entries: Entries, fields: Entries)
    ensures ValidateObject(FieldsOf(entries), fields).Ok? <==> FitsEntries(entries, fields)
    decreases entries
  {
    var types := FieldsOf(entries);
    ObjectAccepted(types, fields);
    forall i | 0 <= i < |entries| ensures FieldAccepts(types[i], fields) <==> FitsEntry(entries[i], fields) {
      var found := Get(fields, entries[i].key);
      if found.Some? {
        FitsExact(entries[i].value, found.value);
      }
    }
  }

  // Decoded documents: scalars of the decoded kinds, and lists whose elements
  // all fit the first.
  predicate Homogeneous(value: Value)
    decreases value
  {
    match value
    case Binary(_) => false
    case Date(_) => false
    case TimestampMicros(_) => false
    case Array(items) => forall i :: 0 <= i < |items| ==> Fits(items[0], items[i])
    case Object(entries) => forall i :: 0 <= i < |entries| ==> Homogeneous(entries[i].value)
    case _ => true
  }

  predicate DistinctlyKeyed(value: Value)
    decreases value
  {
    match value
    case Array(items) => forall i :: 0 <= i < |items| ==> DistinctlyKeyed(items[i])
    case Object(entries) => UniqueKeys(entries) && forall i :: 0 <= i < |entries| ==> DistinctlyKeyed(entries[i].value)
    case _ => true
  }

  // A value is accepted by its own type exactly when it is homogeneous.
  lemma {:induction false} SelfAccepted(value: Value)
    requires DistinctlyKeyed(value)
    ensures Accepts(TypeOf(value), value) <==> Homogeneous(value)
    decreases value
  {
    if value.Array? {
      FitsExact(value, value);
    } else if value.Object? {
      forall i | 0 <= i < |value.fields|
        ensures Accepts(TypeOf(value.fields[i].value), value.fields[i].value) <==> Homogeneous(value.fields[i].value)
      {
        SelfAccepted(value.fields[i].value);
      }
      ObjectSelfAccepted(value.fields);
    }
  }

  lemma ObjectSelfAccepted(entries: Entries)
    requires UniqueKeys(entries)
    requires forall i :: 0 <= i < |entries| ==> (Accepts(TypeOf(entries[i].value), entries[i].value) <==> Homogeneous(entries[i].value))
    ensures Accepts(TypeOf(Object(entries)), Object(entries)) <==> Homogeneous(Object(entries))
  {
    OwnRecord(entries);
    EntriesSelfAccepted(entries);
    AllHomogeneous(entries);
  }

  lemma OwnRecord(entries: Entries)
    ensures Accepts(TypeOf(Object(entries)), Object(entries)) <==> ValidateObject(FieldsOf(entries), entries).Ok?
  {
    assert TypeOf(Object(entries)) == RecordType(FieldsOf(entries));
  }

  lemma AllHomogeneous(entries: Entries)
    requires forall i :: 0 <= i < |entries| ==> (Accepts(TypeOf(entries[i].value), entries[i].value) <==> Homogeneous(entries[i].value))
    ensures Homogeneous(Object(entries)) <==> forall i :: 0 <= i < |entries| ==> Accepts(TypeOf(entries[i].value), entries[i].value)
  {
  }

  lemma EntriesSelfAccepted(entries: Entries)
    requires UniqueKeys(entries)
    ensures ValidateObject(FieldsOf(entries), entries).Ok? <==>
            forall i :: 0 <= i < |entries| ==> Accepts(TypeOf(entries[i].value), entries[i].value)
  {
    var fields := FieldsOf(entries);
    ObjectAccepted(fields, entries);
    forall i | 0 <= i < |entries|
      ensures FieldAccepts(fields[i], entries) <==> Accepts(TypeOf(entries[i].value), entries[i].value)
    {
      GetAt(entries, i);
    }
  }

  lemma UnknownIsNull(value: Value)
    ensures TypeOf(value).UnknownType? <==> value.Null?
  {
  }

  lemma UnionOfTwo(left: Type, right: Type, value: Value)
    ensures Accepts(UnionType([left, right]), value) <==> value.Null? || Accepts(left, value) || Accepts(right, value)
  {
    UnionAccepted([left, right], value);
    var variants := [left, right];
    assert variants[0] == left && variants[1] == right;
  }

  // Unifying accepts what either known side accepts, and nothing more.
  lemma UnifyExact(left: Type, right: Type, infer: InferMode, value: Value)
    requires UnifyTypes(left, right, infer).Ok?
    ensures Accepts(UnifyTypes(left, right, infer).value, value) <==>
            || value.Null? || (left.UnknownType? && right.UnknownType?)
            || (!left.UnknownType? && Accepts(left, value)) || (!right.UnknownType? && Accepts(right, value))
    ensures UnifyTypes(left, right, infer).value.UnknownType? <==> left.UnknownType? && right.UnknownType?
  {
    UnionOfTwo(left, right, value);
  }

  predicate AllNull(column: seq<Value>) {
    forall i :: 0 <= i < |column| ==> column[i].Null?
  }

  // The value fits one that the column holds.
  predicate Donates(column: seq<Value>, value: Value) {
    exists i :: 0 <= i < |column| && !column[i].Null? && Fits(column[i], value)
  }

  lemma DonatesSnoc(front: seq<Value>, last: Value, value: Value)
    ensures Donates(front + [last], value) <==> Donates(front, value) || (!last.Null? && Fits(last, value))
    ensures AllNull(front + [last]) <==> AllNull(front) && last.Null?
  {
    var column := front + [last];
    assert column[|front|] == last;
    assert forall i :: 0 <= i < |front| ==> column[i] == front[i];
  }

  // In every mode, the type of a column accepts null, whatever fits one of the
  // values the column holds, and nothing else, unless the column holds only
  // null.
  lemma {:induction false} ColumnExact(column: seq<Value>, infer: InferMode, value: Value)
    requires ColumnType(column, infer).Ok?
    ensures Accepts(ColumnType(column, infer).value, value) <==> value.Null? || AllNull(column) || Donates(column, value)
    ensures ColumnType(column, infer).value.UnknownType? <==> AllNull(column)
  {
    if column != [] {
      var n := |column| - 1;
      var front, last := column[..n], column[n];
      assert column == front + [last];
      ColumnExact(front, infer, value);
      UnknownIsNull(last);
      FitsExact(last, value);
      DonatesSnoc(front, last, value);
      UnifyExact(ColumnType(front, infer).value, TypeOf(last), infer, value);
    }
  }

  // So a column's type accepts every value its own type accepts, and a column
  // still unknown has only held null.
  lemma ColumnAccepted(column: seq<Value>, infer: InferMode)
    requires ColumnType(column, infer).Ok?
    requires forall i :: 0 <= i < |column| ==> Accepts(TypeOf(column[i]), column[i])
    ensures var ty := ColumnType(column, infer).value;
            && (forall i :: 0 <= i < |column| ==> Accepts(ty, column[i]))
            && (ty.UnknownType? <==> forall i :: 0 <= i < |column| ==> column[i].Null?)
  {
    forall i | 0 <= i < |column| ensures Accepts(ColumnType(column, infer).value, column[i]) {
      FitsExact(column[i], column[i]);
      ColumnExact(column, infer, column[i]);
    }
    ColumnExact(column, infer, Null);
  }

  ghost predicate ExactType(column: seq<Value>, ty: Type) {
    && (forall i :: 0 <= i < |column| && !column[i].Null? ==> TypeOf(column[i]) == ty)
    && (ty.UnknownType? || exists i :: 0 <= i < |column| && !column[i].Null?)
  }

  // What one more value does to the exact type of a column.
  lemma ExactTypeSnoc(front: seq<Value>, left: Type, last: Value, ty: Type)
    requires ExactType(front, left)
    ensures ExactType(front + [last], ty) <==> UnifyTypes(left, TypeOf(last), Conservative) == Ok(ty)
  {
    var column := front + [last];
    assert forall i :: 0 <= i < |front| ==> column[i] == front[i];
    assert column[|front|] == last;
    forall i | 0 <= i < |front| && !front[i].Null? ensures !TypeOf(front[i]).UnknownType? {
      UnknownIsNull(front[i]);
    }
    UnknownIsNull(last);
    if !left.UnknownType? {
      var i :| 0 <= i < |front| && !front[i].Null?;
      assert !column[i].Null? && TypeOf(column[i]) == left;
    }
  }

  lemma ExactTypeFront(front: seq<Value>, last: Value, ty: Type)
    requires ExactType(front + [last], ty)
    ensures ExactType(front, ty) || ExactType(front, UnknownType)
  {
    var column := front + [last];
    assert forall i :: 0 <= i < |front| ==> column[i] == front[i];
  }

  // Conservative inference keeps one exact type: that of every value that is
  // not null.
  lemma {:induction false} ConservativeIsExact(column: seq<Value>, ty: Type)
    ensures ColumnType(column, Conservative) == Ok(ty) <==> ExactType(column, ty)
    decreases |column|
  {
    if column != [] {
      var n := |column| - 1;
      var front, last := column[..n], column[n];
      assert column == front + [last];
      var left := ColumnType(front, Conservative);
      if left.Ok? {
        ConservativeIsExact(front, left.value);
        ExactTypeSnoc(front, left.value, last, ty);
      } else {
        ConservativeIsExact(front, ty);
        ConservativeIsExact(front, UnknownType);
        if ExactType(column, ty) {
          ExactTypeFront(front, last, ty);
        }
      }
    }
  }

  // ---------------------------------------------------------------------
  // The inferred schema.
  // ---------------------------------------------------------------------

  lemma {:induction false} ObjectIn(records: seq<Value>, i: nat) returns (k: nat)
    requires i < |records| && records[i].Object?
    ensures k < |ObjectsOf(records)| && ObjectsOf(records)[k] == records[i].fields
  {
    var n := |records| - 1;
    if i == n {
      k := |ObjectsOf(records)| - 1;
    } else {
      k := ObjectIn(records[..n], i);
    }
  }

  lemma {:induction false} ColumnHolds(objects: seq<Entries>, name: string, k: nat) returns (j: nat)
    requires k < |objects| && Get(objects[k], name).Some?
    ensures j < |Column(objects, name)| && Column(objects, name)[j] == Get(objects[k], name).value
  {
    var n := |objects| - 1;
    if k == n {
      j := |Column(objects, name)| - 1;
    } else {
      j := ColumnHolds(objects[..n], name, k);
    }
  }

  lemma {:induction false} ColumnOrigin(objects: seq<Entries>, name: string, j: nat) returns (k: nat)
    requires j < |Column(objects, name)|
    ensures k < |objects| && Get(objects[k], name) == Some(Column(objects, name)[j])
  {
    var n := |objects| - 1;
    if j < |Column(objects[..n], name)| {
      k := ColumnOrigin(objects[..n], name, j);
    } else {
      k := n;
    }
  }

  // What the records ask of an object under one name.
  predicate Admits(objects: seq<Entries>, name: string, entries: Entries) {
    match Get(entries, name)
    case Some(value) => value.Null? || AllNull(Column(objects, name)) || Donates(Column(objects, name), value)
    case None => Gapped(objects, name)
  }

  predicate AdmitsObject(objects: seq<Entries>, entries: Entries) {
    forall name :: name in SeenNames(objects) ==> Admits(objects, name, entries)
  }

  lemma TabulatedExact(f: Field, objects: seq<Entries>, infer: InferMode, entries: Entries)
    requires Tabulated(f, objects, infer)
    ensures FieldAccepts(f, entries) <==> Admits(objects, f.name, entries)
  {
    var found := Get(entries, f.name);
    if found.Some? {
      ColumnExact(Column(objects, f.name), infer, found.value);
    }
  }

  lemma FieldsAdmit(fields: seq<Field>, objects: seq<Entries>, infer: InferMode, entries: Entries)
    requires Tabulates(fields, objects, infer)
    ensures (forall j :: 0 <= j < |fields| ==> FieldAccepts(fields[j], entries)) <==> AdmitsObject(objects, entries)
  {
    var names := SeenNames(objects);
    assert |FieldNames(fields)| == |fields|;
    forall j | 0 <= j < |fields| ensures names[j] == fields[j].name && (FieldAccepts(fields[j], entries) <==> Admits(objects, names[j], entries)) {
      assert Tabulated(fields[j], objects, infer) && FieldNames(fields)[j] == fields[j].name;
      TabulatedExact(fields[j], objects, infer, entries);
    }
    if forall j :: 0 <= j < |fields| ==> FieldAccepts(fields[j], entries) {
      forall name | name in names ensures Admits(objects, name, entries) {
        var j :| 0 <= j < |names| && names[j] == name;
        assert FieldAccepts(fields[j], entries);
      }
    }
    if AdmitsObject(objects, entries) {
      forall j | 0 <= j < |fields| ensures FieldAccepts(fields[j], entries) {
        assert names[j] in names;
      }
    }
  }

  lemma RecordExact(fields: seq<Field>, objects: seq<Entries>, infer: InferMode, value: Value)
    requires Tabulates(fields, objects, infer)
    ensures Accepts(RecordType(fields), value) <==> value.Null? || (value.Object? && AdmitsObject(objects, value.fields))
  {
    if value.Object? {
      ObjectAccepted(fields, value.fields);
      FieldsAdmit(fields, objects, infer, value.fields);
    }
  }

  // The inferred schema accepts null and the objects that, under every name
  // the records have, hold null or a value fitting one of the column, or lack
  // it where some record has a gap. The mode does not matter.
  lemma SchemaExact(records: seq<Value>, infer: InferMode, value: Value)
    requires InferFields(records, infer).Ok? && AllUnique(ObjectsOf(records)) && records != [] && records[0].Object?
    ensures Accepts(RecordType(InferFields(records, infer).value), value) <==>
            value.Null? || (value.Object? && AdmitsObject(ObjectsOf(records), value.fields))
  {
    InferenceIsColumnwise(records, infer);
    RecordExact(InferFields(records, infer).value, ObjectsOf(records), infer, value);
  }

  // Each value of the object is null or fits one that its own column holds.
  predicate Fitted(objects: seq<Entries>, entries: Entries) {
    forall j :: 0 <= j < |entries| ==> entries[j].value.Null? || Donates(Column(objects, entries[j].key), entries[j].value)
  }

  lemma AdmitsOwn(objects: seq<Entries>, k: nat, name: string)
    requires k < |objects|
    ensures match Get(objects[k], name)
            case Some(value) => Admits(objects, name, objects[k]) <==> value.Null? || Donates(Column(objects, name), value)
            case None => Admits(objects, name, objects[k])
  {
    if Get(objects[k], name).Some? {
      var j := ColumnHolds(objects, name, k);
    } else {
      assert Gap(objects[k], name);
    }
  }

  lemma FittedExact(objects: seq<Entries>, k: nat)
    requires AllUnique(objects) && k < |objects|
    ensures AdmitsObject(objects, objects[k]) <==> Fitted(objects, objects[k])
  {
    var entries := objects[k];
    SeenOrUnseen(objects);
    forall j | 0 <= j < |entries|
      ensures entries[j].key in SeenNames(objects)
      ensures Admits(objects, entries[j].key, entries) <==>
              entries[j].value.Null? || Donates(Column(objects, entries[j].key), entries[j].value)
    {
      GetAt(entries, j);
      AdmitsOwn(objects, k, entries[j].key);
      assert HasKey(objects[k], entries[j].key);
    }
    if Fitted(objects, entries) {
      forall name ensures Admits(objects, name, entries) {
        AdmitsOwn(objects, k, name);
        if HasKey(entries, name) {
          var j := GetFirst(entries, name);
        }
      }
    }
  }

  // Which of its own records the inferred schema accepts, in every mode: the
  // objects each of whose values is null or fits one of its column, and null.
  lemma InferenceExact(records: seq<Value>, infer: InferMode, i: nat)
    requires InferFields(records, infer).Ok? && AllUnique(ObjectsOf(records)) && i < |records|
    ensures Accepts(RecordType(InferFields(records, infer).value), records[i]) <==>
            || records[i].Null?
            || (records[i].Object? && (records[0].Object? ==> Fitted(ObjectsOf(records), records[i].fields)))
  {
    if !records[0].Object? {
      AnyObject(records[i]);
    } else {
      SchemaExact(records, infer, records[i]);
      if records[i].Object? {
        OwnFitted(records, i);
      }
    }
  }

  lemma AnyObject(value: Value)
    ensures Accepts(RecordType([]), value) <==> value.Null? || value.Object?
  {
  }

  lemma OwnFitted(records: seq<Value>, i: nat)
    requires AllUnique(ObjectsOf(records)) && i < |records| && records[i].Object?
    ensures AdmitsObject(ObjectsOf(records), records[i].fields) <==> Fitted(ObjectsOf(records), records[i].fields)
  {
    var k := ObjectIn(records, i);
    FittedExact(ObjectsOf(records), k);
  }

  // A record of homogeneous values.
  predicate GoodObject(record: Value) {
    record.Object? ==> DistinctlyKeyed(record) && Homogeneous(record)
  }

  lemma {:induction false} ObjectsUnique(records: seq<Value>)
    requires forall i :: 0 <= i < |records| && records[i].Object? ==> UniqueKeys(records[i].fields)
    ensures AllUnique(ObjectsOf(records))
  {
    if records != [] {
      var n := |records| - 1;
      assert forall i :: 0 <= i < n ==> records[..n][i] == records[i];
      ObjectsUnique(records[..n]);
    }
  }

  // Homogeneous values fit themselves.
  lemma HomogeneousFitted(records: seq<Value>, i: nat)
    requires i < |records| && records[i].Object? && GoodObject(records[i])
    ensures Fitted(ObjectsOf(records), records[i].fields)
  {
    var entries, objects := records[i].fields, ObjectsOf(records);
    var k := ObjectIn(records, i);
    forall j | 0 <= j < |entries| && !entries[j].value.Null? ensures Donates(Column(objects, entries[j].key), entries[j].value) {
      assert DistinctlyKeyed(entries[j].value) && Homogeneous(entries[j].value);
      SelfAccepted(entries[j].value);
      FitsExact(entries[j].value, entries[j].value);
      GetAt(entries, j);
      var m := ColumnHolds(objects, entries[j].key, k);
    }
  }

  // So the schema inferred from homogeneous records accepts each of them that
  // is an object (or null), and nothing else among them.
  lemma InferenceSound(records: seq<Value>, infer: InferMode)
    requires InferFields(records, infer).Ok?
    requires forall i :: 0 <= i < |records| ==> GoodObject(records[i])
    ensures forall i :: 0 <= i < |records| ==>
              (Accepts(RecordType(InferFields(records, infer).value), records[i]) <==> records[i].Object? || records[i].Null?)
  {
    forall i | 0 <= i < |records| && records[i].Object? ensures UniqueKeys(records[i].fields) {
      assert GoodObject(records[i]);
    }
    ObjectsUnique(records);
    forall i | 0 <= i < |records|
      ensures Accepts(RecordType(InferFields(records, infer).value), records[i]) <==> records[i].Object? || records[i].Null?
    {
      InferenceExact(records, infer, i);
      if records[i].Object? {
        HomogeneousFitted(records, i);
      }
    }
  }

  // Alone, a record is accepted by its inferred schema exactly when it is
  // homogeneous.
  lemma LoneRecord(record: Value, infer: InferMode)
    requires record.Object? && DistinctlyKeyed(record)
    ensures InferFields([record], infer).Ok?
    ensures Accepts(RecordType(InferFields([record], infer).value), record) <==> Homogeneous(record)
  {
    assert [record][1..] == [];
    assert InferFields([record], infer) == Ok(FieldsOf(record.fields));
    SelfAccepted(record);
  }

  function Ragged(n: Int64): Value {
    Array([Object([Entry("a", Int(n))]), Object([])])
  }

  // A list element that lacks a field the first one filled makes the list
  // refused, though a list may mix anything once its first element is null.
  lemma RaggedList(n: Int64, text: string)
    ensures !Homogeneous(Ragged(n)) && Homogeneous(Array([Null, Int(n), String(text)]))
  {
    var first, second := Object([Entry("a", Int(n))]), Object([]);
    assert first.fields[0] == Entry("a", Int(n)) && second.fields == [];
    assert !FitsEntry(first.fields[0], second.fields);
    assert !Fits(first, second);
    assert [first, second][1] == second;
  }

  lemma RaggedRefused(n: Int64, infer: InferMode)
    ensures var record := Object([Entry("rows", Ragged(n))]);
            && InferFields([record], infer).Ok?
            && !Accepts(RecordType(InferFields([record], infer).value), record)
  {
    var record := Object([Entry("rows", Ragged(n))]);
    RaggedList(n, "");
    assert DistinctlyKeyed(Ragged(n).items[0]) && DistinctlyKeyed(Ragged(n).items[1]);
    assert DistinctlyKeyed(Ragged(n));
    assert record.fields[0].value == Ragged(n);
    LoneRecord(record, infer);
  }

  // ---------------------------------------------------------------------
  // Identifier keys give a well-named schema.
  // ---------------------------------------------------------------------

  // Keys the inferred type will name are identifiers.
  predicate IdentKeyed(value: Value)
    decreases value
  {
    match value
    case Array(items) => items != [] ==> IdentKeyed(items[0])
    case Object(entries) => forall i :: 0 <= i < |entries| ==> IsIdent(entries[i].key) && IdentKeyed(entries[i].value)
    case _ => true
  }

  lemma {:induction false} TypeWellNamed(value: Value)
    requires IdentKeyed(value) && DistinctlyKeyed(value)
    ensures WellNamed(TypeOf(value))
    decreases value
  {
    if value.Array? {
      if value.items != [] {
        TypeWellNamed(value.items[0]);
      }
    } else if value.Object? {
      var fields := FieldsOf(value.fields);
      forall i | 0 <= i < |fields| ensures IsIdent(fields[i].name) && WellNamed(fields[i].ty) {
        assert IdentKeyed(value.fields[i].value) && DistinctlyKeyed(value.fields[i].value);
        TypeWellNamed(value.fields[i].value);
      }
      assert UniqueNames(fields);
    }
  }

  lemma {:induction false} ColumnWellNamed(column: seq<Value>, infer: InferMode)
    requires ColumnType(column, infer).Ok?
    requires forall i :: 0 <= i < |column| ==> WellNamed(TypeOf(column[i]))
    ensures WellNamed(ColumnType(column, infer).value)
  {
    if column != [] {
      ColumnWellNamed(column[..|column| - 1], infer);
      assert WellNamed(TypeOf(column[|column| - 1]));
    }
  }

  predicate NamedObject(record: Value) {
    record.Object? ==> DistinctlyKeyed(record) && IdentKeyed(record)
  }

  lemma {:induction false} ObjectsNamed(records: seq<Value>)
    requires forall i :: 0 <= i < |records| ==> NamedObject(records[i])
    ensures AllUnique(ObjectsOf(records))
    ensures forall k :: 0 <= k < |ObjectsOf(records)| ==>
              DistinctlyKeyed(Object(ObjectsOf(records)[k])) && IdentKeyed(Object(ObjectsOf(records)[k]))
  {
    if records != [] {
      var n := |records| - 1;
      assert forall i :: 0 <= i < n ==> records[..n][i] == records[i];
      ObjectsNamed(records[..n]);
      assert NamedObject(records[n]);
    }
  }

  lemma EntryNamed(entries: Entries, name: string)
    requires DistinctlyKeyed(Object(entries)) && IdentKeyed(Object(entries)) && Get(entries, name).Some?
    ensures IsIdent(name) && WellNamed(TypeOf(Get(entries, name).value))
  {
    var i := GetFirst(entries, name);
    assert IdentKeyed(entries[i].value) && DistinctlyKeyed(entries[i].value);
    TypeWellNamed(entries[i].value);
  }

  lemma TabulatedWellNamed(f: Field, objects: seq<Entries>, infer: InferMode)
    requires Tabulated(f, objects, infer) && f.name in SeenNames(objects)
    requires forall k :: 0 <= k < |objects| ==> DistinctlyKeyed(Object(objects[k])) && IdentKeyed(Object(objects[k]))
    ensures IsIdent(f.name) && WellNamed(f.ty)
  {
    SeenOrUnseen(objects);
    var k :| 0 <= k < |objects| && HasKey(objects[k], f.name);
    EntryNamed(objects[k], f.name);
    var column := Column(objects, f.name);
    forall j | 0 <= j < |column| ensures WellNamed(TypeOf(column[j])) {
      var i := ColumnOrigin(objects, f.name, j);
      EntryNamed(objects[i], f.name);
    }
    ColumnWellNamed(column, infer);
  }

  lemma InferenceWellNamed(records: seq<Value>, infer: InferMode)
    requires InferFields(records, infer).Ok?
    requires forall i :: 0 <= i < |records| ==> NamedObject(records[i])
    ensures WellNamedFields(InferFields(records, infer).value)
  {
    if records != [] && records[0].Object? {
      ObjectsNamed(records);
      InferenceIsColumnwise(records, infer);
      var fields := InferFields(records, infer).value;
      var objects := ObjectsOf(records);
      forall j | 0 <= j < |fields| ensures IsIdent(fields[j].name) && WellNamed(fields[j].ty) {
        assert Tabulated(fields[j], objects, infer);
        assert FieldNames(fields)[j] == fields[j].name;
        TabulatedWellNamed(fields[j], objects, infer);
      }
      forall i, j | 0 <= i < j < |fields| ensures fields[i].name != fields[j].name {
        assert FieldNames(fields)[i] != FieldNames(fields)[j];
      }
    }
  }
}
