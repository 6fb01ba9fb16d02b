// Source leaves, their dotted paths, and what reading them yields: a leaf is
// found again by its names, and records can be planted to hold a value there.
module SourceLeaves {
  import opened Results
  import opened IndexMaps
  import opened Paths
  import opened Values
  import opened Schemas
  import opened Validation
  import opened Engine
  import opened Planner

  // The leaves one field contributes.
  function LeavesOf(f: Field, prefix: string): seq<FieldRef> {
    var path := JoinPath(prefix, f.name);
    if f.ty.RecordType? then CollectSources(f.ty.fields, path) else [FieldRef(path, f)]
  }

  // The non-record field a chain of names leads to.
  function LeafField(fields: seq<Field>, names: seq<string>): Option<Field>
    decreases |names|
  {
    if names == [] then None
    else match FindField(fields, names[0])
      case None => None
      case Some(f) =>
        if |names| == 1 then (if f.ty.RecordType? then None else Some(f))
        else if f.ty.RecordType? then LeafField(f.ty.fields, names[1..])
        else None
  }

  lemma {:induction false} FindFieldGrows(fields: seq<Field>, last: Field, name: string)
    requires FindField(fields, name).Some?
    ensures FindField(fields + [last], name) == FindField(fields, name)
  {
    if fields[0].name != name {
      assert (fields + [last])[1..] == fields[1..] + [last];
      FindFieldGrows(fields[1..], last, name);
    }
  }

  lemma LeafUnderRecord(fields: seq<Field>, f: Field, rest: seq<string>, leaf: Field)
    requires FindField(fields, f.name) == Some(f) && f.ty.RecordType?
    requires LeafField(f.ty.fields, rest) == Some(leaf)
    ensures LeafField(fields, [f.name] + rest) == Some(leaf)
  {
    assert ([f.name] + rest)[1..] == rest;
  }

  lemma JoinDeeper(prefix: seq<string>, name: string)
    ensures JoinNames(prefix + [name]) == JoinPath(JoinNames(prefix), name)
  {
    var deeper := prefix + [name];
    assert deeper[..|deeper| - 1] == prefix;
  }

  // Every collected leaf is found again by its names, and its path joins them.
  ghost predicate Locates(fields: seq<Field>, prefix: seq<string>, leaf: FieldRef, names: seq<string>) {
    && names != [] && AllIdents(names)
    && LeafField(fields, names) == Some(leaf.field)
    && leaf.path == JoinNames(prefix + names)
  }

  lemma WellNamedPrefix(fields: seq<Field>, n: nat)
    requires WellNamedFields(fields) && n <= |fields|
    ensures WellNamedFields(fields[..n])
  {
    var front := fields[..n];
    forall i | 0 <= i < n ensures IsIdent(front[i].name) && WellNamed(front[i].ty) {
      assert front[i] == fields[i];
    }
  }

  // The names that lead to a leaf lead to it in the longer record too.
  lemma LocatesGrows(front: seq<Field>, last: Field, prefix: seq<string>, leaf: FieldRef, names: seq<string>)
    requires Locates(front, prefix, leaf, names)
    ensures Locates(front + [last], prefix, leaf, names)
  {
    FindFieldGrows(front, last, names[0]);
  }

  lemma LocatesNested(fields: seq<Field>, f: Field, prefix: seq<string>, leaf: FieldRef, rest: seq<string>)
    requires FindField(fields, f.name) == Some(f) && f.ty.RecordType? && IsIdent(f.name)
    requires Locates(f.ty.fields, prefix + [f.name], leaf, rest)
    ensures Locates(fields, prefix, leaf, [f.name] + rest)
  {
    LeafUnderRecord(fields, f, rest, leaf.field);
    assert prefix + ([f.name] + rest) == prefix + [f.name] + rest;
  }

  lemma {:induction false} CollectedLeaf(fields: seq<Field>, prefix: seq<string>, leaf: FieldRef) returns (names: seq<string>)
    requires WellNamedFields(fields)
    requires leaf in CollectSources(fields, JoinNames(prefix))
    ensures Locates(fields, prefix, leaf, names)
    decreases fields
  {
    var n := |fields| - 1;
    var front, last := fields[..n], fields[n];
    assert fields == front + [last];
    WellNamedPrefix(fields, n);
    if leaf in CollectSources(front, JoinNames(prefix)) {
      names := CollectedLeaf(front, prefix, leaf);
      LocatesGrows(front, last, prefix, leaf, names);
    } else {
      FindFieldAt(fields, n);
      JoinDeeper(prefix, last.name);
      if last.ty.RecordType? {
        var rest := CollectedLeaf(last.ty.fields, prefix + [last.name], leaf);
        names := [last.name] + rest;
        LocatesNested(fields, last, prefix, leaf, rest);
      } else {
        names := [last.name];
      }
    }
  }

  // Leaves with the same path are the same field.
  ghost predicate Functional(sources: seq<FieldRef>) {
    forall a, b :: a in sources && b in sources && a.path == b.path ==> a == b
  }

  lemma CollectFunctional(fields: seq<Field>)
    requires WellNamedFields(fields)
    ensures Functional(CollectSources(fields, ""))
  {
    var sources := CollectSources(fields, "");
    forall a, b | a in sources && b in sources && a.path == b.path ensures a == b {
      var x := LeafNames(fields, a);
      var y := LeafNames(fields, b);
      JoinNamesInjective(x, y);
    }
  }

  // The same at the root, where paths are the joined names themselves.
  lemma LeafNames(fields: seq<Field>, leaf: FieldRef) returns (names: seq<string>)
    requires WellNamedFields(fields) && leaf in CollectSources(fields, "")
    ensures names != [] && AllIdents(names)
    ensures LeafField(fields, names) == Some(leaf.field) && leaf.path == JoinNames(names)
    ensures Parse(leaf.path) == Ok(FieldPath(FieldSegments(names)))
  {
    names := CollectedLeaf(fields, [], leaf);
    assert [] + names == names;
    JoinedNamesParse(names);
  }

  lemma {:induction false} FindSourceSound(sources: seq<FieldRef>, path: string)
    ensures FindSource(sources, path).Some? ==> FieldRef(path, FindSource(sources, path).value) in sources
    ensures FindSource(sources, path).None? ==> forall s :: s in sources ==> s.path != path
  {
    if sources != [] && sources[0].path != path {
      FindSourceSound(sources[1..], path);
    }
  }

  // ---------------------------------------------------------------------
  // Reading.
  // ---------------------------------------------------------------------

  lemma {:induction false} NullReadsNull(segments: seq<Segment>)
    ensures ReadSegments(Null, segments) == Null
  {
  }

  // A value the schema accepts holds, at every leaf, null or a value the leaf
  // type accepts.
  lemma {:induction false} LeafReadAccepted(fields: seq<Field>, names: seq<string>, leaf: Field, value: Value)
    requires LeafField(fields, names) == Some(leaf)
    requires Accepts(RecordType(fields), value)
    ensures Accepts(leaf.ty, ReadSegments(value, FieldSegments(names)))
    decreases |names|
  {
    var segments := FieldSegments(names);
    if value.Null? {
      NullReadsNull(segments);
    } else {
      var f := FindField(fields, names[0]).value;
      ObjectAccepted(fields, value.fields);
      var k :| 0 <= k < |fields| && fields[k] == f;
      assert FieldAccepts(f, value.fields);
      assert segments[1..] == FieldSegments(names[1..]);
      match Get(value.fields, names[0])
      case Some(inner) =>
        if |names| > 1 {
          LeafReadAccepted(f.ty.fields, names[1..], leaf, inner);
        }
      case None =>
        NullReadsNull(segments[1..]);
    }
  }

  // ---------------------------------------------------------------------
  // Planting a value at a leaf of an otherwise null record.
  // ---------------------------------------------------------------------

  function PlantEntries(fields: seq<Field>, names: seq<string>, value: Value): (r: IndexMap<Value>)
    ensures |r| == |fields| && forall i :: 0 <= i < |fields| ==> r[i].key == fields[i].name
    decreases fields
  {
    if fields == [] then [] else
      var f := fields[0];
      var planted :=
        if names == [] || f.name != names[0] then Null
        else if |names| == 1 then value
        else if f.ty.RecordType? then Object(PlantEntries(f.ty.fields, names[1..], value))
        else Null;
      [Entry(f.name, planted)] + PlantEntries(fields[1..], names, value)
  }

  function PlantedAt(f: Field, names: seq<string>, value: Value): Value {
    if names == [] || f.name != names[0] then Null
    else if |names| == 1 then value
    else if f.ty.RecordType? then Object(PlantEntries(f.ty.fields, names[1..], value))
    else Null
  }

  lemma {:induction false} PlantedEntry(fields: seq<Field>, names: seq<string>, value: Value, i: nat)
    requires i < |fields|
    ensures PlantEntries(fields, names, value)[i] == Entry(fields[i].name, PlantedAt(fields[i], names, value))
  {
    if i > 0 {
      PlantedEntry(fields[1..], names, value, i - 1);
    }
  }

  lemma PlantedGet(fields: seq<Field>, names: seq<string>, value: Value, i: nat)
    requires UniqueNames(fields) && i < |fields|
    ensures Get(PlantEntries(fields, names, value), fields[i].name) == Some(PlantedAt(fields[i], names, value))
  {
    PlantedEntry(fields, names, value, i);
    GetAt(PlantEntries(fields, names, value), i);
  }

  lemma PlantSteps(fields: seq<Field>, names: seq<string>, f: Field, value: Value)
    requires UniqueNames(fields) && names != [] && FindField(fields, names[0]) == Some(f)
    ensures Get(PlantEntries(fields, names, value), names[0]) == Some(PlantedAt(f, names, value))
  {
    var k :| 0 <= k < |fields| && fields[k] == f;
    PlantedGet(fields, names, value, k);
  }

  // The planted record reads back the planted value.
  lemma {:induction false} PlantReads(fields: seq<Field>, names: seq<string>, leaf: Field, value: Value)
    requires WellNamedFields(fields) && LeafField(fields, names) == Some(leaf)
    ensures ReadSegments(Object(PlantEntries(fields, names, value)), FieldSegments(names)) == value
    decreases |names|
  {
    var f := FindField(fields, names[0]).value;
    PlantSteps(fields, names, f, value);
    assert FieldSegments(names)[1..] == FieldSegments(names[1..]);
    if |names| > 1 {
      PlantReads(f.ty.fields, names[1..], leaf, value);
    }
  }

  lemma PlantFits(fields: seq<Field>, names: seq<string>, f: Field, value: Value)
    requires UniqueNames(fields) && names != [] && FindField(fields, names[0]) == Some(f)
    requires Accepts(f.ty, PlantedAt(f, names, value))
    ensures Accepts(RecordType(fields), Object(PlantEntries(fields, names, value)))
  {
    var entries := PlantEntries(fields, names, value);
    forall i | 0 <= i < |fields| ensures FieldAccepts(fields[i], entries) {
      PlantedGet(fields, names, value, i);
      if fields[i].name == names[0] {
        FindFieldAt(fields, i);
      }
    }
    ObjectAccepted(fields, entries);
  }

  // The planted record is accepted.
  lemma {:induction false} PlantAccepted(fields: seq<Field>, names: seq<string>, leaf: Field, value: Value)
    requires WellNamedFields(fields) && LeafField(fields, names) == Some(leaf)
    requires Accepts(leaf.ty, value)
    ensures Accepts(RecordType(fields), Object(PlantEntries(fields, names, value)))
    decreases |names|
  {
    var f := FindField(fields, names[0]).value;
    if |names| > 1 {
      PlantAccepted(f.ty.fields, names[1..], leaf, value);
    }
    PlantFits(fields, names, f, value);
  }
}
