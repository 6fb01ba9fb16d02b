// When one type accepts all that another does.
module Inclusion {
  import opened Results
  import opened IndexMaps
  import opened Values
  import opened Schemas
  import opened Validation

  ghost predicate Included(source: Type, target: Type) {
    forall value :: Accepts(source, value) ==> Accepts(target, value)
  }

  // ---------------------------------------------------------------------
  // Kinds of values.
  // ---------------------------------------------------------------------

  datatype Kind = BoolKind | IntKind | FloatKind | TextKind | OpaqueKind | ArrayKind | ObjectKind

  function KindOf(value: Value): Kind
    requires !value.Null?
  {
    match value
    case Bool(_) => BoolKind
    case Int(_) => IntKind
    case UInt(_) => IntKind
    case FloatValue(_) => FloatKind
    case Decimal(_) => TextKind
    case String(_) => TextKind
    case Array(_) => ArrayKind
    case Object(_) => ObjectKind
    case Binary(_) => OpaqueKind
    case Date(_) => OpaqueKind
    case TimestampMicros(_) => OpaqueKind
  }

  predicate IsUniversal(ty: Type) {
    ty.AnyType? || ty.UnknownType?
  }

  // The kinds a type other than a union takes values of.
  predicate Takes(ty: Type, kind: Kind) {
    match ty
    case AnyType => true
    case UnknownType => true
    case BoolType => kind == BoolKind
    case IntType(_, _) => kind == IntKind
    case FloatType(_) => kind == FloatKind || kind == IntKind
    case StringType => kind == TextKind
    case DecimalType(_, _) => kind == TextKind
    case ListType(_, _) => kind == ArrayKind
    case RecordType(_) => kind == ObjectKind
    case _ => false
  }

  // A value that is no list and no object is accepted by kind.
  predicate IsScalar(kind: Kind) {
    !kind.ArrayKind? && !kind.ObjectKind?
  }

  function Sample(kind: Kind): (value: Value)
    ensures !value.Null? && KindOf(value) == kind
  {
    match kind
    case BoolKind => Bool(true)
    case IntKind => Int(0)
    case FloatKind => FloatValue(Float(0))
    case TextKind => String("")
    case OpaqueKind => Date(0)
    case ArrayKind => Array([])
    case ObjectKind => Object([])
  }

  lemma AcceptedByKind(ty: Type, value: Value)
    requires !ty.UnionType? && !value.Null?
    ensures Accepts(ty, value) ==> Takes(ty, KindOf(value))
    ensures IsScalar(KindOf(value)) || IsUniversal(ty) ==> (Accepts(ty, value) <==> Takes(ty, KindOf(value)))
  {
  }

  // ---------------------------------------------------------------------
  // Sizes, for termination.
  // ---------------------------------------------------------------------

  function Size(ty: Type): nat
    decreases ty
  {
    match ty
    case RecordType(fields) => 1 + FieldSizes(fields)
    case ListType(element, _) => 1 + Size(element)
    case UnionType(variants) => 1 + Sizes(variants)
    case _ => 1
  }

  function Sizes(types: seq<Type>): nat
    decreases types
  {
    if types == [] then 0 else Size(types[0]) + Sizes(types[1..])
  }

  function FieldSizes(fields: seq<Field>): nat
    decreases fields
  {
    if fields == [] then 0 else 1 + Size(fields[0].ty) + FieldSizes(fields[1..])
  }

  lemma {:induction false} SizesAppend(a: seq<Type>, b: seq<Type>)
    ensures Sizes(a + b) == Sizes(a) + Sizes(b)
  {
    if a == [] {
      assert a + b == b;
    } else {
      assert (a + b)[1..] == a[1..] + b;
      SizesAppend(a[1..], b);
    }
  }

  lemma {:induction false} FieldSizesAppend(a: seq<Field>, b: seq<Field>)
    ensures FieldSizes(a + b) == FieldSizes(a) + FieldSizes(b)
  {
    if a == [] {
      assert a + b == b;
    } else {
      assert (a + b)[1..] == a[1..] + b;
      FieldSizesAppend(a[1..], b);
    }
  }

  lemma SizesReplace(types: seq<Type>, i: nat, more: seq<Type>)
    requires i < |types|
    ensures Sizes(types[..i] + more + types[i + 1..]) + Size(types[i]) == Sizes(types) + Sizes(more)
  {
    assert types == types[..i] + ([types[i]] + types[i + 1..]);
    SizesAppend(types[..i], [types[i]] + types[i + 1..]);
    SizesAppend([types[i]], types[i + 1..]);
    SizesAppend(types[..i] + more, types[i + 1..]);
    SizesAppend(types[..i], more);
    assert [types[i]][1..] == [];
  }

  lemma {:induction false} SizeOfVariant(types: seq<Type>, i: nat)
    requires i < |types|
    ensures Size(types[i]) <= Sizes(types)
  {
    if i > 0 {
      SizeOfVariant(types[1..], i - 1);
    }
  }

  lemma {:induction false} SizeOfField(fields: seq<Field>, i: nat)
    requires i < |fields|
    ensures FieldSizes([fields[i]]) <= FieldSizes(fields)
  {
    assert [fields[i]][1..] == [];
    if i > 0 {
      SizeOfField(fields[1..], i - 1);
    }
  }

  // ---------------------------------------------------------------------
  // The decision procedure: do the targets together accept every value that
  // all the sources accept?
  // ---------------------------------------------------------------------

  // Element types of the lists among the types.
  function Elements(types: seq<Type>): (elements: seq<Type>)
    ensures Sizes(elements) <= Sizes(types)
  {
    if types == [] then [] else
      var own, rest := if types[0].ListType? then [types[0].element] else [], Elements(types[1..]);
      SizesAppend(own, rest);
      assert types[0].ListType? ==> own[1..] == [];
      own + rest
  }

  // All the fields of the records among the types.
  function AllFields(types: seq<Type>): (fields: seq<Field>)
    ensures FieldSizes(fields) <= Sizes(types)
  {
    if types == [] then [] else
      var own, rest := if types[0].RecordType? then types[0].fields else [], AllFields(types[1..]);
      FieldSizesAppend(own, rest);
      own + rest
  }

  function TypesUnder(fields: seq<Field>, name: string): (types: seq<Type>)
    ensures Sizes(types) <= FieldSizes(fields)
    ensures fields != [] ==> Sizes(types) < FieldSizes(fields)
  {
    if fields == [] then [] else
      var own, rest := if fields[0].name == name then [fields[0].ty] else [], TypesUnder(fields[1..], name);
      SizesAppend(own, rest);
      assert fields[0].name == name ==> own[1..] == [];
      own + rest
  }

  // Whether a field tolerates its name being absent.
  predicate AbsentFits(fields: seq<Field>, name: string) {
    forall i :: 0 <= i < |fields| && fields[i].name == name ==> fields[i].nullable
  }

  predicate AbsentRefused(fields: seq<Field>, name: string) {
    forall i :: 0 <= i < |fields| && fields[i].name == name ==> !fields[i].nullable
  }

  predicate SomeUniversal(types: seq<Type>) {
    exists i :: 0 <= i < |types| && IsUniversal(types[i])
  }

  predicate AllTake(types: seq<Type>, kind: Kind) {
    forall i :: 0 <= i < |types| ==> Takes(types[i], kind)
  }

  predicate SomeTakes(types: seq<Type>, kind: Kind) {
    exists i :: 0 <= i < |types| && Takes(types[i], kind)
  }

  function FirstUnion(types: seq<Type>): (r: Option<nat>)
    ensures r.Some? ==> r.value < |types| && types[r.value].UnionType?
    ensures r.None? ==> forall i :: 0 <= i < |types| ==> !types[i].UnionType?
  {
    if types == [] then None
    else if types[0].UnionType? then Some(0)
    else
      var rest := FirstUnion(types[1..]);
      assert forall i :: 0 < i < |types| ==> types[i] == types[1..][i - 1];
      if rest.Some? then Some(rest.value + 1) else None
  }

  function ReplaceAt(types: seq<Type>, i: nat, more: seq<Type>): seq<Type>
    requires i < |types|
  {
    types[..i] + more + types[i + 1..]
  }

  // Unions split: the sources by each variant, the targets into all of them.
  // What is left is decided scalar kind by scalar kind, for lists by one list
  // target whose elements cover, and for records by fields.
  predicate Covers(sources: seq<Type>, targets: seq<Type>)
    decreases Sizes(sources) + Sizes(targets), 1, 0
  {
    var s, t := FirstUnion(sources), FirstUnion(targets);
    if s.Some? then
      var variants := sources[s.value].variants;
      forall k :: 0 <= k < |variants| ==>
        (SplitSmaller(sources, s.value, k); Covers(ReplaceAt(sources, s.value, [variants[k]]), targets))
    else if t.Some? then
      SizesReplace(targets, t.value, targets[t.value].variants);
      Covers(sources, ReplaceAt(targets, t.value, targets[t.value].variants))
    else if SomeUniversal(targets) then true
    else
      && CoversScalars(sources, targets)
      && (AllTake(sources, ArrayKind) ==>
            exists j :: 0 <= j < |targets| && targets[j].ListType? &&
              (SizeOfVariant(targets, j); SingleSize(targets[j].element); Covers(Elements(sources), [targets[j].element])))
      && (AllTake(sources, ObjectKind) ==> CoversRecords(AllFields(sources), targets, []))
  }

  predicate CoversScalars(sources: seq<Type>, targets: seq<Type>) {
    forall kind: Kind :: IsScalar(kind) && AllTake(sources, kind) ==> SomeTakes(targets, kind)
  }

  // However one field is chosen per target record, some chosen name is sure
  // to be accepted by a chosen field.
  predicate CoversRecords(fields: seq<Field>, targets: seq<Type>, chosen: seq<Field>)
    decreases FieldSizes(fields) + Sizes(targets) + FieldSizes(chosen), 0, 1 + |targets|
  {
    if targets == [] then
      exists i :: 0 <= i < |chosen| && CoversName(fields, chosen, chosen[i].name)
    else if targets[0].RecordType? then
      var own := targets[0].fields;
      forall i :: 0 <= i < |own| ==>
        (ChooseSmaller(targets, chosen, i); CoversRecords(fields, targets[1..], chosen + [own[i]]))
    else CoversRecords(fields, targets[1..], chosen)
  }

  predicate CoversName(fields: seq<Field>, chosen: seq<Field>, name: string)
    requires chosen != []
    decreases FieldSizes(fields) + FieldSizes(chosen), 0, 0
  {
    && !(AbsentFits(fields, name) && AbsentRefused(chosen, name))
    && Covers(TypesUnder(fields, name), TypesUnder(chosen, name))
  }

  lemma SplitSmaller(sources: seq<Type>, i: nat, k: nat)
    requires i < |sources| && sources[i].UnionType? && k < |sources[i].variants|
    ensures Sizes(ReplaceAt(sources, i, [sources[i].variants[k]])) < Sizes(sources)
  {
    SizesReplace(sources, i, [sources[i].variants[k]]);
    SizeOfVariant(sources[i].variants, k);
    SingleSize(sources[i].variants[k]);
  }

  lemma ChooseSmaller(targets: seq<Type>, chosen: seq<Field>, i: nat)
    requires targets != [] && targets[0].RecordType? && i < |targets[0].fields|
    ensures Sizes(targets[1..]) + FieldSizes(chosen + [targets[0].fields[i]]) < Sizes(targets) + FieldSizes(chosen)
  {
    SizeOfField(targets[0].fields, i);
    FieldSizesAppend(chosen, [targets[0].fields[i]]);
  }

  lemma SingleSize(ty: Type)
    ensures Sizes([ty]) == Size(ty)
  {
    assert [ty][1..] == [];
  }

  // ---------------------------------------------------------------------
  // The procedure is exact.
  // ---------------------------------------------------------------------

  predicate AllAccept(types: seq<Type>, value: Value) {
    forall i :: 0 <= i < |types| ==> Accepts(types[i], value)
  }

  predicate AnyAccepts(types: seq<Type>, value: Value) {
    value.Null? || exists i :: 0 <= i < |types| && Accepts(types[i], value)
  }

  ghost predicate Met(sources: seq<Type>, targets: seq<Type>) {
    forall value :: AllAccept(sources, value) ==> AnyAccepts(targets, value)
  }

  lemma NullAccepted(ty: Type)
    ensures Accepts(ty, Null)
  {
  }

  lemma AllAcceptAppend(a: seq<Type>, b: seq<Type>, value: Value)
    ensures AllAccept(a + b, value) <==> AllAccept(a, value) && AllAccept(b, value)
  {
    var all := a + b;
    assert forall i :: 0 <= i < |a| ==> all[i] == a[i];
    assert forall i :: 0 <= i < |b| ==> all[|a| + i] == b[i];
  }

  lemma AnyAcceptsAppend(a: seq<Type>, b: seq<Type>, value: Value)
    ensures AnyAccepts(a + b, value) <==> AnyAccepts(a, value) || AnyAccepts(b, value)
  {
    var all := a + b;
    assert forall i :: 0 <= i < |a| ==> all[i] == a[i];
    assert forall i :: 0 <= i < |b| ==> all[|a| + i] == b[i];
  }

  lemma AllAcceptReplaced(types: seq<Type>, i: nat, ty: Type, value: Value)
    requires i < |types|
    ensures AllAccept(ReplaceAt(types, i, [ty]), value) <==>
            AllAccept(types[..i], value) && Accepts(ty, value) && AllAccept(types[i + 1..], value)
  {
    AllAcceptAppend(types[..i] + [ty], types[i + 1..], value);
    AllAcceptAppend(types[..i], [ty], value);
    assert [ty][0] == ty;
  }

  lemma SplitSource(sources: seq<Type>, i: nat, targets: seq<Type>)
    requires i < |sources| && sources[i].UnionType?
    ensures Met(sources, targets) <==>
            forall k :: 0 <= k < |sources[i].variants| ==> Met(ReplaceAt(sources, i, [sources[i].variants[k]]), targets)
  {
    var variants := sources[i].variants;
    forall value ensures AllAccept(sources, value) && !value.Null? <==>
                         !value.Null? && exists k :: 0 <= k < |variants| && AllAccept(ReplaceAt(sources, i, [variants[k]]), value)
    {
      SplitAccepts(sources, i, value);
    }
  }

  lemma SplitAccepts(sources: seq<Type>, i: nat, value: Value)
    requires i < |sources| && sources[i].UnionType?
    ensures var variants := sources[i].variants;
            (AllAccept(sources, value) && !value.Null?) <==>
            (!value.Null? && exists k :: 0 <= k < |variants| && AllAccept(ReplaceAt(sources, i, [variants[k]]), value))
  {
    var variants := sources[i].variants;
    UnionAccepted(variants, value);
    AllAcceptReplaced(sources, i, sources[i], value);
    assert ReplaceAt(sources, i, [sources[i]]) == sources;
    forall k | 0 <= k < |variants|
      ensures AllAccept(ReplaceAt(sources, i, [variants[k]]), value) <==>
              AllAccept(sources[..i], value) && Accepts(variants[k], value) && AllAccept(sources[i + 1..], value)
    {
      AllAcceptReplaced(sources, i, variants[k], value);
    }
  }

  lemma ExpandTarget(targets: seq<Type>, i: nat, value: Value)
    requires i < |targets| && targets[i].UnionType?
    ensures AnyAccepts(ReplaceAt(targets, i, targets[i].variants), value) <==> AnyAccepts(targets, value)
  {
    var variants := targets[i].variants;
    UnionAccepted(variants, value);
    AnyAcceptsAppend(targets[..i] + variants, targets[i + 1..], value);
    AnyAcceptsAppend(targets[..i], variants, value);
    assert targets == targets[..i] + ([targets[i]] + targets[i + 1..]);
    AnyAcceptsAppend(targets[..i], [targets[i]] + targets[i + 1..], value);
    AnyAcceptsAppend([targets[i]], targets[i + 1..], value);
    assert [targets[i]][0] == targets[i];
  }

  // ---------------------------------------------------------------------
  // Scalars.
  // ---------------------------------------------------------------------

  // No union left on either side, and no target that accepts everything.
  predicate Plain(sources: seq<Type>, targets: seq<Type>) {
    && (forall i :: 0 <= i < |sources| ==> !sources[i].UnionType?)
    && (forall i :: 0 <= i < |targets| ==> !targets[i].UnionType? && !IsUniversal(targets[i]))
  }

  ghost predicate MetOnScalars(sources: seq<Type>, targets: seq<Type>) {
    forall value: Value :: !value.Null? && IsScalar(KindOf(value)) && AllAccept(sources, value) ==> AnyAccepts(targets, value)
  }

  lemma ScalarAccepted(sources: seq<Type>, targets: seq<Type>, value: Value)
    requires Plain(sources, targets) && !value.Null? && IsScalar(KindOf(value))
    ensures AllAccept(sources, value) <==> AllTake(sources, KindOf(value))
    ensures AnyAccepts(targets, value) <==> SomeTakes(targets, KindOf(value))
  {
    forall i | 0 <= i < |sources| ensures Accepts(sources[i], value) <==> Takes(sources[i], KindOf(value)) {
      AcceptedByKind(sources[i], value);
    }
    forall i | 0 <= i < |targets| ensures Accepts(targets[i], value) <==> Takes(targets[i], KindOf(value)) {
      AcceptedByKind(targets[i], value);
    }
  }

  lemma ScalarsExact(sources: seq<Type>, targets: seq<Type>)
    requires Plain(sources, targets)
    ensures CoversScalars(sources, targets) <==> MetOnScalars(sources, targets)
  {
    forall kind: Kind | IsScalar(kind)
      ensures AllAccept(sources, Sample(kind)) <==> AllTake(sources, kind)
      ensures AnyAccepts(targets, Sample(kind)) <==> SomeTakes(targets, kind)
    {
      ScalarAccepted(sources, targets, Sample(kind));
    }
    if CoversScalars(sources, targets) {
      forall value: Value | !value.Null? && IsScalar(KindOf(value)) && AllAccept(sources, value) ensures AnyAccepts(targets, value) {
        ScalarAccepted(sources, targets, value);
      }
    }
    if MetOnScalars(sources, targets) {
      forall kind: Kind | IsScalar(kind) && AllTake(sources, kind) ensures SomeTakes(targets, kind) {
        assert AnyAccepts(targets, Sample(kind));
      }
    }
  }

  // ---------------------------------------------------------------------
  // Lists.
  // ---------------------------------------------------------------------

  ghost predicate MetOnArrays(sources: seq<Type>, targets: seq<Type>) {
    forall items: seq<Value> :: AllAccept(sources, Array(items)) ==> AnyAccepts(targets, Array(items))
  }

  lemma ArrayAccepted(ty: Type, items: seq<Value>)
    requires !ty.UnionType?
    ensures Accepts(ty, Array(items)) <==>
            Takes(ty, ArrayKind) && (ty.ListType? ==> forall i :: 0 <= i < |items| ==> Accepts(ty.element, items[i]))
  {
    AcceptedByKind(ty, Array(items));
    if ty.ListType? {
      ListAccepted(ty.element, items);
    }
  }

  lemma {:induction false} ArraysAccepted(types: seq<Type>, items: seq<Value>)
    requires forall i :: 0 <= i < |types| ==> !types[i].UnionType?
    ensures AllAccept(types, Array(items)) <==>
            AllTake(types, ArrayKind) && forall i :: 0 <= i < |items| ==> AllAccept(Elements(types), items[i])
  {
    if types != [] {
      var head, rest := types[0], types[1..];
      ArraysAccepted(rest, items);
      ArrayAccepted(head, items);
      HeadAll(types, Array(items));
      HeadTakes(types, ArrayKind);
      forall i | 0 <= i < |items|
        ensures AllAccept(Elements(types), items[i]) <==>
                (head.ListType? ==> Accepts(head.element, items[i])) && AllAccept(Elements(rest), items[i])
      {
        HeadElement(types, items[i]);
      }
    }
  }

  lemma HeadAll(types: seq<Type>, value: Value)
    requires types != []
    ensures AllAccept(types, value) <==> Accepts(types[0], value) && AllAccept(types[1..], value)
  {
    AllAcceptAppend([types[0]], types[1..], value);
    assert types == [types[0]] + types[1..];
    assert [types[0]][0] == types[0];
  }

  lemma HeadTakes(types: seq<Type>, kind: Kind)
    requires types != []
    ensures AllTake(types, kind) <==> Takes(types[0], kind) && AllTake(types[1..], kind)
  {
    assert forall i :: 0 < i < |types| ==> types[i] == types[1..][i - 1];
    assert forall i :: 0 <= i < |types[1..]| ==> types[1..][i] == types[i + 1];
  }

  lemma HeadElement(types: seq<Type>, value: Value)
    requires types != []
    ensures AllAccept(Elements(types), value) <==>
            (types[0].ListType? ==> Accepts(types[0].element, value)) && AllAccept(Elements(types[1..]), value)
  {
    var own := if types[0].ListType? then [types[0].element] else [];
    AllAcceptAppend(own, Elements(types[1..]), value);
    assert types[0].ListType? ==> own[0] == types[0].element;
  }

  ghost predicate SomeListMeets(elements: seq<Type>, targets: seq<Type>) {
    exists j :: 0 <= j < |targets| && targets[j].ListType? && Met(elements, [targets[j].element])
  }

  // One refused element per list target makes an array they all refuse.
  lemma {:induction false} RefusedArray(elements: seq<Type>, targets: seq<Type>) returns (items: seq<Value>)
    requires !SomeListMeets(elements, targets) && Plain([], targets)
    ensures forall i :: 0 <= i < |items| ==> AllAccept(elements, items[i])
    ensures !AnyAccepts(targets, Array(items))
  {
    items := [];
    if targets != [] {
      var head, rest := targets[0], targets[1..];
      assert forall j :: 0 <= j < |rest| ==> rest[j] == targets[j + 1];
      var tail := RefusedArray(elements, rest);
      items := tail;
      if head.ListType? {
        assert !Met(elements, [head.element]);
        var refused :| AllAccept(elements, refused) && !AnyAccepts([head.element], refused);
        assert !Accepts([head.element][0], refused);
        items := [refused] + tail;
      }
      RefusedLonger(targets, items, tail);
    }
  }

  lemma RefusedLonger(targets: seq<Type>, items: seq<Value>, tail: seq<Value>)
    requires targets != [] && Plain([], targets) && !AnyAccepts(targets[1..], Array(tail))
    requires if targets[0].ListType? then items != [] && items[1..] == tail && !Accepts(targets[0].element, items[0]) else items == tail
    ensures !AnyAccepts(targets, Array(items))
  {
    forall j | 0 <= j < |targets| ensures !Accepts(targets[j], Array(items)) {
      ArrayAccepted(targets[j], items);
      ArrayAccepted(targets[j], tail);
      if j > 0 {
        assert targets[1..][j - 1] == targets[j];
        if targets[0].ListType? {
          assert forall i :: 0 <= i < |tail| ==> tail[i] == items[i + 1];
        }
      }
    }
  }

  lemma ArraysExact(sources: seq<Type>, targets: seq<Type>)
    requires Plain(sources, targets)
    ensures MetOnArrays(sources, targets) <==> (AllTake(sources, ArrayKind) ==> SomeListMeets(Elements(sources), targets))
  {
    var elements := Elements(sources);
    if AllTake(sources, ArrayKind) ==> SomeListMeets(elements, targets) {
      forall items: seq<Value> | AllAccept(sources, Array(items)) ensures AnyAccepts(targets, Array(items)) {
        ArraysAccepted(sources, items);
        var j :| 0 <= j < |targets| && targets[j].ListType? && Met(elements, [targets[j].element]);
        forall i | 0 <= i < |items| ensures Accepts(targets[j].element, items[i]) {
          NullAccepted(targets[j].element);
          assert AllAccept(elements, items[i]);
        }
        ArrayAccepted(targets[j], items);
      }
    } else {
      var items := RefusedArray(elements, targets);
      ArraysAccepted(sources, items);
      assert AllAccept(sources, Array(items));
    }
  }

  // ---------------------------------------------------------------------
  // Records.
  // ---------------------------------------------------------------------

  ghost predicate MetOnObjects(sources: seq<Type>, targets: seq<Type>) {
    forall entries: IndexMap<Value> :: AllAccept(sources, Object(entries)) ==> AnyAccepts(targets, Object(entries))
  }

  predicate FieldsAccept(fields: seq<Field>, entries: IndexMap<Value>) {
    forall i :: 0 <= i < |fields| ==> FieldAccepts(fields[i], entries)
  }

  predicate FieldsRefuse(fields: seq<Field>, entries: IndexMap<Value>) {
    forall i :: 0 <= i < |fields| ==> !FieldAccepts(fields[i], entries)
  }

  lemma ObjectTaken(ty: Type, entries: IndexMap<Value>)
    requires !ty.UnionType?
    ensures Accepts(ty, Object(entries)) <==>
            Takes(ty, ObjectKind) && (ty.RecordType? ==> FieldsAccept(ty.fields, entries))
  {
    AcceptedByKind(ty, Object(entries));
    if ty.RecordType? {
      ObjectAccepted(ty.fields, entries);
    }
  }

  lemma FieldsAcceptAppend(a: seq<Field>, b: seq<Field>, entries: IndexMap<Value>)
    ensures FieldsAccept(a + b, entries) <==> FieldsAccept(a, entries) && FieldsAccept(b, entries)
  {
    var all := a + b;
    assert forall i :: 0 <= i < |a| ==> all[i] == a[i];
    assert forall i :: 0 <= i < |b| ==> all[|a| + i] == b[i];
  }

  lemma {:induction false} ObjectsAccepted(types: seq<Type>, entries: IndexMap<Value>)
    requires forall i :: 0 <= i < |types| ==> !types[i].UnionType?
    ensures AllAccept(types, Object(entries)) <==> AllTake(types, ObjectKind) && FieldsAccept(AllFields(types), entries)
  {
    if types != [] {
      ObjectsAccepted(types[1..], entries);
      ObjectTaken(types[0], entries);
      HeadAll(types, Object(entries));
      HeadTakes(types, ObjectKind);
      FieldsAcceptAppend(if types[0].RecordType? then types[0].fields else [], AllFields(types[1..]), entries);
    }
  }

  // An object the fields accept and both the targets and the chosen fields
  // refuse.
  predicate Escapes(fields: seq<Field>, targets: seq<Type>, chosen: seq<Field>, entries: IndexMap<Value>) {
    && FieldsAccept(fields, entries)
    && !AnyAccepts(targets, Object(entries))
    && FieldsRefuse(chosen, entries)
  }

  ghost predicate NoneEscapes(fields: seq<Field>, targets: seq<Type>, chosen: seq<Field>) {
    forall entries: IndexMap<Value> :: !Escapes(fields, targets, chosen, entries)
  }

  lemma HeadRefuses(targets: seq<Type>, entries: IndexMap<Value>)
    requires targets != [] && Plain([], targets)
    ensures AnyAccepts(targets, Object(entries)) <==>
            (targets[0].RecordType? && FieldsAccept(targets[0].fields, entries)) || AnyAccepts(targets[1..], Object(entries))
  {
    ObjectTaken(targets[0], entries);
    AnyAcceptsAppend([targets[0]], targets[1..], Object(entries));
    assert targets == [targets[0]] + targets[1..];
    assert [targets[0]][0] == targets[0];
  }

  lemma RefuseAppend(chosen: seq<Field>, f: Field, entries: IndexMap<Value>)
    ensures FieldsRefuse(chosen + [f], entries) <==> FieldsRefuse(chosen, entries) && !FieldAccepts(f, entries)
  {
    var all := chosen + [f];
    assert forall i :: 0 <= i < |chosen| ==> all[i] == chosen[i];
    assert all[|chosen|] == f;
  }

  // To escape a record is to be refused by one of its fields.
  lemma EscapeField(fields: seq<Field>, targets: seq<Type>, chosen: seq<Field>, entries: IndexMap<Value>)
    requires targets != [] && Plain([], targets) && targets[0].RecordType?
    ensures var own := targets[0].fields;
            Escapes(fields, targets, chosen, entries) <==>
            exists i :: 0 <= i < |own| && Escapes(fields, targets[1..], chosen + [own[i]], entries)
  {
    var own := targets[0].fields;
    HeadRefuses(targets, entries);
    forall i | 0 <= i < |own|
      ensures FieldsRefuse(chosen + [own[i]], entries) <==> FieldsRefuse(chosen, entries) && !FieldAccepts(own[i], entries)
    {
      RefuseAppend(chosen, own[i], entries);
    }
  }

  lemma NoneEscapesFields(fields: seq<Field>, targets: seq<Type>, chosen: seq<Field>)
    requires targets != [] && Plain([], targets) && targets[0].RecordType?
    ensures var own := targets[0].fields;
            NoneEscapes(fields, targets, chosen) <==>
            forall i :: 0 <= i < |own| ==> NoneEscapes(fields, targets[1..], chosen + [own[i]])
  {
    forall entries: IndexMap<Value>
      ensures Escapes(fields, targets, chosen, entries) <==>
              exists i :: 0 <= i < |targets[0].fields| && Escapes(fields, targets[1..], chosen + [targets[0].fields[i]], entries)
    {
      EscapeField(fields, targets, chosen, entries);
    }
    var own := targets[0].fields;
    if NoneEscapes(fields, targets, chosen) {
      forall i | 0 <= i < |own| ensures NoneEscapes(fields, targets[1..], chosen + [own[i]]) {
        forall entries: IndexMap<Value> ensures !Escapes(fields, targets[1..], chosen + [own[i]], entries) {
          assert !Escapes(fields, targets, chosen, entries);
        }
      }
    } else {
      var entries: IndexMap<Value> :| Escapes(fields, targets, chosen, entries);
      var i :| 0 <= i < |own| && Escapes(fields, targets[1..], chosen + [own[i]], entries);
      assert !NoneEscapes(fields, targets[1..], chosen + [own[i]]);
    }
  }

  // ---------------------------------------------------------------------
  // One name at a time: what an object holds under a name, or that it lacks
  // it, can be chosen freely for each name.
  // ---------------------------------------------------------------------

  predicate SlotAccepts(f: Field, slot: Option<Value>) {
    match slot
    case Some(value) => Accepts(f.ty, value)
    case None => f.nullable
  }

  predicate Free(fields: seq<Field>, chosen: seq<Field>, name: string, slot: Option<Value>) {
    && (forall i :: 0 <= i < |fields| && fields[i].name == name ==> SlotAccepts(fields[i], slot))
    && (forall i :: 0 <= i < |chosen| && chosen[i].name == name ==> !SlotAccepts(chosen[i], slot))
  }

  ghost predicate HasFreeSlot(fields: seq<Field>, chosen: seq<Field>, name: string) {
    exists slot :: Free(fields, chosen, name, slot)
  }

  lemma {:induction false} AllUnder(fields: seq<Field>, name: string, value: Value)
    ensures AllAccept(TypesUnder(fields, name), value) <==>
            forall i :: 0 <= i < |fields| && fields[i].name == name ==> Accepts(fields[i].ty, value)
  {
    if fields != [] {
      var rest := fields[1..];
      AllUnder(rest, name, value);
      var own := if fields[0].name == name then [fields[0].ty] else [];
      AllAcceptAppend(own, TypesUnder(rest, name), value);
      assert fields[0].name == name ==> own[0] == fields[0].ty;
      AllUnderSplit(fields, name, value);
    }
  }

  lemma AllUnderSplit(fields: seq<Field>, name: string, value: Value)
    requires fields != []
    ensures (forall i :: 0 <= i < |fields| && fields[i].name == name ==> Accepts(fields[i].ty, value)) <==>
            && (fields[0].name == name ==> Accepts(fields[0].ty, value))
            && var rest := fields[1..]; forall i :: 0 <= i < |rest| && rest[i].name == name ==> Accepts(rest[i].ty, value)
  {
    assert forall i :: 0 < i < |fields| ==> fields[i] == fields[1..][i - 1];
    assert forall i :: 0 <= i < |fields[1..]| ==> fields[1..][i] == fields[i + 1];
  }

  lemma {:induction false} AnyUnder(fields: seq<Field>, name: string, value: Value)
    requires !value.Null?
    ensures AnyAccepts(TypesUnder(fields, name), value) <==>
            exists i :: 0 <= i < |fields| && fields[i].name == name && Accepts(fields[i].ty, value)
  {
    if fields != [] {
      var rest := fields[1..];
      AnyUnder(rest, name, value);
      var own := if fields[0].name == name then [fields[0].ty] else [];
      AnyAcceptsAppend(own, TypesUnder(rest, name), value);
      assert fields[0].name == name ==> own[0] == fields[0].ty;
      AnyUnderSplit(fields, name, value);
    }
  }

  lemma AnyUnderSplit(fields: seq<Field>, name: string, value: Value)
    requires fields != []
    ensures (exists i :: 0 <= i < |fields| && fields[i].name == name && Accepts(fields[i].ty, value)) <==>
            || (fields[0].name == name && Accepts(fields[0].ty, value))
            || var rest := fields[1..]; exists i :: 0 <= i < |rest| && rest[i].name == name && Accepts(rest[i].ty, value)
  {
    assert forall i :: 0 < i < |fields| ==> fields[i] == fields[1..][i - 1];
    assert forall i :: 0 <= i < |fields[1..]| ==> fields[1..][i] == fields[i + 1];
  }

  lemma FreeValue(fields: seq<Field>, chosen: seq<Field>, j: nat, value: Value)
    requires j < |chosen|
    ensures var name := chosen[j].name;
            Free(fields, chosen, name, Some(value)) <==>
            AllAccept(TypesUnder(fields, name), value) && !AnyAccepts(TypesUnder(chosen, name), value)
  {
    AllUnder(fields, chosen[j].name, value);
    NullAccepted(chosen[j].ty);
    if !value.Null? {
      AnyUnder(chosen, chosen[j].name, value);
    }
  }

  lemma FreeAbsence(fields: seq<Field>, chosen: seq<Field>, name: string)
    ensures Free(fields, chosen, name, None) <==> AbsentFits(fields, name) && AbsentRefused(chosen, name)
  {
  }

  lemma NameExact(fields: seq<Field>, chosen: seq<Field>, j: nat)
    requires j < |chosen|
    requires var name := chosen[j].name;
             Covers(TypesUnder(fields, name), TypesUnder(chosen, name)) <==> Met(TypesUnder(fields, name), TypesUnder(chosen, name))
    ensures CoversName(fields, chosen, chosen[j].name) <==> !HasFreeSlot(fields, chosen, chosen[j].name)
  {
    var name := chosen[j].name;
    FreeAbsence(fields, chosen, name);
    forall value ensures Free(fields, chosen, name, Some(value)) <==>
                         AllAccept(TypesUnder(fields, name), value) && !AnyAccepts(TypesUnder(chosen, name), value)
    {
      FreeValue(fields, chosen, j, value);
    }
    if HasFreeSlot(fields, chosen, name) {
      var slot :| Free(fields, chosen, name, slot);
      assert slot == None || slot == Some(slot.value);
    }
  }

  lemma FreeElsewhere(fields: seq<Field>, chosen: seq<Field>, name: string)
    requires forall j :: 0 <= j < |chosen| ==> chosen[j].name != name
    ensures HasFreeSlot(fields, chosen, name)
  {
    forall i | 0 <= i < |fields| ensures Accepts(fields[i].ty, Null) {
      NullAccepted(fields[i].ty);
    }
    assert Free(fields, chosen, name, Some(Null));
  }

  // Free slots for every name make one object.
  lemma {:induction false} Assemble(fields: seq<Field>, chosen: seq<Field>, names: seq<string>) returns (entries: IndexMap<Value>)
    requires forall n :: n in names ==> HasFreeSlot(fields, chosen, n)
    ensures forall n :: n in names ==> Free(fields, chosen, n, Get(entries, n))
    ensures forall n :: HasKey(entries, n) ==> n in names
    decreases |names|
  {
    if names == [] {
      entries := [];
    } else {
      var rest, name := names[..|names| - 1], names[|names| - 1];
      assert names == rest + [name];
      var front := Assemble(fields, chosen, rest);
      assert HasFreeSlot(fields, chosen, name);
      var slot :| Free(fields, chosen, name, slot);
      if name in rest || slot.None? {
        entries := front;
      } else {
        entries := front + [Entry(name, slot.value)];
        forall n ensures Get(entries, n) == if HasKey(front, n) then Get(front, n) else if n == name then slot else None {
          GetAppend(front, [Entry(name, slot.value)], n);
          GetShort([Entry(name, slot.value)], n);
        }
        forall n ensures HasKey(entries, n) ==> n in names {
          assert Get(entries, n).Some? <==> HasKey(entries, n);
        }
      }
    }
  }

  lemma EscapesByName(fields: seq<Field>, chosen: seq<Field>, entries: IndexMap<Value>)
    ensures Escapes(fields, [], chosen, entries) <==>
            (forall i :: 0 <= i < |fields| ==> FieldAccepts(fields[i], entries)) &&
            (forall i :: 0 <= i < |chosen| ==> !FieldAccepts(chosen[i], entries))
    ensures forall name :: Escapes(fields, [], chosen, entries) ==> Free(fields, chosen, name, Get(entries, name))
  {
  }

  lemma NamesExact(fields: seq<Field>, chosen: seq<Field>)
    ensures NoneEscapes(fields, [], chosen) <==> exists j :: 0 <= j < |chosen| && !HasFreeSlot(fields, chosen, chosen[j].name)
  {
    if j :| 0 <= j < |chosen| && !HasFreeSlot(fields, chosen, chosen[j].name) {
      forall entries: IndexMap<Value> ensures !Escapes(fields, [], chosen, entries) {
        EscapesByName(fields, chosen, entries);
      }
    } else {
      var entries := EscapeEveryName(fields, chosen);
      assert Escapes(fields, [], chosen, entries);
    }
  }

  lemma EscapeEveryName(fields: seq<Field>, chosen: seq<Field>) returns (entries: IndexMap<Value>)
    requires forall j :: 0 <= j < |chosen| ==> HasFreeSlot(fields, chosen, chosen[j].name)
    ensures Escapes(fields, [], chosen, entries)
  {
    var names := FieldNames(fields) + FieldNames(chosen);
    forall n ensures HasFreeSlot(fields, chosen, n) {
      if forall j :: 0 <= j < |chosen| ==> chosen[j].name != n {
        FreeElsewhere(fields, chosen, n);
      }
    }
    entries := Assemble(fields, chosen, names);
    forall i | 0 <= i < |fields| ensures FieldAccepts(fields[i], entries) {
      assert names[i] == fields[i].name;
      assert Free(fields, chosen, fields[i].name, Get(entries, fields[i].name));
    }
    forall i | 0 <= i < |chosen| ensures !FieldAccepts(chosen[i], entries) {
      assert names[|fields| + i] == chosen[i].name;
      assert Free(fields, chosen, chosen[i].name, Get(entries, chosen[i].name));
    }
  }

  lemma {:induction false} RecordsExact(fields: seq<Field>, targets: seq<Type>, chosen: seq<Field>)
    requires Plain([], targets)
    ensures CoversRecords(fields, targets, chosen) <==> NoneEscapes(fields, targets, chosen)
    decreases FieldSizes(fields) + Sizes(targets) + FieldSizes(chosen), 0, 1 + |targets|
  {
    if targets == [] {
      forall j | 0 <= j < |chosen|
        ensures CoversName(fields, chosen, chosen[j].name) <==> !HasFreeSlot(fields, chosen, chosen[j].name)
      {
        CoversExact(TypesUnder(fields, chosen[j].name), TypesUnder(chosen, chosen[j].name));
        NameExact(fields, chosen, j);
      }
      NamesExact(fields, chosen);
    } else {
      var head, rest := targets[0], targets[1..];
      assert forall i :: 0 <= i < |rest| ==> rest[i] == targets[i + 1];
      if head.RecordType? {
        forall i | 0 <= i < |head.fields|
          ensures CoversRecords(fields, rest, chosen + [head.fields[i]]) <==> NoneEscapes(fields, rest, chosen + [head.fields[i]])
        {
          ChooseSmaller(targets, chosen, i);
          RecordsExact(fields, rest, chosen + [head.fields[i]]);
        }
        NoneEscapesFields(fields, targets, chosen);
      } else {
        RecordsExact(fields, rest, chosen);
        forall entries: IndexMap<Value>
          ensures Escapes(fields, targets, chosen, entries) <==> Escapes(fields, rest, chosen, entries)
        {
          HeadRefuses(targets, entries);
        }
      }
    }
  }

  lemma ObjectsExact(sources: seq<Type>, targets: seq<Type>)
    requires Plain(sources, targets)
    ensures MetOnObjects(sources, targets) <==> (AllTake(sources, ObjectKind) ==> NoneEscapes(AllFields(sources), targets, []))
  {
    forall entries: IndexMap<Value>
      ensures AllAccept(sources, Object(entries)) <==> AllTake(sources, ObjectKind) && FieldsAccept(AllFields(sources), entries)
    {
      ObjectsAccepted(sources, entries);
    }
    if AllTake(sources, ObjectKind) {
      forall entries: IndexMap<Value>
        ensures Escapes(AllFields(sources), targets, [], entries) <==>
                AllAccept(sources, Object(entries)) && !AnyAccepts(targets, Object(entries))
      {
        assert FieldsRefuse([], entries);
      }
    }
  }

  // ---------------------------------------------------------------------
  // Altogether.
  // ---------------------------------------------------------------------

  lemma MetByKind(sources: seq<Type>, targets: seq<Type>)
    ensures Met(sources, targets) <==> MetOnScalars(sources, targets) && MetOnArrays(sources, targets) && MetOnObjects(sources, targets)
  {
    if MetOnScalars(sources, targets) && MetOnArrays(sources, targets) && MetOnObjects(sources, targets) {
      forall value | AllAccept(sources, value) ensures AnyAccepts(targets, value) {
        if value.Array? {
          assert value == Array(value.items);
        } else if value.Object? {
          assert value == Object(value.fields);
        }
      }
    }
  }

  lemma UniversalMeets(sources: seq<Type>, targets: seq<Type>)
    requires SomeUniversal(targets)
    ensures Met(sources, targets)
  {
    var i :| 0 <= i < |targets| && IsUniversal(targets[i]);
    forall value ensures AnyAccepts(targets, value) {
      assert Accepts(targets[i], value);
    }
  }

  // Decided by the procedure, for all types.
  lemma {:induction false} CoversExact(sources: seq<Type>, targets: seq<Type>)
    ensures Covers(sources, targets) <==> Met(sources, targets)
    decreases Sizes(sources) + Sizes(targets), 1, 0
  {
    var s, t := FirstUnion(sources), FirstUnion(targets);
    if s.Some? {
      var variants := sources[s.value].variants;
      forall k | 0 <= k < |variants|
        ensures Covers(ReplaceAt(sources, s.value, [variants[k]]), targets) <==> Met(ReplaceAt(sources, s.value, [variants[k]]), targets)
      {
        SplitSmaller(sources, s.value, k);
        CoversExact(ReplaceAt(sources, s.value, [variants[k]]), targets);
      }
      SplitSource(sources, s.value, targets);
    } else if t.Some? {
      SizesReplace(targets, t.value, targets[t.value].variants);
      CoversExact(sources, ReplaceAt(targets, t.value, targets[t.value].variants));
      forall value ensures AnyAccepts(ReplaceAt(targets, t.value, targets[t.value].variants), value) <==> AnyAccepts(targets, value) {
        ExpandTarget(targets, t.value, value);
      }
    } else if SomeUniversal(targets) {
      UniversalMeets(sources, targets);
    } else {
      PlainExact(sources, targets);
    }
  }

  lemma {:induction false} PlainExact(sources: seq<Type>, targets: seq<Type>)
    requires FirstUnion(sources).None? && FirstUnion(targets).None? && !SomeUniversal(targets)
    ensures Covers(sources, targets) <==> Met(sources, targets)
    decreases Sizes(sources) + Sizes(targets), 0, 2 + |targets|
  {
    assert Plain(sources, targets);
    ScalarsExact(sources, targets);
    ArraysExact(sources, targets);
    ObjectsExact(sources, targets);
    MetByKind(sources, targets);
    forall j | 0 <= j < |targets| && targets[j].ListType?
      ensures Covers(Elements(sources), [targets[j].element]) <==> Met(Elements(sources), [targets[j].element])
    {
      SizeOfVariant(targets, j);
      SingleSize(targets[j].element);
      CoversExact(Elements(sources), [targets[j].element]);
    }
    RecordsExact(AllFields(sources), targets, []);
  }

  // Inclusion between any two types is decided.
  lemma InclusionDecided(source: Type, target: Type)
    ensures Included(source, target) <==> Covers([source], [target])
  {
    CoversExact([source], [target]);
    forall value ensures AllAccept([source], value) <==> Accepts(source, value)
      ensures AnyAccepts([target], value) <==> Accepts(target, value)
    {
      NullAccepted(target);
      assert [source][0] == source && [target][0] == target;
    }
  }

  // ---------------------------------------------------------------------
  // Particular pairs.
  // ---------------------------------------------------------------------

  // A union is included exactly when each of its variants is.
  lemma UnionInclusion(variants: seq<Type>, target: Type)
    ensures Included(UnionType(variants), target) <==> forall i :: 0 <= i < |variants| ==> Included(variants[i], target)
  {
    if Included(UnionType(variants), target) {
      forall i, value | 0 <= i < |variants| && Accepts(variants[i], value) ensures Accepts(target, value) {
        UnionAccepted(variants, value);
        assert Accepts(UnionType(variants), value);
      }
    }
    if forall i :: 0 <= i < |variants| ==> Included(variants[i], target) {
      forall value | Accepts(UnionType(variants), value) ensures Accepts(target, value) {
        UnionAccepted(variants, value);
        if !value.Null? {
          var i :| 0 <= i < |variants| && Accepts(variants[i], value);
          assert Included(variants[i], target);
        }
      }
    }
  }

  // Accepts every value: `any`, `unknown`, or a union with such a variant.
  predicate Universal(ty: Type)
    decreases ty
  {
    match ty
    case AnyType => true
    case UnknownType => true
    case UnionType(variants) => exists i :: 0 <= i < |variants| && Universal(variants[i])
    case _ => false
  }

  lemma {:induction false} UniversalAccepts(ty: Type, value: Value)
    requires Universal(ty)
    ensures Accepts(ty, value)
    decreases ty
  {
    if ty.UnionType? {
      var i :| 0 <= i < |ty.variants| && Universal(ty.variants[i]);
      UniversalAccepts(ty.variants[i], value);
      UnionAccepted(ty.variants, value);
    }
  }

  lemma {:induction false} OnlyUniversalAcceptsDates(ty: Type)
    requires !Universal(ty)
    ensures !Accepts(ty, Date(0))
    decreases ty
  {
    if ty.UnionType? {
      forall i | 0 <= i < |ty.variants| ensures !Accepts(ty.variants[i], Date(0)) {
        assert !Universal(ty.variants[i]);
        OnlyUniversalAcceptsDates(ty.variants[i]);
      }
      UnionAccepted(ty.variants, Date(0));
    }
  }

  lemma UnknownInclusion(target: Type)
    ensures Included(UnknownType, target) <==> Universal(target)
  {
    if Universal(target) {
      forall value ensures Accepts(target, value) { UniversalAccepts(target, value); }
    } else {
      OnlyUniversalAcceptsDates(target);
      assert Accepts(UnknownType, Date(0));
    }
  }

  // The pairs the planner may join leaf to leaf.
  predicate JoinableLeaves(source: Type, target: Type) {
    && !source.RecordType? && !target.RecordType?
    && if target.ListType? then source.ListType? && source.element == target.element else TypesCompatible(source, target)
  }

  // Which joinable pairs are safe to copy without a cast.
  predicate SafeToCopy(source: Type, target: Type) {
    if target.AnyType? then true
    else if source.UnknownType? then Universal(target)
    else if source.UnionType? then Covers([source], [target])
    else
      || SameKind(source, target)
      || (source.IntType? && target.FloatType?)
      || (source.DecimalType? && target.StringType?)
  }

  predicate IsAtom(ty: Type) {
    !ty.UnionType? && !ty.ListType? && !ty.RecordType?
  }

  // Between types without parts, inclusion is inclusion of kinds.
  lemma AtomInclusion(source: Type, target: Type)
    requires IsAtom(source) && IsAtom(target)
    ensures Included(source, target) <==> forall kind: Kind :: Takes(source, kind) ==> Takes(target, kind)
  {
    if Included(source, target) {
      forall kind: Kind | Takes(source, kind) ensures Takes(target, kind) {
        AcceptedByKind(source, Sample(kind));
        AcceptedByKind(target, Sample(kind));
      }
    }
    if forall kind: Kind :: Takes(source, kind) ==> Takes(target, kind) {
      forall value | Accepts(source, value) ensures Accepts(target, value) {
        if !value.Null? {
          AcceptedByKind(source, value);
          AcceptedByKind(target, value);
          assert Takes(target, KindOf(value));
        }
      }
    }
  }

  lemma SameElements(source: Type, target: Type)
    requires source.ListType? && target.ListType? && source.element == target.element
    ensures Included(source, target)
  {
  }

  lemma ScalarTakes(source: Type, target: Type)
    requires IsAtom(source) && IsAtom(target) && TypesCompatible(source, target) && !target.AnyType? && !source.UnknownType?
    ensures SafeToCopy(source, target) <==> forall kind: Kind :: Takes(source, kind) ==> Takes(target, kind)
  {
    if source.IntType? { assert Takes(source, IntKind); }
    if source.FloatType? { assert Takes(source, FloatKind); }
    if source.BoolType? { assert Takes(source, BoolKind); }
    if source.DecimalType? { assert Takes(source, TextKind); }
  }

  // Of the joinable pairs, Int to Decimal or String, Decimal to Float, Float
  // to String, Bool to String, unknown to a concrete type and a union to
  // another that does not cover it are exactly the ones that lose acceptance.
  lemma JoinableInclusion(source: Type, target: Type)
    requires JoinableLeaves(source, target)
    ensures Included(source, target) <==> SafeToCopy(source, target)
  {
    if target.AnyType? {
    } else if source.UnknownType? {
      UnknownInclusion(target);
    } else if source.UnionType? {
      InclusionDecided(source, target);
    } else if source.ListType? {
      SameElements(source, target);
    } else {
      AtomInclusion(source, target);
      ScalarTakes(source, target);
    }
  }
}
