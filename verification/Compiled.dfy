// The shape of a finished build.
module Compiled {
  import opened Results
  import opened Orders
  import opened IndexMaps
  import opened Paths
  import opened Schemas
  import opened Plans
  import opened Planner
  import opened PlannerSelection
  import opened SourceLeaves

  function KeyNames(segments: seq<Segment>): (names: seq<string>)
    ensures |names| == |segments|
  {
    seq(|segments|, i requires 0 <= i < |segments| => if segments[i].Key? then segments[i].name else "")
  }

  // The source leaf a path of field names denotes.
  function LeafAt(source: seq<Field>, path: FieldPath): Option<Field> {
    if forall i :: 0 <= i < |path.segments| ==> path.segments[i].Key? then LeafField(source, KeyNames(path.segments))
    else None
  }

  lemma LeafAtNames(source: seq<Field>, names: seq<string>)
    ensures LeafAt(source, FieldPath(FieldSegments(names))) == LeafField(source, names)
  {
    assert KeyNames(FieldSegments(names)) == names;
  }

  lemma LeafAtSegments(source: seq<Field>, path: FieldPath)
    requires LeafAt(source, path).Some?
    ensures path.segments == FieldSegments(KeyNames(path.segments))
  {
  }

  // A leaf pair the planner may join: equal list elements or compatible types.
  predicate Joinable(source: Type, target: Type) {
    if target.ListType? then source.ListType? && source.element == target.element
    else TypesCompatible(source, target)
  }

  predicate CompiledExpr(source: seq<Field>, target: Field, expr: Expr)
    decreases target
  {
    if target.ty.RecordType? then expr.ObjectExpr? && CompiledFields(source, target.ty.fields, expr.fields)
    else match expr
      case FieldExpr(path) => LeafAt(source, path).Some? && Joinable(LeafAt(source, path).value.ty, target.ty)
      case ListMapExpr(input, item) =>
        && target.ty.ListType? && target.ty.element.RecordType? && item.ObjectExpr?
        && LeafAt(source, input).Some?
        && var from := LeafAt(source, input).value.ty;
           && from.ListType? && from.element.RecordType? && item.fields != []
           && CompiledFields(from.element.fields, target.ty.element.fields, item.fields)
      case _ => false
  }

  predicate Omittable(target: Field) {
    target.nullable && !target.ty.RecordType?
  }

  // Target order, one expression per target, omissions only where allowed.
  predicate CompiledFields(source: seq<Field>, targets: seq<Field>, exprs: IndexMap<Expr>)
    decreases targets
  {
    if targets == [] then exprs == [] else
      var front, target := targets[..|targets| - 1], targets[|targets| - 1];
      || (Omittable(target) && CompiledFields(source, front, exprs))
      || (exprs != [] && exprs[|exprs| - 1].key == target.name
          && CompiledExpr(source, target, exprs[|exprs| - 1].value)
          && CompiledFields(source, front, exprs[..|exprs| - 1]))
  }

  // ---------------------------------------------------------------------
  // Reading the relation position by position.
  // ---------------------------------------------------------------------

  // An entry holds the compiled expression of one of the targets.
  predicate Serves(source: seq<Field>, targets: seq<Field>, entry: Entry<Expr>) {
    exists k :: 0 <= k < |targets| && targets[k].name == entry.key && CompiledExpr(source, targets[k], entry.value)
  }

  lemma ServesGrows(source: seq<Field>, targets: seq<Field>, n: nat, entry: Entry<Expr>)
    requires n <= |targets| && Serves(source, targets[..n], entry)
    ensures Serves(source, targets, entry)
  {
    var front := targets[..n];
    var k :| 0 <= k < |front| && front[k].name == entry.key && CompiledExpr(source, front[k], entry.value);
    assert targets[k] == front[k];
  }

  // The last target is omitted, or served by the last expression.
  lemma CompiledSplit(source: seq<Field>, targets: seq<Field>, exprs: IndexMap<Expr>) returns (rest: IndexMap<Expr>)
    requires CompiledFields(source, targets, exprs) && targets != []
    ensures CompiledFields(source, targets[..|targets| - 1], rest)
    ensures || (rest == exprs && Omittable(targets[|targets| - 1]))
            || (exprs != [] && exprs == rest + [exprs[|exprs| - 1]] && exprs[|exprs| - 1].key == targets[|targets| - 1].name
                && CompiledExpr(source, targets[|targets| - 1], exprs[|exprs| - 1].value))
  {
    var front, target := targets[..|targets| - 1], targets[|targets| - 1];
    rest := if Omittable(target) && CompiledFields(source, front, exprs) then exprs else exprs[..|exprs| - 1];
  }

  lemma {:induction false} CompiledServes(source: seq<Field>, targets: seq<Field>, exprs: IndexMap<Expr>)
    requires CompiledFields(source, targets, exprs)
    ensures forall i :: 0 <= i < |exprs| ==> Serves(source, targets, exprs[i])
    decreases |targets|
  {
    if targets != [] {
      var n := |targets| - 1;
      var rest := CompiledSplit(source, targets, exprs);
      CompiledServes(source, targets[..n], rest);
      forall i | 0 <= i < |exprs| ensures Serves(source, targets, exprs[i]) {
        if i < |rest| {
          assert rest[i] == exprs[i];
          ServesGrows(source, targets, n, exprs[i]);
        } else {
          assert targets[n].name == exprs[i].key && CompiledExpr(source, targets[n], exprs[i].value);
        }
      }
    }
  }

  lemma KeyGrows(rest: IndexMap<Expr>, exprs: IndexMap<Expr>, name: string)
    requires rest <= exprs && HasKey(rest, name)
    ensures HasKey(exprs, name)
  {
    var i :| 0 <= i < |rest| && rest[i].key == name;
    assert exprs[i].key == name;
  }

  lemma {:induction false} CompiledKeys(source: seq<Field>, targets: seq<Field>, exprs: IndexMap<Expr>)
    requires CompiledFields(source, targets, exprs)
    ensures forall k :: 0 <= k < |targets| ==> HasKey(exprs, targets[k].name) || Omittable(targets[k])
    decreases |targets|
  {
    if targets != [] {
      var n := |targets| - 1;
      var rest := CompiledSplit(source, targets, exprs);
      CompiledKeys(source, targets[..n], rest);
      forall k | 0 <= k < |targets| ensures HasKey(exprs, targets[k].name) || Omittable(targets[k]) {
        if k < n {
          assert targets[..n][k] == targets[k];
          if HasKey(rest, targets[k].name) { KeyGrows(rest, exprs, targets[k].name); }
        } else if !Omittable(targets[n]) {
          assert exprs[|exprs| - 1].key == targets[k].name;
        }
      }
    }
  }

  // Each expression serves one target, and only omittable targets have none.
  lemma CompiledPositions(source: seq<Field>, targets: seq<Field>, exprs: IndexMap<Expr>)
    requires CompiledFields(source, targets, exprs)
    ensures forall i :: 0 <= i < |exprs| ==> Serves(source, targets, exprs[i])
    ensures forall k :: 0 <= k < |targets| ==> HasKey(exprs, targets[k].name) || Omittable(targets[k])
  {
    CompiledServes(source, targets, exprs);
    CompiledKeys(source, targets, exprs);
  }

  lemma {:induction false} CompiledKeysUnique(source: seq<Field>, targets: seq<Field>, exprs: IndexMap<Expr>)
    requires CompiledFields(source, targets, exprs) && UniqueNames(targets)
    ensures UniqueKeys(exprs)
    decreases targets
  {
    if targets != [] {
      var n := |targets| - 1;
      var front, target := targets[..n], targets[n];
      if Omittable(target) && CompiledFields(source, front, exprs) {
        CompiledKeysUnique(source, front, exprs);
      } else {
        var rest := exprs[..|exprs| - 1];
        CompiledKeysUnique(source, front, rest);
        CompiledPositions(source, front, rest);
        forall i | 0 <= i < |rest| ensures rest[i].key != target.name {
          assert Serves(source, front, rest[i]);
          var k :| 0 <= k < |front| && front[k].name == rest[i].key && CompiledExpr(source, front[k], rest[i].value);
        }
      }
    }
  }

  lemma CompiledKeyFresh(source: seq<Field>, targets: seq<Field>, exprs: IndexMap<Expr>)
    requires targets != [] && UniqueNames(targets)
    requires CompiledFields(source, targets[..|targets| - 1], exprs)
    ensures !HasKey(exprs, targets[|targets| - 1].name)
  {
    var front := targets[..|targets| - 1];
    CompiledPositions(source, front, exprs);
    forall i | 0 <= i < |exprs| ensures exprs[i].key != targets[|targets| - 1].name {
      assert Serves(source, front, exprs[i]);
      var k :| 0 <= k < |front| && front[k].name == exprs[i].key && CompiledExpr(source, front[k], exprs[i].value);
    }
  }

  // ---------------------------------------------------------------------
  // A build that leaves nothing unresolved is compiled.
  // ---------------------------------------------------------------------

  ghost predicate ScopeOf(env: Env, source: seq<Field>) {
    WellNamedFields(source) && env.sources == CollectSources(source, "")
  }

  // Accepting a candidate yields a readable path to the leaf it scored.
  lemma CandidateReads(env: Env, source: seq<Field>, target: FieldRef, used: seq<string>) returns (leaf: FieldRef)
    requires ScopeOf(env, source) && AssignField(env, target, used).Mapped?
    ensures var c := AssignField(env, target, used).candidate;
            && leaf in env.sources && leaf.path == c.source && c.source !in used
            && Score(leaf, target, env.options.mode) == Some(c)
            && Parse(c.source).Ok? && LeafAt(source, Parse(c.source).value) == Some(leaf.field)
            && Render(Parse(c.source).value) == c.source
            && FindSource(env.sources, c.source) == Some(leaf.field)
  {
    var c := AssignField(env, target, used).candidate;
    leaf := AssignedLeaf(env, target, used);
    var names := LeafNames(source, leaf);
    LeafAtNames(source, names);
    JoinNamesRenders(names);
    CollectFunctional(source);
    FindSourceSound(env.sources, c.source);
    assert FieldRef(c.source, FindSource(env.sources, c.source).value) == leaf;
  }

  lemma AssignedLeaf(env: Env, target: FieldRef, used: seq<string>) returns (leaf: FieldRef)
    requires AssignField(env, target, used).Mapped?
    ensures var c := AssignField(env, target, used).candidate;
            leaf in env.sources && leaf.path == c.source && leaf.path !in used && Score(leaf, target, env.options.mode) == Some(c)
  {
    var candidates := Candidates(env.sources, target, used, env.options.mode);
    var c := AssignField(env, target, used).candidate;
    SortPermutes(ByScoreDescending(), candidates);
    assert c in multiset(StableSort(ByScoreDescending(), candidates));
    leaf := CandidateOrigin(env.sources, target, used, env.options.mode, c);
  }

  lemma ScoredTypes(source: FieldRef, target: FieldRef, mode: Mode)
    requires Score(source, target, mode).Some?
    ensures target.field.ty.ListType? ==> source.field.ty.ListType?
    ensures !target.field.ty.ListType? ==> TypesCompatible(source.field.ty, target.field.ty)
  {
  }

  // The result of one leaf: no expression and a longer unresolved list, no
  // expression for an omittable target, or a compiled expression.
  ghost predicate LeafOutcome(source: seq<Field>, target: Field, st: State, built: (Option<Expr>, State)) {
    var (leaf, after) := built;
    match leaf
    case None => if after.unresolved == st.unresolved then Omittable(target) else |after.unresolved| > |st.unresolved|
    case Some(expr) => after.unresolved == st.unresolved && CompiledExpr(source, target, expr)
  }

  lemma {:induction false} ElementsKeepUnresolved(st: State, target: string, source: string, entries: seq<ExplainEntry>)
    ensures PushElementEntries(st, target, source, entries).unresolved == st.unresolved
    ensures PushElementEntries(st, target, source, entries).used == st.used
  {
    if entries != [] {
      ElementsKeepUnresolved(st, target, source, entries[..|entries| - 1]);
    }
  }

  lemma AcceptKeepsUnresolved(st: State, target: string, c: Candidate, nested: seq<ExplainEntry>)
    ensures AcceptLeaf(st, target, c).unresolved == AcceptListMap(st, target, c, nested).unresolved == st.unresolved
    ensures AcceptLeaf(st, target, c).used == AcceptListMap(st, target, c, nested).used == st.used + [c.source]
  {
    var head := ExplainEntry(target, Some(c.source), c.score, [CardinalityPreserving], MapElements);
    ElementsKeepUnresolved(PushExplanation(UseSource(st, c.source), head), target, c.source, nested);
  }

  lemma {:induction false} BuildCompiles(env: Env, source: seq<Field>, targets: seq<Field>, prefix: string, st: State)
    requires ScopeOf(env, source) && WellNamedFields(targets)
    requires BuildFields(env, targets, prefix, st).Ok?
    ensures var (exprs, after) := BuildFields(env, targets, prefix, st).value;
            && |after.unresolved| >= |st.unresolved|
            && (|after.unresolved| == |st.unresolved| ==> after.unresolved == st.unresolved && CompiledFields(source, targets, exprs))
    decreases targets, 0
  {
    if targets != [] {
      var n := |targets| - 1;
      var front, target := targets[..n], targets[n];
      var path := JoinPath(prefix, target.name);
      WellNamedPrefix(targets, n);
      BuildCompiles(env, source, front, prefix, st);
      var (exprs, before) := BuildFields(env, front, prefix, st).value;
      if target.ty.RecordType? {
        BuildCompiles(env, source, target.ty.fields, path, before);
        var (nested, after) := BuildFields(env, target.ty.fields, path, before).value;
        if |after.unresolved| == |st.unresolved| {
          ExtendCompiled(source, targets, exprs, ObjectExpr(nested));
        }
      } else {
        LeafCompiles(env, source, target, path, before);
        var (leaf, after) := BuildLeaf(env, target, path, before).value;
        if |after.unresolved| == |st.unresolved| && leaf.Some? {
          ExtendCompiled(source, targets, exprs, leaf.value);
        }
      }
    }
  }

  lemma ExtendCompiled(source: seq<Field>, targets: seq<Field>, exprs: IndexMap<Expr>, expr: Expr)
    requires targets != [] && UniqueNames(targets)
    requires CompiledFields(source, targets[..|targets| - 1], exprs)
    requires CompiledExpr(source, targets[|targets| - 1], expr)
    ensures CompiledFields(source, targets, Insert(exprs, targets[|targets| - 1].name, expr))
  {
    var name := targets[|targets| - 1].name;
    CompiledKeyFresh(source, targets, exprs);
    InsertFresh(exprs, name, expr);
    assert (exprs + [Entry(name, expr)])[..|exprs|] == exprs;
  }

  lemma {:induction false} LeafCompiles(env: Env, source: seq<Field>, target: Field, path: string, st: State)
    requires ScopeOf(env, source) && WellNamed(target.ty) && !target.ty.RecordType?
    requires BuildLeaf(env, target, path, st).Ok?
    ensures LeafOutcome(source, target, st, BuildLeaf(env, target, path, st).value)
    decreases target, 1
  {
    var ref := FieldRef(path, target);
    match AssignField(env, ref, st.used)
    case Ambiguous(_) =>
    case Missing =>
    case Mapped(c) =>
      var leaf := CandidateReads(env, source, ref, st.used);
      ScoredTypes(leaf, ref, env.options.mode);
      if target.ty.ListType? {
        ListCompiles(env, source, target, path, st, c, leaf.field);
      }
  }

  lemma {:induction false} ListCompiles(env: Env, source: seq<Field>, target: Field, path: string, st: State, c: Candidate, from: Field)
    requires ScopeOf(env, source) && WellNamed(target.ty) && target.ty.ListType? && from.ty.ListType?
    requires FindSource(env.sources, c.source) == Some(from)
    requires Parse(c.source).Ok? && LeafAt(source, Parse(c.source).value) == Some(from)
    requires BuildList(env, target, path, st, c).Ok?
    ensures LeafOutcome(source, target, st, BuildList(env, target, path, st, c).value)
    decreases target, 0
  {
    if (from.nullable && !target.nullable) || (from.ty.elementNullable && !target.ty.elementNullable) {
    } else if from.ty.element == target.ty.element {
    } else {
      LeafWellNamed(source, KeyNames(Parse(c.source).value.segments));
      RecordListCompiles(env, source, target, path, st, c, from);
    }
  }

  // Every leaf of a well-named record is itself well named.
  lemma {:induction false} LeafWellNamed(source: seq<Field>, names: seq<string>)
    requires WellNamedFields(source) && LeafField(source, names).Some?
    ensures WellNamed(LeafField(source, names).value.ty)
    decreases |names|
  {
    var f := FindField(source, names[0]).value;
    var k :| 0 <= k < |source| && source[k] == f;
    assert WellNamed(source[k].ty);
    if |names| > 1 {
      LeafWellNamed(f.ty.fields, names[1..]);
    }
  }

  lemma {:induction false} RecordListCompiles(env: Env, source: seq<Field>, target: Field, path: string, st: State, c: Candidate, from: Field)
    requires WellNamed(target.ty) && target.ty.ListType? && from.ty.ListType? && WellNamed(from.ty)
    requires Parse(c.source).Ok? && LeafAt(source, Parse(c.source).value) == Some(from)
    requires BuildRecordList(env, from.ty.element, target.ty.element, path, st, c).Ok?
    ensures LeafOutcome(source, target, st, BuildRecordList(env, from.ty.element, target.ty.element, path, st, c).value)
    decreases target.ty, 2
  {
    var a, b := from.ty.element, target.ty.element;
    if a.RecordType? && b.RecordType? {
      var nested := PlanSchemas(a, b, env.options).value;
      if nested.Ready? {
        PlanCompiles(a.fields, b.fields, env.options);
        AcceptKeepsUnresolved(st, path, c, nested.explanation);
      }
    }
  }

  // A ready plan is one map operation with compiled, nonempty fields.
  lemma {:induction false} PlanCompiles(source: seq<Field>, target: seq<Field>, options: Options)
    requires WellNamedFields(source) && WellNamedFields(target)
    requires PlanSchemas(RecordType(source), RecordType(target), options).Ok?
    requires PlanSchemas(RecordType(source), RecordType(target), options).value.Ready?
    ensures var plan := PlanSchemas(RecordType(source), RecordType(target), options).value.plan;
            && |plan.operations| == 1 && plan.operations[0].MapOp?
            && plan.operations[0].fields != []
            && CompiledFields(source, target, plan.operations[0].fields)
            && plan.apiVersion == API_VERSION && plan.kind == KIND && plan.backend == "document"
            && plan.validationOutput == "required" && plan.errorPolicy == Fail
    decreases target, 1
  {
    var env := Env(CollectSources(source, ""), options);
    BuildCompiles(env, source, target, "", State([], [], []));
  }

  // ---------------------------------------------------------------------
  // When planning fails.
  // ---------------------------------------------------------------------

  // Some target must be mapped, at the root and in every mapped list element.
  predicate Demanding(targets: seq<Field>)
    decreases targets, 1
  {
    && (exists k :: 0 <= k < |targets| && !Omittable(targets[k]))
    && DemandingElements(targets)
  }

  predicate DemandingElements(targets: seq<Field>)
    decreases targets, 0
  {
    forall k :: 0 <= k < |targets| ==> DemandingField(targets[k])
  }

  predicate DemandingField(target: Field)
    decreases target
  {
    && (target.ty.RecordType? ==> DemandingElements(target.ty.fields))
    && (target.ty.ListType? && target.ty.element.RecordType? ==> Demanding(target.ty.element.fields))
  }

  const EMPTY_MAPPING: Error := Error(PlanValidation, "empty_mapping")

  lemma {:induction false} BuildErrors(env: Env, source: seq<Field>, targets: seq<Field>, prefix: string, st: State)
    requires ScopeOf(env, source) && WellNamedFields(targets)
    requires BuildFields(env, targets, prefix, st).Err?
    ensures BuildFields(env, targets, prefix, st).error == EMPTY_MAPPING && !DemandingElements(targets)
    decreases targets, 0
  {
    var n := |targets| - 1;
    var front, target := targets[..n], targets[n];
    var path := JoinPath(prefix, target.name);
    WellNamedPrefix(targets, n);
    assert WellNamed(target.ty);
    assert DemandingElements(targets) ==> DemandingField(target);
    if BuildFields(env, front, prefix, st).Err? {
      BuildErrors(env, source, front, prefix, st);
      assert forall k :: 0 <= k < n ==> front[k] == targets[k];
    } else {
      var before := BuildFields(env, front, prefix, st).value.1;
      if target.ty.RecordType? {
        BuildErrors(env, source, target.ty.fields, path, before);
      } else {
        LeafErrors(env, source, target, path, before);
      }
    }
  }

  lemma {:induction false} LeafErrors(env: Env, source: seq<Field>, target: Field, path: string, st: State)
    requires ScopeOf(env, source) && WellNamed(target.ty) && !target.ty.RecordType?
    requires BuildLeaf(env, target, path, st).Err?
    ensures BuildLeaf(env, target, path, st).error == EMPTY_MAPPING && !DemandingField(target)
    decreases target, 1
  {
    var ref := FieldRef(path, target);
    var c := AssignField(env, ref, st.used).candidate;
    var leaf := CandidateReads(env, source, ref, st.used);
    ScoredTypes(leaf, ref, env.options.mode);
    LeafWellNamed(source, KeyNames(Parse(c.source).value.segments));
    ListErrors(env, target, path, st, c, leaf.field);
  }

  lemma {:induction false} ListErrors(env: Env, target: Field, path: string, st: State, c: Candidate, from: Field)
    requires target.ty.ListType? && from.ty.ListType? && WellNamed(target.ty) && WellNamed(from.ty)
    requires FindSource(env.sources, c.source) == Some(from) && Parse(c.source).Ok?
    requires BuildList(env, target, path, st, c).Err?
    ensures BuildList(env, target, path, st, c).error == EMPTY_MAPPING && !DemandingField(target)
    decreases target, 0
  {
    var a, b := from.ty.element, target.ty.element;
    assert WellNamed(a) && WellNamed(b);
    if PlanSchemas(a, b, env.options).Err? {
      PlanErrors(a.fields, b.fields, env.options);
    } else if PlanSchemas(a, b, env.options).value.Ready? {
      PlanCompiles(a.fields, b.fields, env.options);
    }
  }

  // Between well-named schemas planning has one error, an empty mapping at
  // the root or in a list element, and none when each of these has a target
  // that must be mapped.
  lemma {:induction false} PlanErrors(source: seq<Field>, targets: seq<Field>, options: Options)
    requires WellNamedFields(source) && WellNamedFields(targets)
    requires PlanSchemas(RecordType(source), RecordType(targets), options).Err?
    ensures PlanSchemas(RecordType(source), RecordType(targets), options).error == EMPTY_MAPPING && !Demanding(targets)
    decreases targets, 1
  {
    var env := Env(CollectSources(source, ""), options);
    var st := State([], [], []);
    if BuildFields(env, targets, "", st).Err? {
      BuildErrors(env, source, targets, "", st);
    } else {
      BuildCompiles(env, source, targets, "", st);
      CompiledPositions(source, targets, []);
      forall k | 0 <= k < |targets| ensures Omittable(targets[k]) {
        assert !HasKey<Expr>([], targets[k].name);
      }
    }
  }
}
