// What the runs of a plan emit.
module Emission {
  import opened Results
  import opened IndexMaps
  import opened Paths
  import opened Values
  import opened Schemas
  import opened Plans
  import opened Engine
  import opened Planner
  import opened SourceLeaves
  import opened Compiled
  import opened Coverage
  import opened Soundness

  // ---------------------------------------------------------------------
  // Omitted paths.
  // ---------------------------------------------------------------------

  function OmittedTargets(entries: seq<ExplainEntry>): seq<string> {
    if entries == [] then [] else
      var last := entries[|entries| - 1];
      OmittedTargets(entries[..|entries| - 1]) + (if last.action.Omit? then [last.target] else [])
  }

  // The target paths, list elements included, that have no expression.
  function Omissions(targets: seq<Field>, exprs: IndexMap<Expr>, prefix: string): seq<string>
    decreases targets
  {
    if targets == [] then [] else
      var front, target := targets[..|targets| - 1], targets[|targets| - 1];
      var path := JoinPath(prefix, target.name);
      if exprs != [] && exprs[|exprs| - 1].key == target.name then
        Omissions(front, exprs[..|exprs| - 1], prefix) + ExprOmissions(target, exprs[|exprs| - 1].value, path)
      else Omissions(front, exprs, prefix) + [path]
  }

  function ExprOmissions(target: Field, expr: Expr, path: string): seq<string>
    decreases target
  {
    if target.ty.RecordType? then (if expr.ObjectExpr? then Omissions(target.ty.fields, expr.fields, path) else [])
    else if target.ty.ListType? && target.ty.element.RecordType? && expr.ListMapExpr? && expr.item.ObjectExpr?
    then Omissions(target.ty.element.fields, expr.item.fields, path + "[]")
    else []
  }

  // ---------------------------------------------------------------------
  // The explanation lists exactly the omissions.
  // ---------------------------------------------------------------------

  function Prefixed(prefix: string, names: seq<string>): (r: seq<string>)
    ensures |r| == |names|
  {
    seq(|names|, i requires 0 <= i < |names| => prefix + names[i])
  }

  lemma PrefixedAppend(prefix: string, a: seq<string>, b: seq<string>)
    ensures Prefixed(prefix, a + b) == Prefixed(prefix, a) + Prefixed(prefix, b)
  {
  }

  function Deeper(outer: string, inner: string): string {
    if inner == "" then outer else outer + "." + inner
  }

  lemma JoinAfter(outer: string, inner: string, name: string)
    requires outer != "" && name != ""
    ensures JoinPath(Deeper(outer, inner), name) == outer + "." + JoinPath(inner, name) == Deeper(outer, JoinPath(inner, name))
  {
    if inner != "" {
      assert outer + "." + inner + "." + name == outer + "." + (inner + "." + name);
    }
  }

  lemma {:induction false} OmissionsDeeper(targets: seq<Field>, exprs: IndexMap<Expr>, outer: string, inner: string)
    requires outer != "" && WellNamedFields(targets)
    ensures Prefixed(outer + ".", Omissions(targets, exprs, inner)) == Omissions(targets, exprs, Deeper(outer, inner))
    decreases targets
  {
    if targets != [] {
      var front, target := targets[..|targets| - 1], targets[|targets| - 1];
      var path := JoinPath(inner, target.name);
      WellNamedPrefix(targets, |targets| - 1);
      assert IsIdent(target.name) && WellNamed(target.ty);
      JoinAfter(outer, inner, target.name);
      if exprs != [] && exprs[|exprs| - 1].key == target.name {
        var rest, expr := exprs[..|exprs| - 1], exprs[|exprs| - 1].value;
        OmissionsDeeper(front, rest, outer, inner);
        ExprOmissionsDeeper(target, expr, outer, path);
        PrefixedAppend(outer + ".", Omissions(front, rest, inner), ExprOmissions(target, expr, path));
      } else {
        OmissionsDeeper(front, exprs, outer, inner);
        PrefixedAppend(outer + ".", Omissions(front, exprs, inner), [path]);
        assert Prefixed(outer + ".", [path]) == [outer + "." + path];
      }
    }
  }

  lemma {:induction false} ExprOmissionsDeeper(target: Field, expr: Expr, outer: string, path: string)
    requires outer != "" && path != "" && WellNamed(target.ty)
    ensures Prefixed(outer + ".", ExprOmissions(target, expr, path)) == ExprOmissions(target, expr, Deeper(outer, path))
    decreases target
  {
    if target.ty.RecordType? {
      if expr.ObjectExpr? {
        OmissionsDeeper(target.ty.fields, expr.fields, outer, path);
      }
    } else if target.ty.ListType? && target.ty.element.RecordType? && expr.ListMapExpr? && expr.item.ObjectExpr? {
      assert outer + "." + path + "[]" == outer + "." + (path + "[]");
      assert WellNamed(target.ty.element);
      OmissionsDeeper(target.ty.element.fields, expr.item.fields, outer, path + "[]");
    }
  }

  lemma OmittedSnoc(st: State, entry: ExplainEntry)
    ensures OmittedTargets(PushExplanation(st, entry).explanation)
         == OmittedTargets(st.explanation) + if entry.action.Omit? then [entry.target] else []
  {
    assert (st.explanation + [entry])[..|st.explanation|] == st.explanation;
  }

  lemma {:induction false} ElementsOmitted(st: State, target: string, source: string, entries: seq<ExplainEntry>)
    ensures OmittedTargets(PushElementEntries(st, target, source, entries).explanation)
         == OmittedTargets(st.explanation) + Prefixed(target + "[].", OmittedTargets(entries))
  {
    if entries != [] {
      var n := |entries| - 1;
      ElementsOmitted(st, target, source, entries[..n]);
      OmittedSnoc(PushElementEntries(st, target, source, entries[..n]), ElementEntry(target, source, entries[n]));
      if entries[n].action.Omit? {
        PrefixedAppend(target + "[].", OmittedTargets(entries[..n]), [entries[n].target]);
        assert Prefixed(target + "[].", [entries[n].target]) == [target + "[]." + entries[n].target];
      }
    }
  }

  // The omissions one decided leaf adds.
  function LeafOmissions(target: Field, leaf: Option<Expr>, path: string): seq<string> {
    match leaf
    case None => [path]
    case Some(expr) => ExprOmissions(target, expr, path)
  }

  // What the mapping of a list's elements plans over.
  lemma ElementReady(env: Env, source: seq<Field>, target: Field, path: string, st: State, move: Move) returns (from: seq<Field>)
    requires ScopeOf(env, source) && WellNamed(target.ty) && Allowed(env, target, path, st, move) && move.MapEach?
    ensures LeafAt(source, move.path).Some? && Render(move.path) == move.c.source
    ensures var ty := LeafAt(source, move.path).value.ty; ty.ListType? && ty.element == RecordType(from)
    ensures WellNamedFields(from) && WellNamedFields(target.ty.element.fields)
    ensures ElementPlan(RecordType(from), target.ty.element, env.options, move.fields, move.nested)
  {
    var leaf := CandidateReads(env, source, FieldRef(path, target), st.used);
    from := leaf.field.ty.element.fields;
    LeafWellNamed(source, KeyNames(move.path.segments));
    WellNamedElement(leaf.field.ty);
    WellNamedElement(target.ty);
  }

  lemma WellNamedElement(ty: Type)
    requires WellNamed(ty) && ty.ListType? && ty.element.RecordType?
    ensures WellNamedFields(ty.element.fields)
  {
  }

  lemma {:induction false} LeafExplained(env: Env, source: seq<Field>, target: Field, path: string, st: State)
    requires ScopeOf(env, source) && WellNamed(target.ty) && !target.ty.RecordType? && path != ""
    requires BuildLeaf(env, target, path, st).Ok?
    requires BuildLeaf(env, target, path, st).value.1.unresolved == st.unresolved
    ensures var (leaf, after) := BuildLeaf(env, target, path, st).value;
            OmittedTargets(after.explanation) == OmittedTargets(st.explanation) + LeafOmissions(target, leaf, path)
    decreases target, 0
  {
    var move := LeafMove(env, target, path, st);
    if move.MapEach? {
      var from := ElementReady(env, source, target, path, st, move);
      PlanExplained(from, target.ty.element.fields, env.options);
      MapEachExplained(target, path, st, move);
    } else {
      PlainMoveExplained(target, path, st, move);
    }
  }

  lemma PlainMoveExplained(target: Field, path: string, st: State, move: Move)
    requires !target.ty.RecordType? && !move.MapEach? && Made(st, path, move).1.unresolved == st.unresolved
    ensures var (leaf, after) := Made(st, path, move);
            OmittedTargets(after.explanation) == OmittedTargets(st.explanation) + LeafOmissions(target, leaf, path)
  {
    match move
    case OmitLeaf => OmittedSnoc(st, ExplainEntry(path, None, 0.0, [OptionalUnmatched], Omit));
    case Copy(c, _) => OmittedSnoc(UseSource(st, c.source), ExplainEntry(path, Some(c.source), c.score, c.reasons, MapLeaf));
    case _ =>
  }

  lemma MapEachExplained(target: Field, path: string, st: State, move: Move)
    requires move.MapEach? && path != "" && target.ty.ListType? && target.ty.element.RecordType?
    requires WellNamedFields(target.ty.element.fields)
    requires OmittedTargets(move.nested) == Omissions(target.ty.element.fields, move.fields, "")
    ensures var (leaf, after) := Made(st, path, move);
            OmittedTargets(after.explanation) == OmittedTargets(st.explanation) + LeafOmissions(target, leaf, path)
  {
    AcceptOmits(st, path, move.c, move.nested);
    ElementOmissions(target, path, move.path, move.fields);
  }

  lemma AcceptOmits(st: State, path: string, c: Candidate, nested: seq<ExplainEntry>)
    ensures OmittedTargets(AcceptListMap(st, path, c, nested).explanation)
         == OmittedTargets(st.explanation) + Prefixed(path + "[].", OmittedTargets(nested))
  {
    var head := ExplainEntry(path, Some(c.source), c.score, [CardinalityPreserving], MapElements);
    OmittedSnoc(UseSource(st, c.source), head);
    ElementsOmitted(PushExplanation(UseSource(st, c.source), head), path, c.source, nested);
  }

  lemma ElementOmissions(target: Field, path: string, input: FieldPath, fields: IndexMap<Expr>)
    requires path != "" && target.ty.ListType? && target.ty.element.RecordType? && WellNamedFields(target.ty.element.fields)
    ensures Prefixed(path + "[].", Omissions(target.ty.element.fields, fields, ""))
         == ExprOmissions(target, ListMapExpr(input, ObjectExpr(fields)), path)
  {
    OmissionsDeeper(target.ty.element.fields, fields, path + "[]", "");
    assert path + "[]." == path + "[]" + ".";
  }

  lemma {:induction false} BuildExplained(env: Env, source: seq<Field>, targets: seq<Field>, prefix: string, st: State)
    requires ScopeOf(env, source) && WellNamedFields(targets)
    requires BuildFields(env, targets, prefix, st).Ok?
    requires BuildFields(env, targets, prefix, st).value.1.unresolved == st.unresolved
    ensures var (exprs, after) := BuildFields(env, targets, prefix, st).value;
            OmittedTargets(after.explanation) == OmittedTargets(st.explanation) + Omissions(targets, exprs, prefix)
    decreases targets, 0
  {
    if targets != [] {
      var n := |targets| - 1;
      var front, target := targets[..n], targets[n];
      var path := JoinPath(prefix, target.name);
      WellNamedPrefix(targets, n);
      BuildSettles(env, source, targets, prefix, st);
      BuildExplained(env, source, front, prefix, st);
      var (exprs, before) := BuildFields(env, front, prefix, st).value;
      assert IsIdent(target.name) && WellNamed(target.ty);
      if target.ty.RecordType? {
        BuildExplained(env, source, target.ty.fields, path, before);
        var nested := ObjectExpr(BuildFields(env, target.ty.fields, path, before).value.0);
        StepExplained(env, targets, prefix, st, Some(nested), BuildFields(env, targets, prefix, st).value.1);
      } else {
        LeafExplained(env, source, target, path, before);
        StepExplained(env, targets, prefix, st, BuildLeaf(env, target, path, before).value.0, BuildFields(env, targets, prefix, st).value.1);
      }
    }
  }

  lemma StepExplained(env: Env, targets: seq<Field>, prefix: string, st: State, leaf: Option<Expr>, after: State)
    requires targets != [] && UniqueNames(targets) && BuildFields(env, targets[..|targets| - 1], prefix, st).Ok?
    requires var target := targets[|targets| - 1];
             var (exprs, before) := BuildFields(env, targets[..|targets| - 1], prefix, st).value;
             && OmittedTargets(before.explanation) == OmittedTargets(st.explanation) + Omissions(targets[..|targets| - 1], exprs, prefix)
             && OmittedTargets(after.explanation)
                == OmittedTargets(before.explanation) + LeafOmissions(target, leaf, JoinPath(prefix, target.name))
    ensures var target := targets[|targets| - 1];
            var exprs := BuildFields(env, targets[..|targets| - 1], prefix, st).value.0;
            var grown := if leaf.Some? then Insert(exprs, target.name, leaf.value) else exprs;
            OmittedTargets(after.explanation) == OmittedTargets(st.explanation) + Omissions(targets, grown, prefix)
  {
    OmissionsGrow(env, targets, prefix, st, leaf);
  }

  // Nothing is left unresolved on the way to a state where nothing is.
  lemma BuildSettles(env: Env, source: seq<Field>, targets: seq<Field>, prefix: string, st: State)
    requires ScopeOf(env, source) && WellNamedFields(targets) && targets != []
    requires BuildFields(env, targets, prefix, st).Ok?
    requires BuildFields(env, targets, prefix, st).value.1.unresolved == st.unresolved
    ensures BuildFields(env, targets[..|targets| - 1], prefix, st).value.1.unresolved == st.unresolved
  {
    var n := |targets| - 1;
    var target := targets[n];
    var path := JoinPath(prefix, target.name);
    WellNamedPrefix(targets, n);
    assert WellNamed(target.ty);
    BuildCompiles(env, source, targets[..n], prefix, st);
    var before := BuildFields(env, targets[..n], prefix, st).value.1;
    if target.ty.RecordType? {
      BuildCompiles(env, source, target.ty.fields, path, before);
    } else {
      LeafCompiles(env, source, target, path, before);
    }
  }

  lemma OmissionsGrow(env: Env, targets: seq<Field>, prefix: string, st: State, leaf: Option<Expr>)
    requires targets != [] && UniqueNames(targets) && BuildFields(env, targets[..|targets| - 1], prefix, st).Ok?
    ensures var target := targets[|targets| - 1];
            var exprs := BuildFields(env, targets[..|targets| - 1], prefix, st).value.0;
            var grown := if leaf.Some? then Insert(exprs, target.name, leaf.value) else exprs;
            (Omissions(targets, grown, prefix)
              == Omissions(targets[..|targets| - 1], exprs, prefix) + LeafOmissions(target, leaf, JoinPath(prefix, target.name)))
  {
    var target := targets[|targets| - 1];
    var exprs := BuildFields(env, targets[..|targets| - 1], prefix, st).value.0;
    BuiltFresh(env, targets, prefix, st, if leaf.Some? then leaf.value else ObjectExpr([]));
    if leaf.Some? {
      assert (exprs + [Entry(target.name, leaf.value)])[..|exprs|] == exprs;
    } else if exprs != [] {
      assert exprs[|exprs| - 1].key != target.name;
    }
  }

  // The omitted entries of a ready plan's explanation are, in order, exactly
  // the target paths its expressions leave out.
  lemma {:induction false} PlanExplained(source: seq<Field>, targets: seq<Field>, options: Options)
    requires WellNamedFields(source) && WellNamedFields(targets)
    requires PlanSchemas(RecordType(source), RecordType(targets), options).Ok?
    requires PlanSchemas(RecordType(source), RecordType(targets), options).value.Ready?
    ensures var planned := PlanSchemas(RecordType(source), RecordType(targets), options).value;
            && planned.plan.operations == [MapOp(PlanFields(planned.plan))]
            && OmittedTargets(planned.explanation) == Omissions(targets, PlanFields(planned.plan), "")
    decreases targets, 1
  {
    var env := Env(CollectSources(source, ""), options);
    BuildExplained(env, source, targets, "", EMPTY);
    var (exprs, st) := BuildFields(env, targets, "", EMPTY).value;
    assert [] + Omissions(targets, exprs, "") == Omissions(targets, exprs, "");
  }

  // ---------------------------------------------------------------------
  // Paths of different fields do not mix.
  // ---------------------------------------------------------------------

  predicate Under(x: string, path: string) {
    |x| > |path| && x[..|path|] == path && (x[|path|] == '.' || x[|path|] == '[')
  }

  predicate Within(x: string, path: string) {
    x == path || Under(x, path)
  }

  predicate InScope(x: string, prefix: string) {
    prefix == "" || Under(x, prefix)
  }

  lemma DropPrefix(x: string, prefix: string, name: string)
    requires Within(x, JoinPath(prefix, name))
    ensures var skip := if prefix == "" then 0 else |prefix| + 1; skip <= |x| && Within(x[skip..], name)
  {
    if prefix != "" {
      var path := prefix + "." + name;
      var y := x[|prefix| + 1..];
      assert x[..|path|] == path;
      assert forall i :: 0 <= i < |name| ==> y[i] == x[|prefix| + 1 + i] == path[|prefix| + 1 + i] == name[i];
    }
  }

  lemma NotWithin(y: string, a: string, b: string)
    requires |a| < |b| <= |y| && IsIdent(b) && y[..|b|] == b
    ensures !Within(y, a)
  {
    assert y[|a|] == b[|a|];
  }

  lemma OneName(y: string, a: string, b: string)
    requires IsIdent(a) && IsIdent(b) && Within(y, a) && Within(y, b)
    ensures a == b
  {
    assert y[..|a|] == a && y[..|b|] == b;
    if |a| < |b| {
      NotWithin(y, a, b);
    } else if |b| < |a| {
      NotWithin(y, b, a);
    }
  }

  lemma OnePath(x: string, prefix: string, a: string, b: string)
    requires IsIdent(a) && IsIdent(b) && Within(x, JoinPath(prefix, a)) && Within(x, JoinPath(prefix, b))
    ensures a == b
  {
    DropPrefix(x, prefix, a);
    DropPrefix(x, prefix, b);
    OneName(x[if prefix == "" then 0 else |prefix| + 1..], a, b);
  }

  lemma UnderOuter(x: string, prefix: string, name: string)
    requires prefix != "" && Within(x, prefix + "." + name)
    ensures Under(x, prefix)
  {
    var path := prefix + "." + name;
    assert x[..|path|] == path;
    assert x[|prefix|] == path[|prefix|] && x[..|prefix|] == path[..|prefix|];
  }

  lemma UnderElements(x: string, path: string)
    requires Under(x, path + "[]")
    ensures Under(x, path)
  {
    var deep := path + "[]";
    assert x[|path|] == deep[|path|] && x[..|path|] == x[..|deep|][..|path|] == path;
  }

  // ---------------------------------------------------------------------
  // Omissions, field by field.
  // ---------------------------------------------------------------------

  lemma {:induction false} OmissionsWithin(targets: seq<Field>, exprs: IndexMap<Expr>, prefix: string, x: string) returns (k: nat)
    requires WellNamedFields(targets) && x in Omissions(targets, exprs, prefix)
    ensures k < |targets| && Within(x, JoinPath(prefix, targets[k].name))
    decreases targets
  {
    var n := |targets| - 1;
    var path := JoinPath(prefix, targets[n].name);
    var named := exprs != [] && exprs[|exprs| - 1].key == targets[n].name;
    var rest := if named then exprs[..|exprs| - 1] else exprs;
    WellNamedPrefix(targets, n);
    assert IsIdent(targets[n].name) && WellNamed(targets[n].ty);
    if x in Omissions(targets[..n], rest, prefix) {
      k := OmissionsWithin(targets[..n], rest, prefix, x);
    } else {
      k := n;
      if named {
        ExprOmissionsUnder(targets[n], exprs[|exprs| - 1].value, path, x);
      }
    }
  }

  lemma {:induction false} ExprOmissionsUnder(target: Field, expr: Expr, path: string, x: string)
    requires path != "" && WellNamed(target.ty) && x in ExprOmissions(target, expr, path)
    ensures Under(x, path)
    decreases target
  {
    if target.ty.RecordType? {
      var k := OmissionsWithin(target.ty.fields, expr.fields, path, x);
      UnderOuter(x, path, target.ty.fields[k].name);
    } else {
      assert WellNamed(target.ty.element);
      var k := OmissionsWithin(target.ty.element.fields, expr.item.fields, path + "[]", x);
      UnderOuter(x, path + "[]", target.ty.element.fields[k].name);
      UnderElements(x, path);
    }
  }

  // What the omissions say about one target: whether it has an expression,
  // and that expression's own omissions.
  ghost predicate SaysOf(target: Field, exprs: IndexMap<Expr>, path: string, x: string, listed: bool) {
    match Get(exprs, target.name)
    case None => listed <==> x == path
    case Some(expr) => listed <==> x in ExprOmissions(target, expr, path)
  }

  predicate Named(exprs: IndexMap<Expr>, name: string) {
    exprs != [] && exprs[|exprs| - 1].key == name
  }

  function FrontExprs(exprs: IndexMap<Expr>, name: string): IndexMap<Expr> {
    if Named(exprs, name) then exprs[..|exprs| - 1] else exprs
  }

  lemma NotNamed(exprs: IndexMap<Expr>, name: string)
    requires !HasKey(exprs, name)
    ensures !Named(exprs, name)
  {
    if exprs != [] {
      assert HasKey(exprs, exprs[|exprs| - 1].key);
    }
  }

  lemma LastOf(source: seq<Field>, targets: seq<Field>, exprs: IndexMap<Expr>)
    requires CompiledFields(source, targets, exprs) && UniqueNames(targets) && targets != []
    ensures var n := |targets| - 1;
            && CompiledFields(source, targets[..n], FrontExprs(exprs, targets[n].name))
            && Get(exprs, targets[n].name) == if Named(exprs, targets[n].name) then Some(exprs[|exprs| - 1].value) else None
  {
    var n := |targets| - 1;
    CompiledKeysUnique(source, targets, exprs);
    if Omittable(targets[n]) && CompiledFields(source, targets[..n], exprs) {
      CompiledKeyFresh(source, targets, exprs);
      NotNamed(exprs, targets[n].name);
    } else {
      GetAt(exprs, |exprs| - 1);
    }
  }

  lemma GetFront(exprs: IndexMap<Expr>, last: string, name: string)
    requires last != name
    ensures Get(FrontExprs(exprs, last), name) == Get(exprs, name)
  {
    if Named(exprs, last) {
      var n := |exprs| - 1;
      assert exprs == exprs[..n] + [exprs[n]];
      GetAppend(exprs[..n], [exprs[n]], name);
    }
  }

  lemma {:induction false} OmissionsOf(source: seq<Field>, targets: seq<Field>, exprs: IndexMap<Expr>, prefix: string, k: nat, x: string)
    requires CompiledFields(source, targets, exprs) && WellNamedFields(targets) && k < |targets|
    requires Within(x, JoinPath(prefix, targets[k].name))
    ensures SaysOf(targets[k], exprs, JoinPath(prefix, targets[k].name), x, x in Omissions(targets, exprs, prefix))
    decreases |targets|
  {
    var n := |targets| - 1;
    LastOf(source, targets, exprs);
    WellNamedPrefix(targets, n);
    if k < n {
      OtherName(targets, k);
      OmissionsOf(source, targets[..n], FrontExprs(exprs, targets[n].name), prefix, k, x);
      OmissionsOfFront(targets, exprs, prefix, k, x);
    } else {
      OmissionsOfLast(targets, exprs, prefix, x);
    }
  }

  lemma OtherName(targets: seq<Field>, k: nat)
    requires UniqueNames(targets) && k < |targets| - 1
    ensures targets[..|targets| - 1][k] == targets[k] && targets[k].name != targets[|targets| - 1].name
  {
  }

  lemma OmissionsOfFront(targets: seq<Field>, exprs: IndexMap<Expr>, prefix: string, k: nat, x: string)
    requires WellNamedFields(targets) && k < |targets| - 1 && targets[k].name != targets[|targets| - 1].name
    requires Within(x, JoinPath(prefix, targets[k].name))
    requires var n := |targets| - 1;
             var rest := FrontExprs(exprs, targets[n].name);
             SaysOf(targets[k], rest, JoinPath(prefix, targets[k].name), x, x in Omissions(targets[..n], rest, prefix))
    ensures SaysOf(targets[k], exprs, JoinPath(prefix, targets[k].name), x, x in Omissions(targets, exprs, prefix))
  {
    var target := targets[|targets| - 1];
    assert WellNamed(target.ty) && IsIdent(target.name) && IsIdent(targets[k].name);
    GetFront(exprs, target.name, targets[k].name);
    LastSilent(target, exprs, prefix, targets[k].name, x);
    OmissionsSplit(targets, exprs, prefix, x);
  }

  lemma OmissionsOfLast(targets: seq<Field>, exprs: IndexMap<Expr>, prefix: string, x: string)
    requires WellNamedFields(targets) && targets != []
    requires Within(x, JoinPath(prefix, targets[|targets| - 1].name))
    requires Get(exprs, targets[|targets| - 1].name)
          == if Named(exprs, targets[|targets| - 1].name) then Some(exprs[|exprs| - 1].value) else None
    ensures var target := targets[|targets| - 1];
            SaysOf(target, exprs, JoinPath(prefix, target.name), x, x in Omissions(targets, exprs, prefix))
  {
    var n := |targets| - 1;
    WellNamedPrefix(targets, n);
    FrontSilent(targets[..n], FrontExprs(exprs, targets[n].name), prefix, targets[n].name, x);
    OmissionsSplit(targets, exprs, prefix, x);
  }

  lemma OmissionsSplit(targets: seq<Field>, exprs: IndexMap<Expr>, prefix: string, x: string)
    requires targets != []
    ensures var n := |targets| - 1;
            var path := JoinPath(prefix, targets[n].name);
            var own := if Named(exprs, targets[n].name) then ExprOmissions(targets[n], exprs[|exprs| - 1].value, path) else [path];
            (x in Omissions(targets, exprs, prefix)) ==
            (x in Omissions(targets[..n], FrontExprs(exprs, targets[n].name), prefix) || x in own)
  {
  }

  // Another field's path is not among a field's own omissions.
  lemma LastSilent(target: Field, exprs: IndexMap<Expr>, prefix: string, other: string, x: string)
    requires IsIdent(target.name) && WellNamed(target.ty) && IsIdent(other) && other != target.name
    requires Within(x, JoinPath(prefix, other))
    ensures x != JoinPath(prefix, target.name)
    ensures exprs != [] ==> x !in ExprOmissions(target, exprs[|exprs| - 1].value, JoinPath(prefix, target.name))
  {
    var path := JoinPath(prefix, target.name);
    if Within(x, path) {
      OnePath(x, prefix, other, target.name);
    }
    if exprs != [] && x in ExprOmissions(target, exprs[|exprs| - 1].value, path) {
      ExprOmissionsUnder(target, exprs[|exprs| - 1].value, path, x);
    }
  }

  lemma FrontSilent(front: seq<Field>, rest: IndexMap<Expr>, prefix: string, name: string, x: string)
    requires WellNamedFields(front) && IsIdent(name) && Within(x, JoinPath(prefix, name))
    requires forall k :: 0 <= k < |front| ==> front[k].name != name
    ensures x !in Omissions(front, rest, prefix)
  {
    if x in Omissions(front, rest, prefix) {
      var k := OmissionsWithin(front, rest, prefix, x);
      OnePath(x, prefix, front[k].name, name);
    }
  }

  // ---------------------------------------------------------------------
  // What is emitted.
  // ---------------------------------------------------------------------

  // Target names, in order, less the omitted leaves.
  function Kept(targets: seq<Field>, prefix: string, omitted: seq<string>): seq<string> {
    if targets == [] then [] else
      var target := targets[|targets| - 1];
      Kept(targets[..|targets| - 1], prefix, omitted) +
      (if target.ty.RecordType? || JoinPath(prefix, target.name) !in omitted then [target.name] else [])
  }

  // The emitted fields are the kept ones, at this level and, through records
  // and mapped list elements, at every level below.
  ghost predicate EmitsFields(targets: seq<Field>, exprs: IndexMap<Expr>, prefix: string, omitted: seq<string>, entries: IndexMap<Value>)
    decreases targets
  {
    && Keys(entries) == Keys(exprs) == Kept(targets, prefix, omitted)
    && forall k, i :: 0 <= k < |targets| && 0 <= i < |exprs| && targets[k].name == exprs[i].key
         ==> EmitsValue(targets[k], exprs[i].value, JoinPath(prefix, targets[k].name), omitted, entries[i].value)
  }

  ghost predicate EmitsValue(target: Field, expr: Expr, path: string, omitted: seq<string>, value: Value)
    decreases target
  {
    if target.ty.RecordType? then
      expr.ObjectExpr? && value.Object? && EmitsFields(target.ty.fields, expr.fields, path, omitted, value.fields)
    else if target.ty.ListType? && target.ty.element.RecordType? && expr.ListMapExpr? && expr.item.ObjectExpr? then
      || value.Null?
      || (value.Array? && forall i :: 0 <= i < |value.items| ==>
            || value.items[i].Null?
            || (value.items[i].Object?
                && EmitsFields(target.ty.element.fields, expr.item.fields, path + "[]", omitted, value.items[i].fields)))
    else true
  }

  ghost predicate Agree(targets: seq<Field>, exprs: IndexMap<Expr>, prefix: string, omitted: seq<string>) {
    forall x :: InScope(x, prefix) ==> (x in omitted <==> x in Omissions(targets, exprs, prefix))
  }

  // A field has a key unless it is a leaf whose path is omitted.
  predicate KeyedUnlessOmitted(target: Field, exprs: IndexMap<Expr>, path: string, omitted: seq<string>) {
    if target.ty.RecordType? then Get(exprs, target.name).Some? else path in omitted <==> Get(exprs, target.name).None?
  }

  // Keys follow the order of the targets.
  predicate InOrder(targets: seq<Field>, exprs: IndexMap<Expr>) {
    if targets == [] then exprs == [] else
      var target := targets[|targets| - 1];
      && InOrder(targets[..|targets| - 1], FrontExprs(exprs, target.name))
      && (HasKey(exprs, target.name) <==> Named(exprs, target.name))
  }

  lemma {:induction false} CompiledInOrder(source: seq<Field>, targets: seq<Field>, exprs: IndexMap<Expr>)
    requires CompiledFields(source, targets, exprs) && UniqueNames(targets)
    ensures InOrder(targets, exprs)
    decreases |targets|
  {
    if targets != [] {
      var n := |targets| - 1;
      LastOf(source, targets, exprs);
      CompiledInOrder(source, targets[..n], FrontExprs(exprs, targets[n].name));
    }
  }

  lemma HasFront(exprs: IndexMap<Expr>, last: string, name: string)
    requires last != name
    ensures HasKey(FrontExprs(exprs, last), name) <==> HasKey(exprs, name)
  {
    var rest := FrontExprs(exprs, last);
    if HasKey(exprs, name) {
      var i :| 0 <= i < |exprs| && exprs[i].key == name;
      assert i < |rest| && rest[i] == exprs[i];
    }
  }

  function NamesIn(targets: seq<Field>, keys: set<string>): seq<string> {
    if targets == [] then [] else
      var name := targets[|targets| - 1].name;
      NamesIn(targets[..|targets| - 1], keys) + (if name in keys then [name] else [])
  }

  lemma {:induction false} OrderedKeys(targets: seq<Field>, exprs: IndexMap<Expr>, keys: set<string>)
    requires InOrder(targets, exprs) && UniqueNames(targets)
    requires forall k :: 0 <= k < |targets| ==> (targets[k].name in keys <==> HasKey(exprs, targets[k].name))
    ensures Keys(exprs) == NamesIn(targets, keys)
    decreases |targets|
  {
    if targets != [] {
      var n := |targets| - 1;
      var front, name := targets[..n], targets[n].name;
      var rest := FrontExprs(exprs, name);
      FrontKeys(targets, exprs, keys);
      OrderedKeys(front, rest, keys);
      if Named(exprs, name) {
        assert Keys(exprs) == Keys(rest) + [name];
      }
    }
  }

  lemma FrontKeys(targets: seq<Field>, exprs: IndexMap<Expr>, keys: set<string>)
    requires targets != [] && UniqueNames(targets)
    requires forall k :: 0 <= k < |targets| ==> (targets[k].name in keys <==> HasKey(exprs, targets[k].name))
    ensures var front, rest := targets[..|targets| - 1], FrontExprs(exprs, targets[|targets| - 1].name);
            forall k :: 0 <= k < |front| ==> (front[k].name in keys <==> HasKey(rest, front[k].name))
  {
    var n := |targets| - 1;
    forall k | 0 <= k < n ensures HasKey(exprs, targets[k].name) <==> HasKey(FrontExprs(exprs, targets[n].name), targets[k].name) {
      HasFront(exprs, targets[n].name, targets[k].name);
    }
  }

  lemma {:induction false} KeptNames(targets: seq<Field>, prefix: string, omitted: seq<string>, keys: set<string>)
    requires forall k :: 0 <= k < |targets| ==>
               (targets[k].name in keys <==> targets[k].ty.RecordType? || JoinPath(prefix, targets[k].name) !in omitted)
    ensures NamesIn(targets, keys) == Kept(targets, prefix, omitted)
  {
    if targets != [] {
      KeptNames(targets[..|targets| - 1], prefix, omitted, keys);
    }
  }

  lemma KeptKeys(targets: seq<Field>, exprs: IndexMap<Expr>, prefix: string, omitted: seq<string>)
    requires InOrder(targets, exprs) && UniqueNames(targets)
    requires forall k :: 0 <= k < |targets| ==> KeyedUnlessOmitted(targets[k], exprs, JoinPath(prefix, targets[k].name), omitted)
    ensures Keys(exprs) == Kept(targets, prefix, omitted)
  {
    var keys := set k | 0 <= k < |targets| && Get(exprs, targets[k].name).Some? :: targets[k].name;
    forall k | 0 <= k < |targets|
      ensures targets[k].name in keys <==> targets[k].ty.RecordType? || JoinPath(prefix, targets[k].name) !in omitted
    {
      assert KeyedUnlessOmitted(targets[k], exprs, JoinPath(prefix, targets[k].name), omitted);
    }
    OrderedKeys(targets, exprs, keys);
    KeptNames(targets, prefix, omitted, keys);
  }

  lemma LevelKept(source: seq<Field>, targets: seq<Field>, exprs: IndexMap<Expr>, prefix: string, omitted: seq<string>)
    requires CompiledFields(source, targets, exprs) && WellNamedFields(targets)
    requires Agree(targets, exprs, prefix, omitted)
    ensures Keys(exprs) == Kept(targets, prefix, omitted)
  {
    CompiledPositions(source, targets, exprs);
    forall k | 0 <= k < |targets|
      ensures KeyedUnlessOmitted(targets[k], exprs, JoinPath(prefix, targets[k].name), omitted)
    {
      var path := JoinPath(prefix, targets[k].name);
      OmissionsOf(source, targets, exprs, prefix, k, path);
      assert InScope(path, prefix) by { if prefix != "" { UnderOuter(path, prefix, targets[k].name); } }
      var found := Get(exprs, targets[k].name);
      assert WellNamed(targets[k].ty);
      if found.Some? && path in ExprOmissions(targets[k], found.value, path) {
        ExprOmissionsUnder(targets[k], found.value, path, path);
      }
    }
    CompiledInOrder(source, targets, exprs);
    KeptKeys(targets, exprs, prefix, omitted);
  }

  // Agreement carries over to the scope of one target.
  lemma AgreeBelow(source: seq<Field>, targets: seq<Field>, exprs: IndexMap<Expr>, prefix: string, omitted: seq<string>, k: nat, i: nat, x: string)
    requires CompiledFields(source, targets, exprs) && WellNamedFields(targets) && Agree(targets, exprs, prefix, omitted)
    requires k < |targets| && i < |exprs| && targets[k].name == exprs[i].key
    requires Under(x, JoinPath(prefix, targets[k].name))
    ensures x in omitted <==> x in ExprOmissions(targets[k], exprs[i].value, JoinPath(prefix, targets[k].name))
  {
    OmissionsOf(source, targets, exprs, prefix, k, x);
    CompiledKeysUnique(source, targets, exprs);
    GetAt(exprs, i);
    if prefix != "" { UnderOuter(x, prefix, targets[k].name); }
  }

  lemma {:induction false} FieldsEmit(lib: Lib, source: seq<Field>, targets: seq<Field>, exprs: IndexMap<Expr>, prefix: string, omitted: seq<string>, record: Value)
    requires CompiledFields(source, targets, exprs) && WellNamedFields(targets) && Agree(targets, exprs, prefix, omitted)
    requires EvalFields(lib, record, exprs).Ok?
    ensures EmitsFields(targets, exprs, prefix, omitted, EvalFields(lib, record, exprs).value)
    decreases targets, 2
  {
    LevelKept(source, targets, exprs, prefix, omitted);
    CompiledKeysUnique(source, targets, exprs);
    FieldsEvaluate(lib, record, exprs);
    var out, results := EvalFields(lib, record, exprs).value, FieldResults(lib, record, exprs);
    assert Keys(out) == Keys(exprs);
    forall k, i | 0 <= k < |targets| && 0 <= i < |exprs| && targets[k].name == exprs[i].key
      ensures EmitsValue(targets[k], exprs[i].value, JoinPath(prefix, targets[k].name), omitted, out[i].value)
    {
      assert results[i] == Ok(out[i].value);
      ServedHere(source, targets, exprs, k, i);
      forall x | Under(x, JoinPath(prefix, targets[k].name))
        ensures x in omitted <==> x in ExprOmissions(targets[k], exprs[i].value, JoinPath(prefix, targets[k].name))
      {
        AgreeBelow(source, targets, exprs, prefix, omitted, k, i, x);
      }
      assert WellNamed(targets[k].ty) && IsIdent(targets[k].name);
      ExprEmits(lib, source, targets[k], exprs[i].value, JoinPath(prefix, targets[k].name), omitted, record);
    }
  }

  lemma ServedHere(source: seq<Field>, targets: seq<Field>, exprs: IndexMap<Expr>, k: nat, i: nat)
    requires CompiledFields(source, targets, exprs) && UniqueNames(targets)
    requires k < |targets| && i < |exprs| && targets[k].name == exprs[i].key
    ensures CompiledExpr(source, targets[k], exprs[i].value)
  {
    CompiledPositions(source, targets, exprs);
    assert Serves(source, targets, exprs[i]);
    var j :| 0 <= j < |targets| && targets[j].name == exprs[i].key && CompiledExpr(source, targets[j], exprs[i].value);
    assert j == k;
  }

  lemma {:induction false} ExprEmits(lib: Lib, source: seq<Field>, target: Field, expr: Expr, path: string, omitted: seq<string>, record: Value)
    requires CompiledExpr(source, target, expr) && WellNamed(target.ty) && path != ""
    requires forall x :: Under(x, path) ==> (x in omitted <==> x in ExprOmissions(target, expr, path))
    requires EvalExpr(lib, record, expr).Ok?
    ensures EmitsValue(target, expr, path, omitted, EvalExpr(lib, record, expr).value)
    decreases target, 1
  {
    if target.ty.RecordType? {
      FieldsEmit(lib, source, target.ty.fields, expr.fields, path, omitted, record);
    } else if expr.ListMapExpr? {
      ListEmits(lib, source, target, expr, path, omitted, record);
    }
  }

  lemma {:induction false} ListEmits(lib: Lib, source: seq<Field>, target: Field, expr: Expr, path: string, omitted: seq<string>, record: Value)
    requires CompiledExpr(source, target, expr) && WellNamed(target.ty) && path != "" && expr.ListMapExpr? && !target.ty.RecordType?
    requires forall x :: Under(x, path) ==> (x in omitted <==> x in ExprOmissions(target, expr, path))
    requires EvalExpr(lib, record, expr).Ok?
    ensures EmitsValue(target, expr, path, omitted, EvalExpr(lib, record, expr).value)
    decreases target, 0
  {
    var value := ReadPath(record, expr.input);
    if value.Array? {
      var from := LeafAt(source, expr.input).value.ty.element.fields;
      var to, fields := target.ty.element.fields, expr.item.fields;
      forall x | Under(x, path + "[]") ensures x in omitted <==> x in Omissions(to, fields, path + "[]") {
        UnderElements(x, path);
      }
      forall i | 0 <= i < |value.items| && !value.items[i].Null? && EvalExpr(lib, value.items[i], expr.item).Ok?
        ensures EmitsItem(to, fields, path, omitted, EvalExpr(lib, value.items[i], expr.item).value)
      {
        FieldsEmit(lib, from, to, fields, path + "[]", omitted, value.items[i]);
      }
      ItemsEmit(lib, to, expr, path, omitted, value.items);
    }
  }

  ghost predicate EmitsItem(targets: seq<Field>, exprs: IndexMap<Expr>, path: string, omitted: seq<string>, item: Value) {
    item.Object? && EmitsFields(targets, exprs, path + "[]", omitted, item.fields)
  }

  lemma ItemsEmit(lib: Lib, to: seq<Field>, expr: Expr, path: string, omitted: seq<string>, items: seq<Value>)
    requires expr.ListMapExpr? && expr.item.ObjectExpr? && EvalItems(lib, items, expr.item).Ok?
    requires forall i :: 0 <= i < |items| && !items[i].Null? && EvalExpr(lib, items[i], expr.item).Ok? ==>
               EmitsItem(to, expr.item.fields, path, omitted, EvalExpr(lib, items[i], expr.item).value)
    ensures var out := EvalItems(lib, items, expr.item).value;
            forall i :: 0 <= i < |out| && !out[i].Null? ==> EmitsItem(to, expr.item.fields, path, omitted, out[i])
  {
    ListMapPointwise(lib, items, expr.item);
    var out := EvalItems(lib, items, expr.item).value;
    forall i | 0 <= i < |out| && !out[i].Null? ensures EmitsItem(to, expr.item.fields, path, omitted, out[i]) {
      assert EvalItem(lib, items[i], expr.item) == Ok(out[i]);
    }
  }

  // Whatever record it is given, a successful image of a ready plan emits the
  // fields the explanation did not omit, in target order, at every level; so
  // every required field is present.
  lemma ReadyPlanEmits(lib: Lib, source: seq<Field>, targets: seq<Field>, options: Options, plan: Plan, record: Value)
    requires ReadyPlan(source, targets, options, plan) && ImageOf(lib, plan, record).Ok?
    ensures var explanation := PlanSchemas(RecordType(source), RecordType(targets), options).value.explanation;
            var image := ImageOf(lib, plan, record).value;
            && image.Object?
            && EmitsFields(targets, PlanFields(plan), "", OmittedTargets(explanation), image.fields)
            && forall k :: 0 <= k < |targets| && !Omittable(targets[k]) ==> HasKey(image.fields, targets[k].name)
  {
    PlanExplained(source, targets, options);
    ReadyPlanValid(source, targets, options, plan);
    ImageEmits(lib, source, targets, plan, record);
  }

  lemma ImageEmits(lib: Lib, source: seq<Field>, targets: seq<Field>, plan: Plan, record: Value)
    requires CompiledFields(source, targets, PlanFields(plan)) && WellNamedFields(targets) && ImageOf(lib, plan, record).Ok?
    ensures var image := ImageOf(lib, plan, record).value;
            && image.Object?
            && EmitsFields(targets, PlanFields(plan), "", Omissions(targets, PlanFields(plan), ""), image.fields)
            && forall k :: 0 <= k < |targets| && !Omittable(targets[k]) ==> HasKey(image.fields, targets[k].name)
  {
    FieldsEmit(lib, source, targets, PlanFields(plan), "", Omissions(targets, PlanFields(plan), ""), record);
    RequiredPresent(source, targets, PlanFields(plan), ImageOf(lib, plan, record).value.fields);
  }

  lemma RequiredPresent(source: seq<Field>, targets: seq<Field>, exprs: IndexMap<Expr>, entries: IndexMap<Value>)
    requires CompiledFields(source, targets, exprs) && Keys(entries) == Keys(exprs)
    ensures forall k :: 0 <= k < |targets| && !Omittable(targets[k]) ==> HasKey(entries, targets[k].name)
  {
    CompiledPositions(source, targets, exprs);
    forall k | 0 <= k < |targets| && !Omittable(targets[k]) ensures HasKey(entries, targets[k].name) {
      SameKeys(exprs, entries, targets[k].name);
    }
  }

  lemma SameKeys(exprs: IndexMap<Expr>, entries: IndexMap<Value>, name: string)
    requires Keys(entries) == Keys(exprs) && HasKey(exprs, name)
    ensures HasKey(entries, name)
  {
    var i :| 0 <= i < |exprs| && exprs[i].key == name;
    assert Keys(entries)[i] == Keys(exprs)[i];
    assert entries[i].key == name;
  }
}
