// Deciding every target leaf.
module Coverage {
  import opened Results
  import opened IndexMaps
  import opened Paths
  import opened Schemas
  import opened Plans
  import opened Planner
  import opened SourceLeaves
  import opened Compiled

  const EMPTY: State := State([], [], [])

  // ---------------------------------------------------------------------
  // The five ways to decide a leaf.
  // ---------------------------------------------------------------------

  datatype Move =
    | Ask(candidates: seq<Candidate>)
    | LeaveOpen(candidates: seq<Candidate>)
    | OmitLeaf
    | Copy(c: Candidate, path: FieldPath)
    | MapEach(c: Candidate, path: FieldPath, fields: IndexMap<Expr>, nested: seq<ExplainEntry>)

  function Made(st: State, at: string, move: Move): (Option<Expr>, State) {
    match move
    case Ask(candidates) => (None, PushAmbiguous(st, at, candidates))
    case LeaveOpen(candidates) => (None, PushUnresolved(st, at, candidates))
    case OmitLeaf => (None, PushOmission(st, at))
    case Copy(c, path) => (Some(FieldExpr(path)), AcceptLeaf(st, at, c))
    case MapEach(c, path, fields, nested) => (Some(ListMapExpr(path, ObjectExpr(fields))), AcceptListMap(st, at, c, nested))
  }

  // Only nullable leaves are omitted; a leaf is mapped to the candidate
  // selected for it; and elements are mapped by a ready plan of their own.
  ghost predicate Allowed(env: Env, target: Field, at: string, st: State, move: Move) {
    match move
    case Ask(_) => true
    case LeaveOpen(_) => true
    case OmitLeaf => target.nullable
    case Copy(c, path) => AssignField(env, FieldRef(at, target), st.used) == Mapped(c) && Parse(c.source) == Ok(path)
    case MapEach(c, path, fields, nested) =>
      && AssignField(env, FieldRef(at, target), st.used) == Mapped(c) && Parse(c.source) == Ok(path)
      && FindSource(env.sources, c.source).Some? && FindSource(env.sources, c.source).value.ty.ListType?
      && target.ty.ListType? && target.ty.element.RecordType?
      && ElementPlan(FindSource(env.sources, c.source).value.ty.element, target.ty.element, env.options, fields, nested)
  }

  ghost predicate ElementPlan(source: Type, target: Type, options: Options, fields: IndexMap<Expr>, nested: seq<ExplainEntry>) {
    && source.RecordType? && target.RecordType?
    && var planned := PlanSchemas(source, target, options);
       && planned.Ok? && planned.value.Ready? && planned.value.explanation == nested
       && planned.value.plan.operations != [] && planned.value.plan.operations[0].MapOp?
       && planned.value.plan.operations[0].fields == fields
  }

  lemma LeafMove(env: Env, target: Field, at: string, st: State) returns (move: Move)
    requires BuildLeaf(env, target, at, st).Ok?
    ensures Allowed(env, target, at, st, move) && BuildLeaf(env, target, at, st).value == Made(st, at, move)
  {
    match AssignField(env, FieldRef(at, target), st.used)
    case Ambiguous(candidates) => move := Ask(candidates);
    case Missing => move := if target.nullable then OmitLeaf else LeaveOpen([]);
    case Mapped(c) =>
      if target.ty.ListType? {
        move := ListMove(env, target, at, st, c);
      } else {
        move := Copy(c, Parse(c.source).value);
      }
  }

  lemma ListMove(env: Env, target: Field, at: string, st: State, c: Candidate) returns (move: Move)
    requires target.ty.ListType? && BuildList(env, target, at, st, c).Ok?
    requires AssignField(env, FieldRef(at, target), st.used) == Mapped(c)
    ensures Allowed(env, target, at, st, move) && BuildList(env, target, at, st, c).value == Made(st, at, move)
  {
    move := LeaveOpen([c]);
    var found := FindSource(env.sources, c.source);
    if found.Some? {
      var from := found.value;
      if (from.nullable && !target.nullable) || (from.ty.elementNullable && !target.ty.elementNullable) {
      } else if from.ty.element == target.ty.element {
        move := Copy(c, Parse(c.source).value);
      } else if from.ty.element.RecordType? && target.ty.element.RecordType? {
        var nested := PlanSchemas(from.ty.element, target.ty.element, env.options);
        if nested.value.Ready? {
          move := MapEach(c, Parse(c.source).value, nested.value.plan.operations[0].fields, nested.value.explanation);
        }
      }
    }
  }

  // ---------------------------------------------------------------------
  // Counting decisions.
  // ---------------------------------------------------------------------

  function EntriesFor(entries: seq<ExplainEntry>, path: string): nat {
    if entries == [] then 0 else
      var last := entries[|entries| - 1];
      EntriesFor(entries[..|entries| - 1], path) + (if last.target == path && last.action != NoMapping then 1 else 0)
  }

  function OpenFor(unresolved: seq<Unresolved>, path: string): nat {
    if unresolved == [] then 0 else
      OpenFor(unresolved[..|unresolved| - 1], path) + (if unresolved[|unresolved| - 1].target == path then 1 else 0)
  }

  // How often a path was mapped, omitted or left unresolved.
  function Decisions(st: State, path: string): nat {
    EntriesFor(st.explanation, path) + OpenFor(st.unresolved, path)
  }

  function LeavesAt(leaves: seq<FieldRef>, path: string): nat {
    if leaves == [] then 0 else
      LeavesAt(leaves[..|leaves| - 1], path) + (if leaves[|leaves| - 1].path == path then 1 else 0)
  }

  lemma {:induction false} LeavesAtAppend(a: seq<FieldRef>, b: seq<FieldRef>, path: string)
    ensures LeavesAt(a + b, path) == LeavesAt(a, path) + LeavesAt(b, path)
  {
    if b == [] {
      assert a + b == a;
    } else {
      assert (a + b)[..|a + b| - 1] == a + b[..|b| - 1];
      LeavesAtAppend(a, b[..|b| - 1], path);
    }
  }

  lemma Explained(st: State, entry: ExplainEntry, path: string)
    ensures Decisions(PushExplanation(st, entry), path)
         == Decisions(st, path) + if entry.target == path && entry.action != NoMapping then 1 else 0
  {
    assert (st.explanation + [entry])[..|st.explanation|] == st.explanation;
  }

  lemma LeftOpen(st: State, target: string, candidates: seq<Candidate>, path: string)
    ensures Decisions(PushUnresolved(st, target, candidates), path) == Decisions(st, path) + if target == path then 1 else 0
  {
    assert (st.unresolved + [Unresolved(target, candidates)])[..|st.unresolved|] == st.unresolved;
  }

  // Element entries speak of paths inside a list.
  predicate Plain(path: string) {
    '[' !in path
  }

  lemma ElementNotPlain(target: string, entry: string)
    ensures !Plain(target + "[]." + entry)
  {
    assert (target + "[]." + entry)[|target|] == '[';
  }

  lemma {:induction false} ElementsUncounted(st: State, target: string, source: string, entries: seq<ExplainEntry>, path: string)
    requires Plain(path)
    ensures Decisions(PushElementEntries(st, target, source, entries), path) == Decisions(st, path)
  {
    if entries != [] {
      var n := |entries| - 1;
      ElementsUncounted(st, target, source, entries[..n], path);
      ElementNotPlain(target, entries[n].target);
      Explained(PushElementEntries(st, target, source, entries[..n]), ElementEntry(target, source, entries[n]), path);
    }
  }

  lemma AcceptedOnce(st: State, target: string, c: Candidate, nested: seq<ExplainEntry>, path: string)
    requires Plain(path)
    ensures Decisions(AcceptLeaf(st, target, c), path) == Decisions(AcceptListMap(st, target, c, nested), path)
         == Decisions(st, path) + if target == path then 1 else 0
  {
    var used := UseSource(st, c.source);
    var head := ExplainEntry(target, Some(c.source), c.score, [CardinalityPreserving], MapElements);
    Explained(used, ExplainEntry(target, Some(c.source), c.score, c.reasons, MapLeaf), path);
    Explained(used, head, path);
    ElementsUncounted(PushExplanation(used, head), target, c.source, nested, path);
  }

  lemma LeafDecided(env: Env, target: Field, at: string, st: State, path: string)
    requires BuildLeaf(env, target, at, st).Ok? && Plain(path)
    ensures Decisions(BuildLeaf(env, target, at, st).value.1, path) == Decisions(st, path) + if at == path then 1 else 0
  {
    var move := LeafMove(env, target, at, st);
    MadeDecides(st, at, move, path);
  }

  lemma MadeDecides(st: State, at: string, move: Move, path: string)
    requires Plain(path)
    ensures Decisions(Made(st, at, move).1, path) == Decisions(st, path) + if at == path then 1 else 0
  {
    match move
    case Ask(candidates) =>
      LeftOpen(st, at, candidates, path);
      Explained(PushUnresolved(st, at, candidates), ExplainEntry(at, None, 0.0, [AmbiguousReason], NoMapping), path);
    case LeaveOpen(candidates) => LeftOpen(st, at, candidates, path);
    case OmitLeaf => Explained(st, ExplainEntry(at, None, 0.0, [OptionalUnmatched], Omit), path);
    case Copy(c, _) => AcceptedOnce(st, at, c, [], path);
    case MapEach(c, _, _, nested) => AcceptedOnce(st, at, c, nested, path);
  }

  // The build decides each path as often as it is a leaf of the target.
  lemma {:induction false} BuildDecides(env: Env, targets: seq<Field>, prefix: string, st: State, path: string)
    requires BuildFields(env, targets, prefix, st).Ok? && Plain(path)
    ensures Decisions(BuildFields(env, targets, prefix, st).value.1, path)
         == Decisions(st, path) + LeavesAt(CollectSources(targets, prefix), path)
    decreases targets
  {
    if targets != [] {
      var n := |targets| - 1;
      var target := targets[n];
      var at := JoinPath(prefix, target.name);
      BuildDecides(env, targets[..n], prefix, st, path);
      var before := BuildFields(env, targets[..n], prefix, st).value.1;
      var front := CollectSources(targets[..n], prefix);
      if target.ty.RecordType? {
        BuildDecides(env, target.ty.fields, at, before, path);
        LeavesAtAppend(front, CollectSources(target.ty.fields, at), path);
      } else {
        LeafDecided(env, target, at, before, path);
        LeavesAtAppend(front, [FieldRef(at, target)], path);
        assert LeavesAt([FieldRef(at, target)], path) == if at == path then 1 else 0;
      }
    }
  }

  // ---------------------------------------------------------------------
  // Leaf paths are distinct.
  // ---------------------------------------------------------------------

  lemma {:induction false} LeafWitness(leaves: seq<FieldRef>, path: string) returns (leaf: FieldRef)
    requires LeavesAt(leaves, path) > 0
    ensures leaf in leaves && leaf.path == path
  {
    var last := leaves[|leaves| - 1];
    if last.path == path {
      leaf := last;
    } else {
      leaf := LeafWitness(leaves[..|leaves| - 1], path);
    }
  }

  lemma {:induction false} LeafCounted(leaves: seq<FieldRef>, leaf: FieldRef)
    requires leaf in leaves
    ensures LeavesAt(leaves, leaf.path) > 0
  {
    if leaves[|leaves| - 1] != leaf {
      LeafCounted(leaves[..|leaves| - 1], leaf);
    }
  }

  lemma PathsApart(prefix: seq<string>, x: seq<string>, y: seq<string>)
    requires AllIdents(prefix) && AllIdents(x) && AllIdents(y) && x != [] && y != [] && x[0] != y[0]
    ensures JoinNames(prefix + x) != JoinNames(prefix + y)
  {
    assert (prefix + x)[|prefix|] == x[0];
    assert (prefix + y)[|prefix|] == y[0];
    if JoinNames(prefix + x) == JoinNames(prefix + y) {
      JoinNamesInjective(prefix + x, prefix + y);
    }
  }

  // Leaves under different names of one record have different paths.
  lemma LeavesApart(fields: seq<Field>, n: nat, prefix: seq<string>, a: FieldRef, b: FieldRef)
    requires WellNamedFields(fields) && n < |fields| && AllIdents(prefix)
    requires a in CollectSources(fields[..n], JoinNames(prefix))
    requires b in CollectSources([fields[n]], JoinNames(prefix))
    ensures a.path != b.path
  {
    WellNamedPrefix(fields, n);
    assert WellNamedFields([fields[n]]);
    var front := fields[..n];
    var x := CollectedLeaf(front, prefix, a);
    var y := CollectedLeaf([fields[n]], prefix, b);
    var k :| 0 <= k < n && front[k].name == x[0];
    assert fields[k].name == x[0];
    assert y[0] == [fields[n]][0].name;
    PathsApart(prefix, x, y);
  }

  lemma OneField(f: Field, prefix: string)
    ensures CollectSources([f], prefix) == LeavesOf(f, prefix)
  {
    var one := [f];
    assert one[..|one| - 1] == [];
    assert CollectSources(one[..|one| - 1], prefix) == [];
  }

  // The leaves before a field and its own leaves share no path.
  lemma NotInBoth(fields: seq<Field>, n: nat, prefix: seq<string>, path: string)
    requires WellNamedFields(fields) && n < |fields| && AllIdents(prefix)
    ensures LeavesAt(CollectSources(fields[..n], JoinNames(prefix)), path) == 0
         || LeavesAt(LeavesOf(fields[n], JoinNames(prefix)), path) == 0
  {
    var front := CollectSources(fields[..n], JoinNames(prefix));
    var own := LeavesOf(fields[n], JoinNames(prefix));
    OneField(fields[n], JoinNames(prefix));
    if LeavesAt(front, path) > 0 && LeavesAt(own, path) > 0 {
      var a := LeafWitness(front, path);
      var b := LeafWitness(own, path);
      LeavesApart(fields, n, prefix, a, b);
    }
  }

  lemma {:induction false} LeafPathsDistinct(fields: seq<Field>, prefix: seq<string>, path: string)
    requires WellNamedFields(fields) && AllIdents(prefix)
    ensures LeavesAt(CollectSources(fields, JoinNames(prefix)), path) <= 1
    decreases fields
  {
    if fields != [] {
      var n := |fields| - 1;
      var last := fields[n];
      var front, own := CollectSources(fields[..n], JoinNames(prefix)), LeavesOf(last, JoinNames(prefix));
      WellNamedPrefix(fields, n);
      LeafPathsDistinct(fields[..n], prefix, path);
      LeavesAtAppend(front, own, path);
      NotInBoth(fields, n, prefix, path);
      if last.ty.RecordType? {
        assert WellNamed(last.ty);
        JoinDeeper(prefix, last.name);
        LeafPathsDistinct(last.ty.fields, prefix + [last.name], path);
      } else {
        assert own[..0] == [];
      }
    }
  }

  // ---------------------------------------------------------------------
  // Decisions are justified.
  // ---------------------------------------------------------------------

  // The entry records the candidate selected for this leaf when these
  // sources had been used.
  ghost predicate Chosen(env: Env, leaf: FieldRef, used: seq<string>, entry: ExplainEntry) {
    && AssignField(env, leaf, used).Mapped?
    && var c := AssignField(env, leaf, used).candidate;
       entry.source == Some(c.source) && entry.score == c.score
  }

  // Omitted leaves are nullable; mapped leaves took the candidate selected at
  // their turn, which no earlier target of the scope had used.
  ghost predicate Justified(env: Env, leaves: seq<FieldRef>, used: seq<string>, entry: ExplainEntry) {
    match entry.action
    case NoMapping => true
    case Omit => exists leaf :: leaf in leaves && leaf.path == entry.target && leaf.field.nullable
    case _ => exists leaf, n :: leaf in leaves && leaf.path == entry.target && 0 <= n < |used|
                                && entry.source == Some(used[n]) && Chosen(env, leaf, used[..n], entry)
  }

  // Everything the state says about plain paths since the given point.
  ghost predicate AllJustified(env: Env, leaves: seq<FieldRef>, before: State, after: State) {
    && before.used <= after.used
    && forall e :: e in after.explanation && Plain(e.target) && e !in before.explanation ==> Justified(env, leaves, after.used, e)
  }

  lemma JustifiedLater(env: Env, leaves: seq<FieldRef>, more: seq<FieldRef>, used: seq<string>, later: seq<string>, entry: ExplainEntry)
    requires Justified(env, leaves, used, entry) && used <= later && (forall leaf :: leaf in leaves ==> leaf in more)
    ensures Justified(env, more, later, entry)
  {
    if entry.action.MapLeaf? || entry.action.MapElements? {
      var leaf, n :| leaf in leaves && leaf.path == entry.target && 0 <= n < |used|
                     && entry.source == Some(used[n]) && Chosen(env, leaf, used[..n], entry);
      assert later[..n] == used[..n] && later[n] == used[n];
    }
  }

  lemma JustifiedSteps(env: Env, a: seq<FieldRef>, b: seq<FieldRef>, st: State, mid: State, after: State)
    requires AllJustified(env, a, st, mid) && AllJustified(env, b, mid, after)
    ensures AllJustified(env, a + b, st, after)
  {
    forall e | e in after.explanation && Plain(e.target) && e !in st.explanation ensures Justified(env, a + b, after.used, e) {
      if e in mid.explanation {
        JustifiedLater(env, a, a + b, mid.used, after.used, e);
      } else {
        JustifiedLater(env, b, a + b, after.used, after.used, e);
      }
    }
  }

  lemma {:induction false} ElementsAdd(st: State, target: string, source: string, entries: seq<ExplainEntry>, e: ExplainEntry)
    requires e in PushElementEntries(st, target, source, entries).explanation && Plain(e.target)
    ensures e in st.explanation
  {
    if entries != [] {
      var n := |entries| - 1;
      ElementNotPlain(target, entries[n].target);
      ElementsAdd(st, target, source, entries[..n], e);
    }
  }

  lemma AcceptJustified(env: Env, target: Field, at: string, st: State, c: Candidate, nested: seq<ExplainEntry>)
    requires AssignField(env, FieldRef(at, target), st.used) == Mapped(c)
    ensures AllJustified(env, [FieldRef(at, target)], st, AcceptLeaf(st, at, c))
    ensures AllJustified(env, [FieldRef(at, target)], st, AcceptListMap(st, at, c, nested))
  {
    var leaf := FieldRef(at, target);
    var used := st.used + [c.source];
    var n := |st.used|;
    var plain := ExplainEntry(at, Some(c.source), c.score, c.reasons, MapLeaf);
    var head := ExplainEntry(at, Some(c.source), c.score, [CardinalityPreserving], MapElements);
    AcceptKeepsUnresolved(st, at, c, nested);
    assert used[..n] == st.used && used[n] == c.source;
    assert leaf in [leaf];
    assert Chosen(env, leaf, used[..n], plain) && Chosen(env, leaf, used[..n], head);
    assert Justified(env, [leaf], used, plain) && Justified(env, [leaf], used, head);
    var after := AcceptListMap(st, at, c, nested);
    forall e | e in after.explanation && Plain(e.target) && e !in st.explanation ensures Justified(env, [leaf], used, e) {
      ElementsAdd(PushExplanation(UseSource(st, c.source), head), at, c.source, nested, e);
    }
  }

  lemma NullableJustified(env: Env, target: Field, at: string, st: State)
    ensures AllJustified(env, [FieldRef(at, target)], st, NoSource(st, target, at))
  {
    assert FieldRef(at, target) in [FieldRef(at, target)];
  }

  lemma LeafJustified(env: Env, target: Field, at: string, st: State)
    requires BuildLeaf(env, target, at, st).Ok?
    ensures AllJustified(env, [FieldRef(at, target)], st, BuildLeaf(env, target, at, st).value.1)
  {
    var move := LeafMove(env, target, at, st);
    match move
    case Ask(_) =>
    case LeaveOpen(_) =>
    case OmitLeaf => NullableJustified(env, target, at, st);
    case Copy(c, _) => AcceptJustified(env, target, at, st, c, []);
    case MapEach(c, _, _, nested) => AcceptJustified(env, target, at, st, c, nested);
  }

  lemma {:induction false} BuildJustified(env: Env, targets: seq<Field>, prefix: string, st: State)
    requires BuildFields(env, targets, prefix, st).Ok?
    ensures AllJustified(env, CollectSources(targets, prefix), st, BuildFields(env, targets, prefix, st).value.1)
    decreases targets
  {
    if targets != [] {
      var n := |targets| - 1;
      var target := targets[n];
      var at := JoinPath(prefix, target.name);
      BuildJustified(env, targets[..n], prefix, st);
      var before := BuildFields(env, targets[..n], prefix, st).value.1;
      var front, after := CollectSources(targets[..n], prefix), BuildFields(env, targets, prefix, st).value.1;
      if target.ty.RecordType? {
        BuildJustified(env, target.ty.fields, at, before);
        JustifiedSteps(env, front, CollectSources(target.ty.fields, at), st, before, after);
      } else {
        LeafJustified(env, target, at, before);
        JustifiedSteps(env, front, [FieldRef(at, target)], st, before, after);
      }
    }
  }

  // ---------------------------------------------------------------------
  // Sources are used once per scope.
  // ---------------------------------------------------------------------

  // The sources an expression reads in its own scope; the item of a list map
  // is a scope of its own.
  function ExprUses(expr: Expr): seq<string>
    decreases expr
  {
    match expr
    case FieldExpr(path) => [Render(path)]
    case ListMapExpr(input, _) => [Render(input)]
    case ObjectExpr(fields) => FieldUses(fields)
    case _ => []
  }

  function FieldUses(exprs: IndexMap<Expr>): seq<string>
    decreases exprs
  {
    if exprs == [] then [] else FieldUses(exprs[..|exprs| - 1]) + ExprUses(exprs[|exprs| - 1].value)
  }

  lemma {:induction false} BuiltKeys(env: Env, targets: seq<Field>, prefix: string, st: State, key: string)
    requires BuildFields(env, targets, prefix, st).Ok?
    requires forall k :: 0 <= k < |targets| ==> targets[k].name != key
    ensures !HasKey(BuildFields(env, targets, prefix, st).value.0, key)
    decreases |targets|
  {
    if targets != [] {
      BuiltKeys(env, targets[..|targets| - 1], prefix, st, key);
      InsertedKeys(env, targets, prefix, st, key);
    }
  }

  lemma InsertedKeys(env: Env, targets: seq<Field>, prefix: string, st: State, key: string)
    requires targets != [] && BuildFields(env, targets, prefix, st).Ok? && key != targets[|targets| - 1].name
    ensures HasKey(BuildFields(env, targets, prefix, st).value.0, key)
        <==> HasKey(BuildFields(env, targets[..|targets| - 1], prefix, st).value.0, key)
  {
    var n := |targets| - 1;
    var target := targets[n];
    var at := JoinPath(prefix, target.name);
    var (exprs, before) := BuildFields(env, targets[..n], prefix, st).value;
    if target.ty.RecordType? {
      GetInsert(exprs, target.name, ObjectExpr(BuildFields(env, target.ty.fields, at, before).value.0), key);
    } else {
      var leaf := BuildLeaf(env, target, at, before).value.0;
      if leaf.Some? {
        GetInsert(exprs, target.name, leaf.value, key);
      }
    }
  }

  // With distinct target names, each new expression goes to the end.
  lemma BuiltFresh(env: Env, targets: seq<Field>, prefix: string, st: State, expr: Expr)
    requires targets != [] && UniqueNames(targets) && BuildFields(env, targets[..|targets| - 1], prefix, st).Ok?
    ensures var exprs := BuildFields(env, targets[..|targets| - 1], prefix, st).value.0;
            var name := targets[|targets| - 1].name;
            !HasKey(exprs, name) && Insert(exprs, name, expr) == exprs + [Entry(name, expr)]
  {
    var n := |targets| - 1;
    var exprs := BuildFields(env, targets[..n], prefix, st).value.0;
    BuiltKeys(env, targets[..n], prefix, st, targets[n].name);
    InsertFresh(exprs, targets[n].name, expr);
  }

  lemma UsesSnoc(exprs: IndexMap<Expr>, name: string, expr: Expr)
    ensures FieldUses(exprs + [Entry(name, expr)]) == FieldUses(exprs) + ExprUses(expr)
  {
    assert (exprs + [Entry(name, expr)])[..|exprs|] == exprs;
  }

  ghost predicate LeafUse(st: State, built: (Option<Expr>, State)) {
    match built.0
    case None => built.1.used == st.used
    case Some(expr) => |ExprUses(expr)| == 1 && built.1.used == st.used + ExprUses(expr) && ExprUses(expr)[0] !in st.used
  }

  lemma LeafUses(env: Env, source: seq<Field>, target: Field, at: string, st: State)
    requires ScopeOf(env, source) && BuildLeaf(env, target, at, st).Ok?
    ensures LeafUse(st, BuildLeaf(env, target, at, st).value)
  {
    var move := LeafMove(env, target, at, st);
    if move.Copy? || move.MapEach? {
      var leaf := CandidateReads(env, source, FieldRef(at, target), st.used);
      AcceptKeepsUnresolved(st, at, move.c, if move.MapEach? then move.nested else []);
    }
  }

  lemma {:induction false} BuildUses(env: Env, source: seq<Field>, targets: seq<Field>, prefix: string, st: State)
    requires ScopeOf(env, source) && WellNamedFields(targets)
    requires BuildFields(env, targets, prefix, st).Ok?
    ensures var (exprs, after) := BuildFields(env, targets, prefix, st).value;
            after.used == st.used + FieldUses(exprs) && (Distinct(st.used) ==> Distinct(after.used))
    decreases targets
  {
    if targets != [] {
      var n := |targets| - 1;
      var target := targets[n];
      var at := JoinPath(prefix, target.name);
      WellNamedPrefix(targets, n);
      BuildUses(env, source, targets[..n], prefix, st);
      var before := BuildFields(env, targets[..n], prefix, st).value.1;
      if target.ty.RecordType? {
        assert WellNamed(target.ty);
        BuildUses(env, source, target.ty.fields, at, before);
        var (nested, after) := BuildFields(env, target.ty.fields, at, before).value;
        BuiltFresh(env, targets, prefix, st, ObjectExpr(nested));
        UsesGrow(st, before, after, BuildFields(env, targets[..n], prefix, st).value.0, target.name, ObjectExpr(nested));
      } else {
        LeafUses(env, source, target, at, before);
        var (leaf, after) := BuildLeaf(env, target, at, before).value;
        if leaf.Some? {
          BuiltFresh(env, targets, prefix, st, leaf.value);
          UsesGrow(st, before, after, BuildFields(env, targets[..n], prefix, st).value.0, target.name, leaf.value);
          UseDistinct(before, leaf.value);
        }
      }
    }
  }

  lemma UsesGrow(st: State, before: State, after: State, exprs: IndexMap<Expr>, name: string, expr: Expr)
    requires before.used == st.used + FieldUses(exprs) && after.used == before.used + ExprUses(expr)
    ensures after.used == st.used + FieldUses(exprs + [Entry(name, expr)])
  {
    UsesSnoc(exprs, name, expr);
  }

  lemma UseDistinct(st: State, expr: Expr)
    requires |ExprUses(expr)| == 1 && ExprUses(expr)[0] !in st.used
    ensures Distinct(st.used) ==> Distinct(st.used + ExprUses(expr))
  {
  }

  // ---------------------------------------------------------------------
  // The whole build.
  // ---------------------------------------------------------------------

  // Each target leaf is mapped, omitted or unresolved exactly once; omitted
  // leaves are nullable; mapped leaves hold the candidate selected at their
  // turn; and no source is used twice, all in the order of the targets.
  lemma TargetCoverage(env: Env, source: seq<Field>, targets: seq<Field>)
    requires ScopeOf(env, source) && WellNamedFields(targets)
    requires BuildFields(env, targets, "", EMPTY).Ok?
    ensures var (exprs, st) := BuildFields(env, targets, "", EMPTY).value;
            var leaves := CollectSources(targets, "");
            && (forall leaf :: leaf in leaves ==> Decisions(st, leaf.path) == 1)
            && (forall path :: Plain(path) && Decisions(st, path) > 0 ==> exists leaf :: leaf in leaves && leaf.path == path)
            && (forall e :: e in st.explanation && Plain(e.target) ==> Justified(env, leaves, st.used, e))
            && st.used == FieldUses(exprs) && Distinct(FieldUses(exprs))
  {
    var (exprs, st) := BuildFields(env, targets, "", EMPTY).value;
    var leaves := CollectSources(targets, "");
    forall leaf | leaf in leaves ensures Decisions(st, leaf.path) == 1 {
      var names := LeafNames(targets, leaf);
      JoinedPlain(names);
      BuildDecides(env, targets, "", EMPTY, leaf.path);
      LeafCounted(leaves, leaf);
      LeafPathsDistinct(targets, [], leaf.path);
    }
    forall path | Plain(path) && Decisions(st, path) > 0 ensures exists leaf :: leaf in leaves && leaf.path == path {
      BuildDecides(env, targets, "", EMPTY, path);
      var leaf := LeafWitness(leaves, path);
    }
    BuildJustified(env, targets, "", EMPTY);
    BuildUses(env, source, targets, "", EMPTY);
    assert [] + FieldUses(exprs) == FieldUses(exprs);
  }

  lemma {:induction false} JoinedPlain(names: seq<string>)
    requires AllIdents(names)
    ensures Plain(JoinNames(names))
  {
    if names != [] {
      var n := |names| - 1;
      assert AllIdents(names[..n]);
      JoinedPlain(names[..n]);
      IdentPlain(names[n]);
    }
  }

  lemma IdentPlain(name: string)
    requires IsIdent(name)
    ensures Plain(name)
  {
    forall i | 0 <= i < |name| ensures name[i] != '[' {
    }
  }
}
