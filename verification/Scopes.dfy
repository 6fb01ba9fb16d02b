// Coverage at every scope of a plan.
module Scopes {
  import opened Results
  import opened IndexMaps
  import opened Paths
  import opened Schemas
  import opened Plans
  import opened Planner
  import opened PlannerSelection
  import opened SourceLeaves
  import opened Compiled
  import opened Coverage
  import opened Soundness
  import opened Emission

  // ---------------------------------------------------------------------
  // One scope.
  // ---------------------------------------------------------------------

  // The entry's source was unused, reaches the thresholds, and beats every
  // other source that was unused.
  ghost predicate Dominant(env: Env, leaf: FieldRef, used: seq<string>, entry: ExplainEntry, source: FieldRef) {
    && source in env.sources && source.path !in used && entry.source == Some(source.path)
    && Score(source, leaf, env.options.mode).Some?
    && var c := Score(source, leaf, env.options.mode).value;
       && entry.score == c.score && c.score >= env.options.ambiguity
       && (env.options.mode == Strict ==> c.score >= env.options.autoAccept)
       && forall other :: other in env.sources && other.path !in used && other != source
            && Score(other, leaf, env.options.mode).Some?
            ==> Beaten(c, Score(other, leaf, env.options.mode).value, env.options)
  }

  ghost predicate EntryGrounded(env: Env, leaves: seq<FieldRef>, uses: seq<string>, entry: ExplainEntry) {
    match entry.action
    case NoMapping => true
    case Omit => exists leaf :: leaf in leaves && leaf.path == entry.target && leaf.field.nullable
    case _ => exists leaf, n, source :: leaf in leaves && leaf.path == entry.target && 0 <= n < |uses|
                                        && entry.source == Some(uses[n]) && Dominant(env, leaf, uses[..n], entry, source)
  }

  // Every leaf of the scope is decided once, nothing else is, the decisions
  // are grounded, and no source is read twice.
  ghost predicate ScopeDecided(env: Env, targets: seq<Field>, exprs: IndexMap<Expr>, explanation: seq<ExplainEntry>) {
    var leaves, uses := CollectSources(targets, ""), FieldUses(exprs);
    && Distinct(uses)
    && (forall leaf :: leaf in leaves ==> EntriesFor(explanation, leaf.path) == 1)
    && (forall path :: Plain(path) && EntriesFor(explanation, path) > 0 ==> exists leaf :: leaf in leaves && leaf.path == path)
    && (forall e :: e in explanation && Plain(e.target) ==> EntryGrounded(env, leaves, uses, e))
  }

  lemma JustifiedGrounded(env: Env, leaves: seq<FieldRef>, used: seq<string>, entry: ExplainEntry)
    requires Justified(env, leaves, used, entry) && GapTest(env.options.tooClose)
    ensures EntryGrounded(env, leaves, used, entry)
  {
    if entry.action.MapLeaf? || entry.action.MapElements? {
      var leaf, n :| leaf in leaves && leaf.path == entry.target && 0 <= n < |used|
                     && entry.source == Some(used[n]) && Chosen(env, leaf, used[..n], entry);
      var source := MappedDominates(env, leaf, used[..n]);
      assert Dominant(env, leaf, used[..n], entry, source);
    }
  }

  lemma BuildDecided(env: Env, source: seq<Field>, targets: seq<Field>)
    requires ScopeOf(env, source) && WellNamedFields(targets) && GapTest(env.options.tooClose)
    requires BuildFields(env, targets, "", EMPTY).Ok? && BuildFields(env, targets, "", EMPTY).value.1.unresolved == []
    ensures var (exprs, st) := BuildFields(env, targets, "", EMPTY).value; ScopeDecided(env, targets, exprs, st.explanation)
  {
    TargetCoverage(env, source, targets);
    var (exprs, st) := BuildFields(env, targets, "", EMPTY).value;
    forall path ensures Decisions(st, path) == EntriesFor(st.explanation, path) {
    }
    forall e | e in st.explanation && Plain(e.target) ensures EntryGrounded(env, CollectSources(targets, ""), FieldUses(exprs), e) {
      JustifiedGrounded(env, CollectSources(targets, ""), st.used, e);
    }
  }

  // ---------------------------------------------------------------------
  // All scopes.
  // ---------------------------------------------------------------------

  // The entries of an element mapping appear with the list's paths in front.
  predicate Recorded(path: string, source: string, nested: seq<ExplainEntry>, explanation: seq<ExplainEntry>) {
    forall e :: e in nested ==> ElementEntry(path, source, e) in explanation
  }

  // The scope is decided, and so is the scope of every list map it contains.
  ghost predicate ScopeCovered(source: seq<Field>, targets: seq<Field>, options: Options, exprs: IndexMap<Expr>, explanation: seq<ExplainEntry>)
    decreases targets, 1
  {
    && ScopeDecided(Env(CollectSources(source, ""), options), targets, exprs, explanation)
    && ItemsCovered(source, targets, "", options, exprs, explanation)
  }

  ghost predicate ItemsCovered(source: seq<Field>, targets: seq<Field>, prefix: string, options: Options, exprs: IndexMap<Expr>, explanation: seq<ExplainEntry>)
    decreases targets, 0
  {
    forall k, i :: 0 <= k < |targets| && 0 <= i < |exprs| && targets[k].name == exprs[i].key ==>
      ItemCovered(source, targets[k], JoinPath(prefix, targets[k].name), options, exprs[i].value, explanation)
  }

  ghost predicate ItemCovered(source: seq<Field>, target: Field, path: string, options: Options, expr: Expr, explanation: seq<ExplainEntry>)
    decreases target
  {
    if target.ty.RecordType? then
      expr.ObjectExpr? && ItemsCovered(source, target.ty.fields, path, options, expr.fields, explanation)
    else if expr.ListMapExpr? then
      && expr.item.ObjectExpr? && target.ty.ListType? && target.ty.element.RecordType?
      && LeafAt(source, expr.input).Some?
      && var from := LeafAt(source, expr.input).value.ty;
         && from.ListType? && from.element.RecordType?
         && exists nested :: Recorded(path, Render(expr.input), nested, explanation)
              && ScopeCovered(from.element.fields, target.ty.element.fields, options, expr.item.fields, nested)
    else expr.FieldExpr?
  }

  predicate Grows(less: seq<ExplainEntry>, more: seq<ExplainEntry>) {
    forall e :: e in less ==> e in more
  }

  lemma {:induction false} ItemsGrow(source: seq<Field>, targets: seq<Field>, prefix: string, options: Options, exprs: IndexMap<Expr>, less: seq<ExplainEntry>, more: seq<ExplainEntry>)
    requires ItemsCovered(source, targets, prefix, options, exprs, less) && Grows(less, more)
    ensures ItemsCovered(source, targets, prefix, options, exprs, more)
    decreases targets
  {
    forall k, i | 0 <= k < |targets| && 0 <= i < |exprs| && targets[k].name == exprs[i].key
      ensures ItemCovered(source, targets[k], JoinPath(prefix, targets[k].name), options, exprs[i].value, more)
    {
      ItemGrows(source, targets[k], JoinPath(prefix, targets[k].name), options, exprs[i].value, less, more);
    }
  }

  lemma {:induction false} ItemGrows(source: seq<Field>, target: Field, path: string, options: Options, expr: Expr, less: seq<ExplainEntry>, more: seq<ExplainEntry>)
    requires ItemCovered(source, target, path, options, expr, less) && Grows(less, more)
    ensures ItemCovered(source, target, path, options, expr, more)
    decreases target
  {
    if target.ty.RecordType? {
      ItemsGrow(source, target.ty.fields, path, options, expr.fields, less, more);
    } else if expr.ListMapExpr? {
      var from := LeafAt(source, expr.input).value.ty;
      var nested :| Recorded(path, Render(expr.input), nested, less)
                    && ScopeCovered(from.element.fields, target.ty.element.fields, options, expr.item.fields, nested);
      assert Recorded(path, Render(expr.input), nested, more);
    }
  }

  lemma ItemsSnoc(source: seq<Field>, targets: seq<Field>, prefix: string, options: Options, exprs: IndexMap<Expr>, leaf: Option<Expr>, explanation: seq<ExplainEntry>)
    requires targets != [] && UniqueNames(targets) && !HasKey(exprs, targets[|targets| - 1].name)
    requires ItemsCovered(source, targets[..|targets| - 1], prefix, options, exprs, explanation)
    requires var target := targets[|targets| - 1];
             leaf.Some? ==> ItemCovered(source, target, JoinPath(prefix, target.name), options, leaf.value, explanation)
    ensures var target := targets[|targets| - 1];
            ItemsCovered(source, targets, prefix, options, if leaf.Some? then exprs + [Entry(target.name, leaf.value)] else exprs, explanation)
  {
    var n := |targets| - 1;
    var all := if leaf.Some? then exprs + [Entry(targets[n].name, leaf.value)] else exprs;
    forall k, i | 0 <= k < |targets| && 0 <= i < |all| && targets[k].name == all[i].key
      ensures ItemCovered(source, targets[k], JoinPath(prefix, targets[k].name), options, all[i].value, explanation)
    {
      if i < |exprs| {
        assert all[i] == exprs[i] && HasKey(exprs, exprs[i].key);
        assert targets[..n][k] == targets[k];
      }
    }
  }

  lemma {:induction false} ElementsGrow(st: State, target: string, source: string, entries: seq<ExplainEntry>)
    ensures Grows(st.explanation, PushElementEntries(st, target, source, entries).explanation)
    ensures Recorded(target, source, entries, PushElementEntries(st, target, source, entries).explanation)
  {
    if entries != [] {
      var n := |entries| - 1;
      ElementsGrow(st, target, source, entries[..n]);
      assert entries == entries[..n] + [entries[n]];
    }
  }

  lemma MoveGrows(st: State, at: string, move: Move)
    ensures Grows(st.explanation, Made(st, at, move).1.explanation)
    ensures move.MapEach? ==> Recorded(at, move.c.source, move.nested, Made(st, at, move).1.explanation)
  {
    if move.MapEach? {
      var head := ExplainEntry(at, Some(move.c.source), move.c.score, [CardinalityPreserving], MapElements);
      ElementsGrow(PushExplanation(UseSource(st, move.c.source), head), at, move.c.source, move.nested);
    }
  }

  lemma {:induction false} BuildGrows(env: Env, targets: seq<Field>, prefix: string, st: State)
    requires BuildFields(env, targets, prefix, st).Ok?
    ensures Grows(st.explanation, BuildFields(env, targets, prefix, st).value.1.explanation)
    decreases targets
  {
    if targets != [] {
      var n := |targets| - 1;
      var path := JoinPath(prefix, targets[n].name);
      BuildGrows(env, targets[..n], prefix, st);
      var before := BuildFields(env, targets[..n], prefix, st).value.1;
      if targets[n].ty.RecordType? {
        BuildGrows(env, targets[n].ty.fields, path, before);
      } else {
        var move := LeafMove(env, targets[n], path, before);
        MoveGrows(before, path, move);
      }
    }
  }

  lemma {:induction false} LeafItem(env: Env, source: seq<Field>, target: Field, path: string, st: State)
    requires ScopeOf(env, source) && WellNamed(target.ty) && !target.ty.RecordType? && GapTest(env.options.tooClose)
    requires BuildLeaf(env, target, path, st).Ok?
    ensures var (leaf, after) := BuildLeaf(env, target, path, st).value;
            && Grows(st.explanation, after.explanation)
            && (leaf.Some? ==> ItemCovered(source, target, path, env.options, leaf.value, after.explanation))
    decreases target, 0
  {
    var move := LeafMove(env, target, path, st);
    MoveGrows(st, path, move);
    if move.MapEach? {
      var from := ElementReady(env, source, target, path, st, move);
      PlanScopes(from, target.ty.element.fields, env.options);
      MappedItem(source, target, path, env.options, move.path, move.fields, move.nested, Made(st, path, move).1.explanation);
    }
  }

  lemma MappedItem(source: seq<Field>, target: Field, path: string, options: Options, input: FieldPath, fields: IndexMap<Expr>, nested: seq<ExplainEntry>, explanation: seq<ExplainEntry>)
    requires target.ty.ListType? && target.ty.element.RecordType? && LeafAt(source, input).Some?
    requires LeafAt(source, input).value.ty.ListType? && LeafAt(source, input).value.ty.element.RecordType?
    requires Recorded(path, Render(input), nested, explanation)
    requires ScopeCovered(LeafAt(source, input).value.ty.element.fields, target.ty.element.fields, options, fields, nested)
    ensures ItemCovered(source, target, path, options, ListMapExpr(input, ObjectExpr(fields)), explanation)
  {
  }

  lemma {:induction false} BuildItems(env: Env, source: seq<Field>, targets: seq<Field>, prefix: string, st: State)
    requires ScopeOf(env, source) && WellNamedFields(targets) && GapTest(env.options.tooClose)
    requires BuildFields(env, targets, prefix, st).Ok?
    ensures var (exprs, after) := BuildFields(env, targets, prefix, st).value;
            ItemsCovered(source, targets, prefix, env.options, exprs, after.explanation)
    decreases targets, 0
  {
    if targets != [] {
      var n := |targets| - 1;
      var front, target := targets[..n], targets[n];
      var path := JoinPath(prefix, target.name);
      WellNamedPrefix(targets, n);
      assert WellNamed(target.ty);
      BuildItems(env, source, front, prefix, st);
      var (exprs, before) := BuildFields(env, front, prefix, st).value;
      var after := BuildFields(env, targets, prefix, st).value.1;
      var leaf: Option<Expr> := None;
      if target.ty.RecordType? {
        BuildItems(env, source, target.ty.fields, path, before);
        BuildGrows(env, target.ty.fields, path, before);
        leaf := Some(ObjectExpr(BuildFields(env, target.ty.fields, path, before).value.0));
      } else {
        LeafItem(env, source, target, path, before);
        leaf := BuildLeaf(env, target, path, before).value.0;
      }
      ItemsGrow(source, front, prefix, env.options, exprs, before.explanation, after.explanation);
      BuiltFresh(env, targets, prefix, st, if leaf.Some? then leaf.value else ObjectExpr([]));
      ItemsSnoc(source, targets, prefix, env.options, exprs, leaf, after.explanation);
    }
  }

  // In the plan of a ready outcome, every scope is covered: at the root and in
  // each element mapping, however deep, each target leaf is decided once, the
  // chosen sources dominate, none is read twice, and the outer explanation
  // records the inner one.
  lemma {:induction false} PlanScopes(source: seq<Field>, targets: seq<Field>, options: Options)
    requires WellNamedFields(source) && WellNamedFields(targets) && GapTest(options.tooClose)
    requires PlanSchemas(RecordType(source), RecordType(targets), options).Ok?
    requires PlanSchemas(RecordType(source), RecordType(targets), options).value.Ready?
    ensures var planned := PlanSchemas(RecordType(source), RecordType(targets), options).value;
            && planned.plan.operations == [MapOp(PlanFields(planned.plan))]
            && ScopeCovered(source, targets, options, PlanFields(planned.plan), planned.explanation)
    decreases targets, 1
  {
    var env := Env(CollectSources(source, ""), options);
    BuildItems(env, source, targets, "", EMPTY);
    BuildDecided(env, source, targets);
  }
}
