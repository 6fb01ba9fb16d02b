// The plan does not depend on the order of the source leaves: the same sources
// are chosen, the same expressions built and the same explanation recorded.
module PlannerOrder {
  import opened Results
  import opened IndexMaps
  import opened Paths
  import opened Schemas
  import opened Plans
  import opened Planner
  import opened Bags
  import opened PlannerSelection
  import opened SourceLeaves

  // Equal up to the listing order of tied candidates of unresolved targets.
  ghost predicate SameUnresolved(a: seq<Unresolved>, b: seq<Unresolved>) {
    && |a| == |b|
    && forall i :: 0 <= i < |a| ==> a[i].target == b[i].target && multiset(a[i].candidates) == multiset(b[i].candidates)
  }

  ghost predicate SameState(a: State, b: State) {
    a.used == b.used && a.explanation == b.explanation && SameUnresolved(a.unresolved, b.unresolved)
  }

  ghost predicate SameBuild<T>(a: Result<(T, State)>, b: Result<(T, State)>) {
    match (a, b)
    case (Ok(x), Ok(y)) => x.0 == y.0 && SameState(x.1, y.1)
    case (Err(e), Err(f)) => e == f
    case _ => false
  }

  ghost predicate Rearranged(a: Env, b: Env) {
    && multiset(a.sources) == multiset(b.sources) && a.options == b.options
    && GapTest(a.options.tooClose) && Functional(a.sources)
  }

  lemma FindRearranged(a: Env, b: Env, path: string)
    requires Rearranged(a, b)
    ensures FindSource(a.sources, path) == FindSource(b.sources, path)
  {
    FindSourceSound(a.sources, path);
    FindSourceSound(b.sources, path);
    var x, y := FindSource(a.sources, path), FindSource(b.sources, path);
    assert forall s :: s in a.sources <==> s in multiset(a.sources);
    assert forall s :: s in b.sources <==> s in multiset(b.sources);
    if x.Some? && y.Some? {
      assert FieldRef(path, x.value) in multiset(a.sources) && FieldRef(path, y.value) in multiset(b.sources);
      assert FieldRef(path, y.value) in a.sources;
    }
  }

  lemma PushSame(st: State, su: State, target: string, xs: seq<Candidate>, ys: seq<Candidate>)
    requires SameState(st, su) && multiset(xs) == multiset(ys)
    ensures SameState(PushUnresolved(st, target, xs), PushUnresolved(su, target, ys))
    ensures SameState(PushAmbiguous(st, target, xs), PushAmbiguous(su, target, ys))
  {
  }

  lemma AcceptSame(st: State, su: State, target: string, c: Candidate, nested: seq<ExplainEntry>)
    requires SameState(st, su)
    ensures SameState(AcceptLeaf(st, target, c), AcceptLeaf(su, target, c))
    ensures SameState(AcceptListMap(st, target, c, nested), AcceptListMap(su, target, c, nested))
  {
    var head := ExplainEntry(target, Some(c.source), c.score, [CardinalityPreserving], MapElements);
    ElementsSame(PushExplanation(UseSource(st, c.source), head), PushExplanation(UseSource(su, c.source), head), target, c.source, nested);
  }

  lemma {:induction false} ElementsSame(st: State, su: State, target: string, source: string, entries: seq<ExplainEntry>)
    requires SameState(st, su)
    ensures SameState(PushElementEntries(st, target, source, entries), PushElementEntries(su, target, source, entries))
  {
    if entries != [] {
      ElementsSame(st, su, target, source, entries[..|entries| - 1]);
    }
  }

  lemma AttachSame(nested: PlanOutcome, path: string, st: State, su: State, c: Candidate)
    requires SameState(st, su)
    ensures SameBuild(AttachListMap(nested, path, st, c), AttachListMap(nested, path, su, c))
  {
    PushSame(st, su, path, [c], [c]);
    AcceptSame(st, su, path, c, nested.explanation);
  }

  lemma RecordListSame(a: Env, b: Env, source: Type, target: Type, path: string, st: State, su: State, c: Candidate)
    requires a.options == b.options && SameState(st, su)
    ensures SameBuild(BuildRecordList(a, source, target, path, st, c), BuildRecordList(b, source, target, path, su, c))
  {
    PushSame(st, su, path, [c], [c]);
    if source.RecordType? && target.RecordType? {
      var nested := PlanSchemas(source, target, a.options);
      if nested.Ok? {
        AttachSame(nested.value, path, st, su, c);
      }
    }
  }

  lemma ListSame(a: Env, b: Env, target: Field, path: string, st: State, su: State, c: Candidate)
    requires Rearranged(a, b) && SameState(st, su) && target.ty.ListType?
    ensures SameBuild(BuildList(a, target, path, st, c), BuildList(b, target, path, su, c))
  {
    FindRearranged(a, b, c.source);
    PushSame(st, su, path, [c], [c]);
    AcceptSame(st, su, path, c, []);
    var source := FindSource(a.sources, c.source);
    if source.Some? && source.value.ty.ListType? {
      RecordListSame(a, b, source.value.ty.element, target.ty.element, path, st, su, c);
    }
  }

  lemma LeafSame(a: Env, b: Env, target: Field, path: string, st: State, su: State)
    requires Rearranged(a, b) && SameState(st, su)
    ensures SameBuild(BuildLeaf(a, target, path, st), BuildLeaf(b, target, path, su))
  {
    var leaf := FieldRef(path, target);
    AssignOrderIndependent(a, b, leaf, st.used);
    match (AssignField(a, leaf, st.used), AssignField(b, leaf, su.used))
    case (Mapped(c), Mapped(_)) =>
      AcceptSame(st, su, path, c, []);
      if target.ty.ListType? {
        ListSame(a, b, target, path, st, su, c);
      }
    case (Ambiguous(xs), Ambiguous(ys)) =>
      PushSame(st, su, path, xs, ys);
    case (Missing, Missing) =>
      PushSame(st, su, path, [], []);
  }

  lemma {:induction false} FieldsSame(a: Env, b: Env, targets: seq<Field>, prefix: string, st: State, su: State)
    requires Rearranged(a, b) && SameState(st, su)
    ensures SameBuild(BuildFields(a, targets, prefix, st), BuildFields(b, targets, prefix, su))
    decreases targets
  {
    if targets != [] {
      var front, target := targets[..|targets| - 1], targets[|targets| - 1];
      var path := JoinPath(prefix, target.name);
      FieldsSame(a, b, front, prefix, st, su);
      var x, y := BuildFields(a, front, prefix, st), BuildFields(b, front, prefix, su);
      if x.Ok? && y.Ok? {
        if target.ty.RecordType? {
          FieldsSame(a, b, target.ty.fields, path, x.value.1, y.value.1);
        } else {
          LeafSame(a, b, target, path, x.value.1, y.value.1);
        }
      }
    }
  }

  // ---------------------------------------------------------------------
  // Reordering the fields of a source schema.
  // ---------------------------------------------------------------------

  // The same fields in another order, at the top level and inside nested
  // records; lists and everything in them are untouched.
  ghost predicate Shuffled(a: seq<Field>, b: seq<Field>)
    decreases a
  {
    exists mid: seq<Field> ::
      && |mid| == |a| && multiset(mid) == multiset(b)
      && forall i :: 0 <= i < |a| ==> ShuffledField(a[i], mid[i])
  }

  ghost predicate ShuffledField(f: Field, g: Field)
    decreases f
  {
    || f == g
    || (f.ty.RecordType? && g.ty.RecordType? && g == f.(ty := RecordType(g.ty.fields)) && Shuffled(f.ty.fields, g.ty.fields))
  }

  ghost function Leaves(prefix: string): Field -> multiset<FieldRef> {
    (f: Field) => multiset(LeavesOf(f, prefix))
  }

  lemma {:induction false} CollectBag(fields: seq<Field>, prefix: string)
    ensures multiset(CollectSources(fields, prefix)) == Bag(Leaves(prefix), fields)
    decreases |fields|
  {
    if fields != [] {
      var front, last := fields[..|fields| - 1], fields[|fields| - 1];
      CollectBag(front, prefix);
      assert CollectSources(fields, prefix) == CollectSources(front, prefix) + LeavesOf(last, prefix);
    }
  }

  lemma {:induction false} CollectShuffled(a: seq<Field>, b: seq<Field>, prefix: string)
    requires Shuffled(a, b)
    ensures multiset(CollectSources(a, prefix)) == multiset(CollectSources(b, prefix))
    decreases a
  {
    var mid: seq<Field> :|
      && |mid| == |a| && multiset(mid) == multiset(b)
      && forall i :: 0 <= i < |a| ==> ShuffledField(a[i], mid[i]);
    forall i | 0 <= i < |a| ensures Leaves(prefix)(a[i]) == Leaves(prefix)(mid[i]) {
      if a[i] != mid[i] {
        CollectShuffled(a[i].ty.fields, mid[i].ty.fields, JoinPath(prefix, a[i].name));
      }
    }
    BagPointwise(Leaves(prefix), a, mid);
    BagPermute(Leaves(prefix), mid, b);
    CollectBag(a, prefix);
    CollectBag(b, prefix);
  }

  ghost predicate SameOutcome(a: Result<PlanOutcome>, b: Result<PlanOutcome>) {
    match (a, b)
    case (Ok(Ready(p, x)), Ok(Ready(q, y))) => p.operations == q.operations && x == y
    case (Ok(AmbiguousPlan(u, x)), Ok(AmbiguousPlan(v, y))) => SameUnresolved(u, v) && x == y
    case (Err(e), Err(f)) => e == f
    case _ => false
  }

  lemma FinishSame(a: Type, b: Type, target: Type, options: Options, fields: IndexMap<Expr>, st: State, su: State)
    requires SameState(st, su)
    ensures SameOutcome(FinishPlan(a, target, options, fields, st), FinishPlan(b, target, options, fields, su))
  {
  }

  lemma PlanUnfolds(source: seq<Field>, target: seq<Field>, options: Options)
    ensures PlanSchemas(RecordType(source), RecordType(target), options) ==
            match BuildFields(Env(CollectSources(source, ""), options), target, "", State([], [], []))
            case Err(e) => Err(e)
            case Ok(built) => FinishPlan(RecordType(source), RecordType(target), options, built.0, built.1)
  {
  }

  // Reordering source fields changes neither the status, nor the generated
  // expressions, nor the chosen source of any target.
  lemma SourceOrderIrrelevant(a: seq<Field>, b: seq<Field>, target: seq<Field>, options: Options)
    requires WellNamedFields(a) && Shuffled(a, b) && GapTest(options.tooClose)
    ensures SameOutcome(PlanSchemas(RecordType(a), RecordType(target), options), PlanSchemas(RecordType(b), RecordType(target), options))
  {
    var x, y, empty := Env(CollectSources(a, ""), options), Env(CollectSources(b, ""), options), State([], [], []);
    CollectShuffled(a, b, "");
    CollectFunctional(a);
    FieldsSame(x, y, target, "", empty, empty);
    PlanUnfolds(a, target, options);
    PlanUnfolds(b, target, options);
    var u, v := BuildFields(x, target, "", empty), BuildFields(y, target, "", empty);
    if u.Ok? && v.Ok? {
      FinishSame(RecordType(a), RecordType(b), RecordType(target), options, u.value.0, u.value.1, v.value.1);
    }
  }
}
