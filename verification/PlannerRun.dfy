// The mapping planner, as it runs.
module PlannerRun {
  import opened Results
  import opened IndexMaps
  import opened Paths
  import opened Schemas
  import opened Plans
  import opened Planner

  class BuildContext {
    const sources: seq<FieldRef>
    const options: Options
    var usedSources: seq<string>
    var explanation: seq<ExplainEntry>
    var unresolved: seq<Unresolved>

    constructor (sources: seq<FieldRef>, options: Options)
      ensures this.sources == sources && this.options == options
      ensures Progress() == State([], [], [])
    {
      this.sources := sources;
      this.options := options;
      usedSources, explanation, unresolved := [], [], [];
    }

    function Progress(): State
      reads this
    {
      State(usedSources, explanation, unresolved)
    }

    function Scope(): Env {
      Env(sources, options)
    }

    method RecordUnresolved(target: string, candidates: seq<Candidate>)
      modifies this
      ensures Progress() == PushUnresolved(old(Progress()), target, candidates)
    {
      unresolved := unresolved + [Unresolved(target, candidates)];
    }

    method RecordAmbiguous(target: string, candidates: seq<Candidate>)
      modifies this
      ensures Progress() == PushAmbiguous(old(Progress()), target, candidates)
    {
      RecordUnresolved(target, candidates);
      explanation := explanation + [ExplainEntry(target, None, 0.0, [AmbiguousReason], NoMapping)];
    }

    method RecordMissing(target: Field, path: string)
      modifies this
      ensures Progress() == NoSource(old(Progress()), target, path)
    {
      if target.nullable {
        explanation := explanation + [ExplainEntry(path, None, 0.0, [OptionalUnmatched], Omit)];
      } else {
        RecordUnresolved(path, []);
      }
    }

    method AcceptDirect(c: Candidate, path: string) returns (r: Result<Expr>)
      modifies this
      ensures Progress() == AcceptLeaf(old(Progress()), path, c)
      ensures r == match Parse(c.source)
                   case Ok(parsed) => Ok(FieldExpr(parsed))
                   case Err(e) => Err(e)
    {
      usedSources := usedSources + [c.source];
      explanation := explanation + [ExplainEntry(path, Some(c.source), c.score, c.reasons, MapLeaf)];
      var parsed := Parse(c.source);
      r := if parsed.Ok? then Ok(FieldExpr(parsed.value)) else Err(parsed.error);
    }

    method RecordElementEntries(target: string, source: string, entries: seq<ExplainEntry>)
      modifies this
      ensures Progress() == PushElementEntries(old(Progress()), target, source, entries)
    {
      for i := 0 to |entries|
        invariant Progress() == PushElementEntries(old(Progress()), target, source, entries[..i])
      {
        assert entries[..i + 1][..i] == entries[..i];
        explanation := explanation + [ElementEntry(target, source, entries[i])];
      }
      assert entries[..|entries|] == entries;
    }

    // A failing prefix of targets decides the whole build.
    lemma {:induction false} BuildFails(env: Env, targets: seq<Field>, prefix: string, st: State, n: nat)
      requires n <= |targets| && BuildFields(env, targets[..n], prefix, st).Err?
      ensures BuildFields(env, targets, prefix, st) == Err(BuildFields(env, targets[..n], prefix, st).error)
      decreases |targets|
    {
      if n < |targets| {
        var front := targets[..|targets| - 1];
        assert front[..n] == targets[..n];
        BuildFails(env, front, prefix, st, n);
      } else {
        assert targets[..n] == targets;
      }
    }

    method BuildTargetFields(targets: seq<Field>, prefix: string) returns (r: Result<IndexMap<Expr>>)
      modifies this
      ensures var built := BuildFields(Scope(), targets, prefix, old(Progress()));
              && (built.Ok? ==> r == Ok(built.value.0) && Progress() == built.value.1)
              && (built.Err? ==> r == Err(built.error))
      decreases targets, 0
    {
      ghost var before := Progress();
      var fields: IndexMap<Expr> := [];
      for i := 0 to |targets|
        invariant BuildFields(Scope(), targets[..i], prefix, before) == Ok((fields, Progress()))
      {
        assert targets[..i + 1][..i] == targets[..i];
        var target := targets[i];
        var path := JoinPath(prefix, target.name);
        if target.ty.RecordType? {
          var nested := BuildTargetFields(target.ty.fields, path);
          if nested.Err? {
            BuildFails(Scope(), targets, prefix, before, i + 1);
            return Err(nested.error);
          }
          fields := Insert(fields, target.name, ObjectExpr(nested.value));
        } else {
          var leaf := BuildTargetLeaf(target, path);
          if leaf.Err? {
            BuildFails(Scope(), targets, prefix, before, i + 1);
            return Err(leaf.error);
          }
          if leaf.value.Some? {
            fields := Insert(fields, target.name, leaf.value.value);
          }
        }
      }
      assert targets[..|targets|] == targets;
      return Ok(fields);
    }

    method BuildTargetLeaf(target: Field, path: string) returns (r: Result<Option<Expr>>)
      modifies this
      ensures var built := BuildLeaf(Scope(), target, path, old(Progress()));
              && (built.Ok? ==> r == Ok(built.value.0) && Progress() == built.value.1)
              && (built.Err? ==> r == Err(built.error))
      decreases target, 1
    {
      match AssignField(Scope(), FieldRef(path, target), usedSources) {
        case Ambiguous(candidates) =>
          RecordAmbiguous(path, candidates);
          return Ok(None);
        case Missing =>
          RecordMissing(target, path);
          return Ok(None);
        case Mapped(c) =>
          if target.ty.ListType? {
            r := BuildListMapping(target, path, c);
          } else {
            var expr := AcceptDirect(c, path);
            return if expr.Ok? then Ok(Some(expr.value)) else Err(expr.error);
          }
      }
    }

    method BuildListMapping(target: Field, path: string, c: Candidate) returns (r: Result<Option<Expr>>)
      requires target.ty.ListType?
      modifies this
      ensures var built := BuildList(Scope(), target, path, old(Progress()), c);
              && (built.Ok? ==> r == Ok(built.value.0) && Progress() == built.value.1)
              && (built.Err? ==> r == Err(built.error))
      decreases target, 0
    {
      var source := FindSource(sources, c.source);
      if source.None? {
        RecordUnresolved(path, [c]);
        return Ok(None);
      }
      if !source.value.ty.ListType? {
        return PlanError("list_map_plan");
      }
      var from, to := source.value, target;
      if (from.nullable && !to.nullable) || (from.ty.elementNullable && !to.ty.elementNullable) {
        RecordUnresolved(path, [c]);
        return Ok(None);
      }
      if from.ty.element == to.ty.element {
        var expr := AcceptDirect(c, path);
        return if expr.Ok? then Ok(Some(expr.value)) else Err(expr.error);
      }
      r := BuildRecordListMapping(from.ty.element, to.ty.element, path, c);
    }

    method BuildRecordListMapping(source: Type, target: Type, path: string, c: Candidate) returns (r: Result<Option<Expr>>)
      modifies this
      ensures var built := BuildRecordList(Scope(), source, target, path, old(Progress()), c);
              && (built.Ok? ==> r == Ok(built.value.0) && Progress() == built.value.1)
              && (built.Err? ==> r == Err(built.error))
      decreases target, 2
    {
      if !source.RecordType? || !target.RecordType? {
        RecordUnresolved(path, [c]);
        return Ok(None);
      }
      var nested := PlanMapping(source, target, options);
      if nested.Err? {
        return Err(nested.error);
      }
      if nested.value.AmbiguousPlan? {
        RecordUnresolved(path, [c]);
        return Ok(None);
      }
      var plan := nested.value.plan;
      if plan.operations == [] || !plan.operations[0].MapOp? {
        return PlanError("list_map_plan");
      }
      usedSources := usedSources + [c.source];
      explanation := explanation + [ExplainEntry(path, Some(c.source), c.score, [CardinalityPreserving], MapElements)];
      RecordElementEntries(path, c.source, nested.value.explanation);
      var input := Parse(c.source);
      if input.Err? {
        return Err(input.error);
      }
      return Ok(Some(ListMapExpr(input.value, ObjectExpr(plan.operations[0].fields))));
    }
  }

  method CollectSourceFields(fields: seq<Field>, prefix: string, out: seq<FieldRef>) returns (r: seq<FieldRef>)
    ensures r == out + CollectSources(fields, prefix)
    decreases fields
  {
    r := out;
    for i := 0 to |fields|
      invariant r == out + CollectSources(fields[..i], prefix)
    {
      assert fields[..i + 1][..i] == fields[..i];
      var path := JoinPath(prefix, fields[i].name);
      if fields[i].ty.RecordType? {
        r := CollectSourceFields(fields[i].ty.fields, path, r);
      } else {
        r := r + [FieldRef(path, fields[i])];
      }
    }
    assert fields[..|fields|] == fields;
  }

  method PlanMapping(source: Type, target: Type, options: Options) returns (r: Result<PlanOutcome>)
    ensures r == PlanSchemas(source, target, options)
    decreases target, 1
  {
    if !source.RecordType? || !target.RecordType? {
      return Err(Error(Schema, "not_a_record"));
    }
    var sources := CollectSourceFields(source.fields, "", []);
    assert [] + CollectSources(source.fields, "") == CollectSources(source.fields, "");
    var context := new BuildContext(sources, options);
    var fields := context.BuildTargetFields(target.fields, "");
    if fields.Err? {
      return Err(fields.error);
    }
    if context.unresolved != [] {
      return Ok(AmbiguousPlan(context.unresolved, context.explanation));
    }
    if fields.value == [] {
      return PlanError("empty_mapping");
    }
    var plan := NewPlan([MapOp(fields.value)]);
    plan := plan.(inputContract := Some(options.fingerprint(source)));
    plan := plan.(outputContract := Some(options.fingerprint(target)));
    return Ok(Ready(plan, context.explanation));
  }
}
