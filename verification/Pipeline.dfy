// The transform pipeline.
module Pipeline {
  import opened Results
  import opened Values
  import opened Schemas
  import opened Validation
  import opened Plans
  import opened Engine
  import opened EngineLaws
  import opened Planner
  import PlannerRun
  import opened Compiled
  import opened Soundness
  import opened Inference
  import opened InferenceLaws

  datatype Request = Request(
    plan: Option<Plan>,
    target: Option<Type>,
    options: Options,
    policy: ErrorPolicy,
    infer: InferMode)

  function PlannedOnly(outcome: PlanOutcome): Result<Plan> {
    match outcome
    case Ready(plan, _) => Ok(plan)
    case AmbiguousPlan(_, _) => Err(Error(ErrorKind.Ambiguity, "ambiguous_mapping"))
  }

  // An explicit plan is checked and used as it is; otherwise one is planned
  // from the inferred source schema.
  function ResolvePlan(request: Request, records: seq<Value>): Result<Plan> {
    match request.plan
    case Some(plan) =>
      var shape :- ValidateShape(plan);
      Ok(plan)
    case None =>
      match request.target
      case None => Err(Error(Usage, "transform_plan"))
      case Some(target) =>
        var source :- InferSchema(records, request.infer);
        var planned :- PlanSchemas(source, target, request.options);
        PlannedOnly(planned)
  }

  function ValidateAll(target: Type, records: seq<Value>): Result<Unit> {
    if records == [] then Ok(Unit) else
      var front :- ValidateAll(target, records[..|records| - 1]);
      ValidateType(target, records[|records| - 1])
  }

  // The request's error policy overrides the plan's own.
  function Transform(lib: Lib, request: Request, records: seq<Value>): Result<Outcome> {
    var plan :- ResolvePlan(request, records);
    var outcome :- Execute(lib, WithPolicy(plan, request.policy), records);
    if request.target.Some? && plan.validationOutput != "none" then
      var valid :- ValidateAll(request.target.value, outcome.records);
      Ok(outcome)
    else Ok(outcome)
  }

  lemma {:induction false} ValidateFails(target: Type, records: seq<Value>, n: nat)
    requires n <= |records| && ValidateAll(target, records[..n]).Err?
    ensures ValidateAll(target, records) == ValidateAll(target, records[..n])
    decreases |records|
  {
    if n < |records| {
      var front := records[..|records| - 1];
      assert front[..n] == records[..n];
      ValidateFails(target, front, n);
    } else {
      assert records[..n] == records;
    }
  }

  method ValidateRecords(target: Type, records: seq<Value>) returns (r: Result<Unit>)
    ensures r == ValidateAll(target, records)
  {
    for i := 0 to |records|
      invariant ValidateAll(target, records[..i]) == Ok(Unit)
    {
      assert records[..i + 1][..i] == records[..i];
      var valid := ValidateType(target, records[i]);
      if valid.Err? {
        ValidateFails(target, records, i + 1);
        return valid;
      }
      assert valid.value.Unit?;
    }
    assert records[..|records|] == records;
    return Ok(Unit);
  }

  method ResolveRequest(request: Request, records: seq<Value>) returns (r: Result<Plan>)
    ensures r == ResolvePlan(request, records)
  {
    match request.plan {
      case Some(plan) =>
        var shape := ValidateShape(plan);
        r := if shape.Err? then Err(shape.error) else Ok(plan);
      case None =>
        if request.target.None? {
          return Err(Error(Usage, "transform_plan"));
        }
        var source := InferFromRecords(records, request.infer);
        if source.Err? {
          return Err(source.error);
        }
        var planned := PlannerRun.PlanMapping(source.value, request.target.value, request.options);
        if planned.Err? {
          return Err(planned.error);
        }
        r := PlannedOnly(planned.value);
    }
  }

  method TransformData(lib: Lib, request: Request, records: seq<Value>) returns (r: Result<Outcome>)
    ensures r == Transform(lib, request, records)
  {
    var resolved := ResolveRequest(request, records);
    if resolved.Err? {
      return Err(resolved.error);
    }
    var plan := resolved.value;
    plan := WithPolicy(plan, request.policy);
    r := ExecuteDetailed(lib, plan, records);
    if r.Ok? && request.target.Some? && plan.validationOutput != "none" {
      var valid := ValidateRecords(request.target.value, r.value.records);
      if valid.Err? {
        return Err(valid.error);
      }
    }
  }

  // ---------------------------------------------------------------------
  // Safety.
  // ---------------------------------------------------------------------

  lemma {:induction false} AllValidated(target: Type, records: seq<Value>)
    ensures ValidateAll(target, records).Ok? <==> forall i :: 0 <= i < |records| ==> Accepts(target, records[i])
  {
    if records != [] {
      var n := |records| - 1;
      var front := records[..n];
      AllValidated(target, front);
      assert forall i :: 0 <= i < n ==> front[i] == records[i];
      assert (forall i :: 0 <= i < |records| ==> Accepts(target, records[i])) <==>
             (forall i :: 0 <= i < n ==> Accepts(target, front[i])) && Accepts(target, records[n]);
    }
  }

  // Whatever the plan, validated output conforms to the target.
  lemma TransformValidates(lib: Lib, request: Request, records: seq<Value>)
    requires Transform(lib, request, records).Ok? && request.target.Some?
    requires ResolvePlan(request, records).value.validationOutput != "none"
    ensures var out := Transform(lib, request, records).value.records;
            forall i :: 0 <= i < |out| ==> Accepts(request.target.value, out[i])
  {
    AllValidated(request.target.value, Transform(lib, request, records).value.records);
  }

  // Object records with identifier keys, each of whose values is null or fits
  // one that its column holds.
  predicate Documents(records: seq<Value>) {
    forall i :: 0 <= i < |records| ==>
      records[i].Object? && NamedObject(records[i]) && Fitted(ObjectsOf(records), records[i].fields)
  }

  // Homogeneous values are enough.
  lemma HomogeneousDocuments(records: seq<Value>)
    requires forall i :: 0 <= i < |records| ==> records[i].Object? && GoodObject(records[i]) && NamedObject(records[i])
    ensures Documents(records)
  {
    forall i | 0 <= i < |records| ensures Fitted(ObjectsOf(records), records[i].fields) {
      HomogeneousFitted(records, i);
    }
  }

  // Of object records with identifier keys, the documents are exactly those
  // whose inferred schema accepts them all.
  lemma InferredSource(records: seq<Value>, infer: InferMode)
    requires InferFields(records, infer).Ok?
    requires forall i :: 0 <= i < |records| ==> records[i].Object? && NamedObject(records[i])
    ensures WellNamedFields(InferFields(records, infer).value)
    ensures AllConform(InferFields(records, infer).value, records) <==> Documents(records)
  {
    InferenceWellNamed(records, infer);
    ObjectsNamed(records);
    forall i | 0 <= i < |records|
      ensures Accepts(RecordType(InferFields(records, infer).value), records[i]) <==> Fitted(ObjectsOf(records), records[i].fields)
    {
      InferenceExact(records, infer, i);
    }
  }

  lemma ResolvedPlan(request: Request, targets: seq<Field>, records: seq<Value>)
    requires Documents(records) && WellNamedFields(targets)
    requires request.plan.None? && request.target == Some(RecordType(targets))
    requires ResolvePlan(request, records).Ok?
    ensures InferFields(records, request.infer).Ok?
    ensures var source := InferFields(records, request.infer).value;
            ReadyPlan(source, targets, request.options, ResolvePlan(request, records).value) && AllConform(source, records)
    ensures ResolvePlan(request, records).value.validationOutput == "required"
  {
    var source := InferFields(records, request.infer).value;
    InferredSource(records, request.infer);
    PlanCompiles(source, targets, request.options);
  }

  lemma TransformOutcome(lib: Lib, request: Request, plan: Plan, targets: seq<Field>, records: seq<Value>, out: seq<Value>)
    requires ResolvePlan(request, records) == Ok(plan) && plan.validationOutput == "required"
    requires request.target == Some(RecordType(targets)) && RunsTo(lib, plan, request.policy, records, out)
    ensures AllConform(targets, out) ==> Transform(lib, request, records) == Ok(Outcome(out, []))
    ensures !AllConform(targets, out) ==> Transform(lib, request, records).Err?
  {
    AllValidated(RecordType(targets), out);
    assert AllConform(targets, out) <==> ValidateAll(RecordType(targets), out).Ok?;
  }

  // Without an explicit plan, once planning is ready nothing fails before
  // validation: the records map one to one, in order, to their images, with
  // no rejects under any policy. The request then succeeds exactly when every
  // image conforms, and always when the joined leaf types are inclusive.
  lemma PipelineSafe(lib: Lib, request: Request, targets: seq<Field>, records: seq<Value>) returns (out: seq<Value>)
    requires Documents(records) && WellNamedFields(targets)
    requires request.plan.None? && request.target == Some(RecordType(targets))
    requires ResolvePlan(request, records).Ok?
    ensures InferFields(records, request.infer).Ok?
    ensures var plan := ResolvePlan(request, records).value;
            var source := InferFields(records, request.infer).value;
            && RunsTo(lib, plan, request.policy, records, out)
            && (AllConform(targets, out) ==> Transform(lib, request, records) == Ok(Outcome(out, [])))
            && (!AllConform(targets, out) ==> Transform(lib, request, records).Err?)
            && (JoinsIncluded(source, targets, PlanFields(plan)) ==> AllConform(targets, out))
  {
    ResolvedPlan(request, targets, records);
    var plan := ResolvePlan(request, records).value;
    var source := InferFields(records, request.infer).value;
    out := ReadyPlanRuns(lib, source, targets, request.options, plan, request.policy, records);
    TransformOutcome(lib, request, plan, targets, records, out);
    if JoinsIncluded(source, targets, PlanFields(plan)) {
      ImagesConform(lib, source, targets, request.options, plan, request.policy, records, out);
    }
  }

  lemma ImagesConform(lib: Lib, source: seq<Field>, targets: seq<Field>, options: Options, plan: Plan, policy: ErrorPolicy, records: seq<Value>, out: seq<Value>)
    requires ReadyPlan(source, targets, options, plan) && AllConform(source, records)
    requires JoinsIncluded(source, targets, PlanFields(plan)) && RunsTo(lib, plan, policy, records, out)
    ensures AllConform(targets, out)
  {
    ReadyPlanValid(source, targets, options, plan);
    RunConforms(lib, source, targets, plan, policy, records, out);
  }
}
