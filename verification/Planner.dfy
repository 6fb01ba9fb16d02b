// The mapping planner, as functions.
module Planner {
  import opened Results
  import opened Orders
  import opened Text
  import opened IndexMaps
  import opened Paths
  import opened Schemas
  import opened Plans

  datatype Mode = Strict | Smart

  // The gap test stands for "scores less than 0.05 apart", which is computed
  // in floating point; see GapTest for what is assumed of it.
  // The fingerprint is a digest of a schema's canonical text.
  datatype Options = Options(
    mode: Mode,
    autoAccept: real,
    ambiguity: real,
    tooClose: (real, real) -> bool,
    fingerprint: Type -> string)

  datatype Reason =
    | ExactName | AliasMatch | NormalizedName | NormalizedPath | CommonSynonym
    | ExactType | CompatibleType | ListContainer
    | OptionalUnmatched | AmbiguousReason | CardinalityPreserving

  datatype Candidate = Candidate(source: string, score: real, reasons: seq<Reason>)

  datatype Action = MapLeaf | MapElements | Omit | NoMapping

  datatype ExplainEntry = ExplainEntry(target: string, source: Option<string>, score: real, reasons: seq<Reason>, action: Action)

  datatype Unresolved = Unresolved(target: string, candidates: seq<Candidate>)

  datatype PlanOutcome =
    | Ready(plan: Plan, explanation: seq<ExplainEntry>)
    | AmbiguousPlan(unresolved: seq<Unresolved>, explanation: seq<ExplainEntry>)

  // A leaf field and its dotted path.
  datatype FieldRef = FieldRef(path: string, field: Field)

  datatype Env = Env(sources: seq<FieldRef>, options: Options)

  datatype State = State(used: seq<string>, explanation: seq<ExplainEntry>, unresolved: seq<Unresolved>)

  // Exact up to rounding at the boundary: definitely close below 0.05,
  // definitely apart above it, and never closer for a lower rival.
  const ROUNDING: real := 0.000000001

  ghost predicate GapTest(tooClose: (real, real) -> bool) {
    && (forall best, rival :: 0.0 <= best - rival < 0.05 - ROUNDING ==> tooClose(best, rival))
    && (forall best, rival :: best - rival > 0.05 + ROUNDING ==> !tooClose(best, rival))
    && (forall best, rival, lower :: lower <= rival <= best && !tooClose(best, rival) ==> !tooClose(best, lower))
  }

  // ---------------------------------------------------------------------
  // Source leaves.
  // ---------------------------------------------------------------------

  // Records are traversed, everything else is a leaf, in schema order.
  function CollectSources(fields: seq<Field>, prefix: string): seq<FieldRef>
    decreases fields
  {
    if fields == [] then [] else
      var last := fields[|fields| - 1];
      var path := JoinPath(prefix, last.name);
      CollectSources(fields[..|fields| - 1], prefix) +
      (if last.ty.RecordType? then CollectSources(last.ty.fields, path) else [FieldRef(path, last)])
  }

  // ---------------------------------------------------------------------
  // Scoring.
  // ---------------------------------------------------------------------

  function ToLower(c: char): char {
    if 'A' <= c <= 'Z' then (c as int - 'A' as int + 'a' as int) as char else c
  }

  function NormalizeName(name: string): string {
    if name == "" then ""
    else if IsAlpha(name[0]) || IsDigit(name[0]) then [ToLower(name[0])] + NormalizeName(name[1..])
    else NormalizeName(name[1..])
  }

  predicate NormalizedPathMatch(source: FieldRef, target: FieldRef) {
    var sourcePath, targetPath := NormalizeName(source.path), NormalizeName(target.path);
    || sourcePath == targetPath
    || sourcePath == NormalizeName(target.field.name)
    || NormalizeName(source.field.name) == targetPath
  }

  const SYNONYMS: seq<(string, string)> := [
    ("period", "month"),
    ("productfamily", "product"),
    ("totalsalesusd", "revenue"),
    ("grossamount", "amount"),
    ("netamount", "amount"),
    ("createdat", "timestamp"),
    ("customerid", "id")
  ]

  predicate Synonyms(source: string, target: string) {
    var s, t := NormalizeName(source), NormalizeName(target);
    exists i :: 0 <= i < |SYNONYMS| &&
      ((SYNONYMS[i].0 == s && SYNONYMS[i].1 == t) || (SYNONYMS[i].0 == t && SYNONYMS[i].1 == s))
  }

  function ScoreNames(source: FieldRef, target: FieldRef, mode: Mode, typeReason: Reason): Option<Candidate> {
    var sourceName, targetName := source.field.name, target.field.name;
    var exact := sourceName == targetName;
    var alias := !exact && targetName in source.field.aliases;
    var normalized := mode == Smart && !exact && NormalizeName(sourceName) == NormalizeName(targetName);
    var viaPath := mode == Smart && !exact && !alias && !normalized && NormalizedPathMatch(source, target);
    var synonym := mode == Smart && Synonyms(sourceName, targetName);
    if mode == Strict && !exact && !alias then None
    else Some(Candidate(
      source.path,
      (if exact || alias then 0.80 else 0.0) + (if normalized then 0.75 else 0.0) + (if viaPath then 0.75 else 0.0)
      + (if synonym then 0.65 else 0.0) + (if typeReason == ExactType then 0.20 else 0.10),
      (if exact then [ExactName] else if alias then [AliasMatch] else [])
      + (if normalized then [NormalizedName] else []) + (if viaPath then [NormalizedPath] else [])
      + (if synonym then [CommonSynonym] else []) + [typeReason]))
  }

  function ScorePair(source: FieldRef, target: FieldRef, mode: Mode): Option<Candidate> {
    if !TypesCompatible(source.field.ty, target.field.ty) then None
    else ScoreNames(source, target, mode, if SameKind(source.field.ty, target.field.ty) then ExactType else CompatibleType)
  }

  function ScoreListPair(source: FieldRef, target: FieldRef, mode: Mode): Option<Candidate> {
    if !source.field.ty.ListType? || !target.field.ty.ListType? then None
    else ScoreNames(source, target, mode, if source.field.ty == target.field.ty then ExactType else ListContainer)
  }

  // List targets weigh list containers, all others compatible leaves.
  function Score(source: FieldRef, target: FieldRef, mode: Mode): (c: Option<Candidate>)
    ensures c.Some? ==> c.value.source == source.path
  {
    if target.field.ty.ListType? then ScoreListPair(source, target, mode) else ScorePair(source, target, mode)
  }

  function CandidateOf(source: FieldRef, target: FieldRef, used: seq<string>, mode: Mode): seq<Candidate> {
    if source.path in used then []
    else match Score(source, target, mode)
      case Some(c) => [c]
      case None => []
  }

  // Scored sources that are still unused, in source order.
  function Candidates(sources: seq<FieldRef>, target: FieldRef, used: seq<string>, mode: Mode): seq<Candidate> {
    if sources == [] then []
    else CandidateOf(sources[0], target, used, mode) + Candidates(sources[1..], target, used, mode)
  }

  function RealCmp(a: real, b: real): Ordering {
    if a < b then Less else if a > b then Greater else Equal
  }

  function ByScoreDescending(): Comparison<Candidate> {
    (a: Candidate, b: Candidate) => RealCmp(b.score, a.score)
  }

  // ---------------------------------------------------------------------
  // Selection.
  // ---------------------------------------------------------------------

  datatype Assign = Mapped(candidate: Candidate) | Ambiguous(candidates: seq<Candidate>) | Missing

  function SelectCandidate(ranked: seq<Candidate>, options: Options): Assign {
    if ranked == [] || ranked[0].score < options.ambiguity then Missing
    else if |ranked| >= 2 && options.tooClose(ranked[0].score, ranked[1].score) && ranked[1].score >= options.ambiguity
    then Ambiguous(ranked)
    else if options.mode == Strict && ranked[0].score < options.autoAccept then Ambiguous(ranked)
    else Mapped(ranked[0])
  }

  function AssignField(env: Env, target: FieldRef, used: seq<string>): Assign {
    var candidates := Candidates(env.sources, target, used, env.options.mode);
    SelectCandidate(StableSort(ByScoreDescending(), candidates), env.options)
  }

  // ---------------------------------------------------------------------
  // State changes.
  // ---------------------------------------------------------------------

  function PushUnresolved(st: State, target: string, candidates: seq<Candidate>): State {
    st.(unresolved := st.unresolved + [Unresolved(target, candidates)])
  }

  function PushExplanation(st: State, entry: ExplainEntry): State {
    st.(explanation := st.explanation + [entry])
  }

  function PushAmbiguous(st: State, target: string, candidates: seq<Candidate>): State {
    PushExplanation(PushUnresolved(st, target, candidates), ExplainEntry(target, None, 0.0, [AmbiguousReason], NoMapping))
  }

  function PushOmission(st: State, target: string): State {
    PushExplanation(st, ExplainEntry(target, None, 0.0, [OptionalUnmatched], Omit))
  }

  function UseSource(st: State, source: string): State {
    st.(used := st.used + [source])
  }

  function AcceptLeaf(st: State, target: string, c: Candidate): State {
    PushExplanation(UseSource(st, c.source), ExplainEntry(target, Some(c.source), c.score, c.reasons, MapLeaf))
  }

  function ElementEntry(target: string, source: string, entry: ExplainEntry): ExplainEntry {
    entry.(target := target + "[]." + entry.target,
           source := if entry.source.Some? then Some(source + "[]." + entry.source.value) else None)
  }

  function PushElementEntries(st: State, target: string, source: string, entries: seq<ExplainEntry>): State {
    if entries == [] then st else
      var last := |entries| - 1;
      PushExplanation(PushElementEntries(st, target, source, entries[..last]), ElementEntry(target, source, entries[last]))
  }

  function AcceptListMap(st: State, target: string, c: Candidate, nested: seq<ExplainEntry>): State {
    var head := ExplainEntry(target, Some(c.source), c.score, [CardinalityPreserving], MapElements);
    PushElementEntries(PushExplanation(UseSource(st, c.source), head), target, c.source, nested)
  }

  // A target without an acceptable source: omitted when nullable.
  function NoSource(st: State, target: Field, path: string): State {
    if target.nullable then PushOmission(st, path) else PushUnresolved(st, path, [])
  }

  // ---------------------------------------------------------------------
  // The build.
  // ---------------------------------------------------------------------

  function FindSource(sources: seq<FieldRef>, path: string): Option<Field> {
    if sources == [] then None
    else if sources[0].path == path then Some(sources[0].field)
    else FindSource(sources[1..], path)
  }

  function BuildFields(env: Env, targets: seq<Field>, prefix: string, st: State): Result<(IndexMap<Expr>, State)>
    decreases targets, 0
  {
    if targets == [] then Ok(([], st)) else
      var target := targets[|targets| - 1];
      var path := JoinPath(prefix, target.name);
      var (exprs, before) :- BuildFields(env, targets[..|targets| - 1], prefix, st);
      if target.ty.RecordType? then
        var (nested, after) :- BuildFields(env, target.ty.fields, path, before);
        Ok((Insert(exprs, target.name, ObjectExpr(nested)), after))
      else
        var (leaf, after) :- BuildLeaf(env, target, path, before);
        Ok((if leaf.Some? then Insert(exprs, target.name, leaf.value) else exprs, after))
  }

  function BuildLeaf(env: Env, target: Field, path: string, st: State): Result<(Option<Expr>, State)>
    decreases target, 1
  {
    match AssignField(env, FieldRef(path, target), st.used)
    case Ambiguous(candidates) => Ok((None, PushAmbiguous(st, path, candidates)))
    case Missing => Ok((None, NoSource(st, target, path)))
    case Mapped(c) =>
      if target.ty.ListType? then BuildList(env, target, path, st, c)
      else
        var parsed :- Parse(c.source);
        Ok((Some(FieldExpr(parsed)), AcceptLeaf(st, path, c)))
  }

  function BuildList(env: Env, target: Field, path: string, st: State, c: Candidate): Result<(Option<Expr>, State)>
    requires target.ty.ListType?
    decreases target, 0
  {
    match FindSource(env.sources, c.source)
    case None => Ok((None, PushUnresolved(st, path, [c])))
    case Some(source) =>
      if !source.ty.ListType? then PlanError("list_map_plan")
      else if (source.nullable && !target.nullable) || (source.ty.elementNullable && !target.ty.elementNullable)
      then Ok((None, PushUnresolved(st, path, [c])))
      else if source.ty.element == target.ty.element then
        var parsed :- Parse(c.source);
        Ok((Some(FieldExpr(parsed)), AcceptLeaf(st, path, c)))
      else BuildRecordList(env, source.ty.element, target.ty.element, path, st, c)
  }

  function BuildRecordList(env: Env, source: Type, target: Type, path: string, st: State, c: Candidate): Result<(Option<Expr>, State)>
    decreases target, 2
  {
    if !source.RecordType? || !target.RecordType? then Ok((None, PushUnresolved(st, path, [c]))) else
      var nested :- PlanSchemas(source, target, env.options);
      AttachListMap(nested, path, st, c)
  }

  // An unresolved element mapping leaves the whole list unresolved.
  function AttachListMap(nested: PlanOutcome, path: string, st: State, c: Candidate): Result<(Option<Expr>, State)> {
    match nested
    case AmbiguousPlan(_, _) => Ok((None, PushUnresolved(st, path, [c])))
    case Ready(plan, explanation) =>
      if plan.operations == [] || !plan.operations[0].MapOp? then PlanError("list_map_plan") else
        var input :- Parse(c.source);
        Ok((Some(ListMapExpr(input, ObjectExpr(plan.operations[0].fields))), AcceptListMap(st, path, c, explanation)))
  }

  function PlanSchemas(source: Type, target: Type, options: Options): Result<PlanOutcome>
    decreases target, 1
  {
    if !source.RecordType? || !target.RecordType? then Err(Error(Schema, "not_a_record")) else
      var env := Env(CollectSources(source.fields, ""), options);
      var (fields, st) :- BuildFields(env, target.fields, "", State([], [], []));
      FinishPlan(source, target, options, fields, st)
  }

  function FinishPlan(source: Type, target: Type, options: Options, fields: IndexMap<Expr>, st: State): Result<PlanOutcome> {
    if st.unresolved != [] then Ok(AmbiguousPlan(st.unresolved, st.explanation))
    else if fields == [] then PlanError("empty_mapping")
    else Ok(Ready(
      NewPlan([MapOp(fields)]).(
        inputContract := Some(options.fingerprint(source)),
        outputContract := Some(options.fingerprint(target))),
      st.explanation))
  }
}
