// The transformation plan and its shape check.
module Plans {
  import opened Results
  import opened IndexMaps
  import opened Paths
  import opened Schemas
  import opened Values

  datatype CastPolicy = StrictCast | LossyCast | TryCast

  datatype ErrorPolicy = Fail | Skip | Collect

  datatype SortOrder = Asc | Desc

  datatype NullsOrder = NullsFirst | NullsLast

  datatype SortKey = SortKey(field: FieldPath, order: SortOrder, nulls: NullsOrder)

  datatype Expr =
    | FieldExpr(path: FieldPath)
    | LiteralExpr(value: Value)
    | CastExpr(expr: Expr, target: string, policy: CastPolicy)
    | CoalesceExpr(items: seq<Expr>)
    | CallExpr(callee: string, args: seq<Expr>)
    | ObjectExpr(fields: IndexMap<Expr>)
    | ListMapExpr(input: FieldPath, item: Expr)

  datatype Operation =
    | ProjectOp(paths: seq<FieldPath>)
    | RenameOp(mapping: IndexMap<string>)
    | DropOp(paths: seq<FieldPath>)
    | LiteralOp(name: string, value: Value)
    | CastOp(field: FieldPath, target: string, policy: CastPolicy)
    | CoalesceOp(name: string, values: seq<Expr>)
    | ObjectOp(fields: IndexMap<Expr>)
    | MapOp(fields: IndexMap<Expr>)
    | FilterOp(predicateExpr: Expr)
    | SortOp(keys: seq<SortKey>)
    | ExplodeOp(field: FieldPath, to: Option<string>, outer: bool)

  // Contracts carry schema fingerprints.
  datatype Plan = Plan(
    apiVersion: string,
    kind: string,
    inputContract: Option<string>,
    outputContract: Option<string>,
    operations: seq<Operation>,
    validationOutput: string,
    errorPolicy: ErrorPolicy,
    backend: string)

  const API_VERSION := "shapeport.dev/v1alpha1"
  const KIND := "TransformationPlan"

  function NewPlan(operations: seq<Operation>): Plan {
    Plan(API_VERSION, KIND, None, None, operations, "required", Fail, "document")
  }

  function ValidateCastTarget(target: string, policy: CastPolicy): Result<Unit> {
    var ty :- ParseTargetName(target);
    if ty.FloatType? && policy == StrictCast then PlanError("lossy_cast_required") else Ok(Unit)
  }

  function ValidateExpr(expr: Expr): Result<Unit>
    decreases expr
  {
    match expr
    case CastExpr(inner, target, policy) =>
      var checked :- ValidateCastTarget(target, policy);
      ValidateExpr(inner)
    case CoalesceExpr(items) => ValidateExprs(items)
    case CallExpr(_, args) => ValidateExprs(args)
    case ObjectExpr(fields) => ValidateFieldExprs(fields)
    case ListMapExpr(_, item) => ValidateExpr(item)
    case FieldExpr(_) => Ok(Unit)
    case LiteralExpr(_) => Ok(Unit)
  }

  function ValidateExprs(exprs: seq<Expr>): Result<Unit>
    decreases exprs
  {
    if exprs == [] then Ok(Unit) else
      var checked :- ValidateExpr(exprs[0]);
      ValidateExprs(exprs[1..])
  }

  function ValidateFieldExprs(fields: IndexMap<Expr>): Result<Unit>
    decreases fields
  {
    if fields == [] then Ok(Unit) else
      var checked :- ValidateExpr(fields[0].value);
      ValidateFieldExprs(fields[1..])
  }

  function ValidateOp(op: Operation): Result<Unit> {
    match op
    case SortOp(keys) => if keys == [] then PlanError("invalid_sort") else Ok(Unit)
    case MapOp(fields) => if fields == [] then PlanError("invalid_map") else ValidateFieldExprs(fields)
    case ProjectOp(paths) => if paths == [] then PlanError("invalid_project") else Ok(Unit)
    case CastOp(_, target, policy) => ValidateCastTarget(target, policy)
    case ObjectOp(fields) => ValidateFieldExprs(fields)
    case CoalesceOp(_, values) => ValidateExprs(values)
    case FilterOp(predicateExpr) => ValidateExpr(predicateExpr)
    case _ => Ok(Unit)
  }

  function ValidateOps(ops: seq<Operation>): Result<Unit> {
    if ops == [] then Ok(Unit) else
      var checked :- ValidateOp(ops[0]);
      ValidateOps(ops[1..])
  }

  function ValidateShape(plan: Plan): Result<Unit> {
    if plan.apiVersion != API_VERSION then PlanError("unsupported_api_version")
    else if plan.kind != KIND then PlanError("invalid_kind")
    else if plan.operations == [] then PlanError("empty_plan")
    else if plan.backend != "document" then PlanError("unsupported_backend")
    else ValidateOps(plan.operations)
  }
}
