/** What INSERT, UPDATE and DELETE make of one row, said by the values of the expressions (src/executor.rs). */
module RowMeaning {
  import opened Options
  import opened KeyCodec
  import opened Expressions
  import opened Evaluator
  import opened Constraints

  datatype DmlError = EvalFailed(error: EvalError) | ColumnCount | SchemaMismatch | Violates(violation: Violation)

  datatype Assignment = Assignment(column: nat, value: BoundExpr)

  // ---- Conditions

  /** The row matches: there is no condition, or it is TRUE. */
  ghost predicate IsTrue(condition: Option<BoundExpr>, registry: Registry, row: Tuple) {
    condition.None? || EvalBound(condition.value, registry, Some(row)) == Val(Boolean(true))
  }

  /** The row does not match: the condition is FALSE or NULL. */
  ghost predicate IsNotTrue(condition: Option<BoundExpr>, registry: Registry, row: Tuple) {
    condition.Some? && (EvalBound(condition.value, registry, Some(row)) == Val(Boolean(false)) ||
                        EvalBound(condition.value, registry, Some(row)) == Val(Null))
  }

  /** The condition fails, or is no truth value. */
  ghost predicate ConditionFails(condition: Option<BoundExpr>, registry: Registry, row: Tuple, error: DmlError) {
    && condition.Some?
    && match EvalBound(condition.value, registry, Some(row))
       case Fail(e) => error == EvalFailed(e)
       case Val(v) => v != Null && !v.Boolean? && error == EvalFailed(OperatorType)
  }

  // ---- Rows

  /** As wide as the table, NULL only where that is allowed, and every other value of the type of its column. */
  ghost predicate Fitting(schema: Schema, t: Tuple) {
    && |t| == |schema|
    && forall i :: 0 <= i < |t| ==>
         if t[i] == Null then schema[i].nullable else t[i].Type() == Some(schema[i].dataType)
  }

  /** No later index names the same column. */
  ghost predicate LastFor(columns: seq<nat>, k: nat) {
    k < |columns| && forall j :: k < j < |columns| ==> columns[j] != columns[k]
  }

  ghost function Targets(assignments: seq<Assignment>): (columns: seq<nat>)
    ensures |columns| == |assignments| && forall k :: 0 <= k < |columns| ==> columns[k] == assignments[k].column
  {
    seq(|assignments|, k requires 0 <= k < |assignments| => assignments[k].column)
  }

  /** `after` is `row` with every assignment carried out, each of them on the values of `row`. */
  ghost predicate Sets(assignments: seq<Assignment>, registry: Registry, row: Tuple, after: Tuple) {
    && |after| == |row|
    && (forall k :: 0 <= k < |assignments| ==> AssignedValue(assignments, registry, row, k).Val?)
    && (forall k: nat :: LastFor(Targets(assignments), k) && assignments[k].column < |row| ==>
          AssignedValue(assignments, registry, row, k) == Val(after[assignments[k].column]))
    && forall i :: 0 <= i < |row| && i !in Targets(assignments) ==> after[i] == row[i]
  }

  ghost function AssignedValue(assignments: seq<Assignment>, registry: Registry, row: Tuple, k: nat): Outcome
    requires k < |assignments|
  {
    EvalBound(assignments[k].value, registry, Some(row))
  }

  /** What an UPDATE does to a row: nothing if it does not match, and otherwise the assignments. */
  ghost predicate RowUpdates(schema: Schema, registry: Registry, assignments: seq<Assignment>,
                             condition: Option<BoundExpr>, row: Tuple, change: Option<Tuple>) {
    match change
    case None => IsNotTrue(condition, registry, row)
    case Some(after) =>
      IsTrue(condition, registry, row) && Sets(assignments, registry, row, after) && Fitting(schema, after)
  }

  /** Why an UPDATE fails on a row: the condition, the first assignment that fails, or values that do not fit. */
  ghost predicate UpdateFails(schema: Schema, registry: Registry, assignments: seq<Assignment>,
                              condition: Option<BoundExpr>, row: Tuple, error: DmlError) {
    || ConditionFails(condition, registry, row, error)
    || (IsTrue(condition, registry, row) && AssignmentFails(assignments, registry, row, error))
    || (&& IsTrue(condition, registry, row) && error == SchemaMismatch
        && exists after :: Sets(assignments, registry, row, after) && !Fitting(schema, after))
  }

  ghost predicate AssignmentFails(assignments: seq<Assignment>, registry: Registry, row: Tuple, error: DmlError) {
    exists k ::
      && 0 <= k < |assignments| && AssignedValue(assignments, registry, row, k).Fail?
      && error == EvalFailed(AssignedValue(assignments, registry, row, k).error)
      && forall j :: 0 <= j < k ==> AssignedValue(assignments, registry, row, j).Val?
  }

  // ---- VALUES

  /** A row of VALUES in the order of the table: all columns as listed, or the named ones and NULL for the others. */
  ghost predicate Placed(schema: Schema, columns: Option<seq<nat>>, values: seq<Value>, t: Tuple) {
    if columns.None? then t == values
    else
      && |columns.value| == |values| && |t| == |schema|
      && (forall k: nat :: LastFor(columns.value, k) && columns.value[k] < |t| ==> t[columns.value[k]] == values[k])
      && forall i :: 0 <= i < |t| && i !in columns.value ==> t[i] == Null
  }

  /** The values of the expressions. */
  ghost predicate Evaluates(exprs: seq<Expr>, registry: Registry, values: seq<Value>) {
    |values| == |exprs| && forall k :: 0 <= k < |exprs| ==> Eval(exprs[k], registry, None) == Val(values[k])
  }

  /** The row that an INSERT stores for a row of VALUES. */
  ghost predicate RowInserted(schema: Schema, registry: Registry, columns: Option<seq<nat>>, exprs: seq<Expr>,
                              t: Tuple) {
    && Fitting(schema, t)
    && exists values :: Evaluates(exprs, registry, values) && Placed(schema, columns, values, t)
  }

  /** Why an INSERT fails on a row of VALUES: the first expression that fails, a wrong number of values, or values that
      do not fit. */
  ghost predicate InsertFails(schema: Schema, registry: Registry, columns: Option<seq<nat>>, exprs: seq<Expr>,
                              error: DmlError) {
    || ExpressionFails(exprs, registry, error)
    || exists values ::
         && Evaluates(exprs, registry, values)
         && if columns.Some? && |columns.value| != |values| then error == ColumnCount
            else error == SchemaMismatch && exists t :: Placed(schema, columns, values, t) && !Fitting(schema, t)
  }

  ghost predicate ExpressionFails(exprs: seq<Expr>, registry: Registry, error: DmlError) {
    exists k ::
      && 0 <= k < |exprs| && Eval(exprs[k], registry, None).Fail?
      && error == EvalFailed(Eval(exprs[k], registry, None).error)
      && forall j :: 0 <= j < k ==> Eval(exprs[j], registry, None).Val?
  }

  // ---- Whole statements

  /** The first row on which an UPDATE fails, fails with this error. */
  ghost predicate UpdateEndsWith(schema: Schema, registry: Registry, assignments: seq<Assignment>,
                              condition: Option<BoundExpr>, rows: seq<Tuple>, error: DmlError) {
    exists i ::
      && 0 <= i < |rows| && UpdateFails(schema, registry, assignments, condition, rows[i], error)
      && forall j :: 0 <= j < i ==> Updatable(schema, registry, assignments, condition, rows[j])
  }

  ghost predicate Updatable(schema: Schema, registry: Registry, assignments: seq<Assignment>,
                            condition: Option<BoundExpr>, row: Tuple) {
    exists change :: RowUpdates(schema, registry, assignments, condition, row, change)
  }

  /** The first row on which the condition of a DELETE fails, fails with this error. */
  ghost predicate DeleteEndsWith(registry: Registry, condition: Option<BoundExpr>, rows: seq<Tuple>, error: DmlError) {
    exists i ::
      && 0 <= i < |rows| && ConditionFails(condition, registry, rows[i], error)
      && forall j :: 0 <= j < i ==> IsTrue(condition, registry, rows[j]) || IsNotTrue(condition, registry, rows[j])
  }

  /** The first row of the VALUES on which an INSERT fails, fails with this error. */
  ghost predicate InsertEndsWith(schema: Schema, registry: Registry, columns: Option<seq<nat>>, rows: seq<seq<Expr>>,
                              error: DmlError) {
    exists i ::
      && 0 <= i < |rows| && InsertFails(schema, registry, columns, rows[i], error)
      && forall j :: 0 <= j < i ==> Insertable(schema, registry, columns, rows[j])
  }

  ghost predicate Insertable(schema: Schema, registry: Registry, columns: Option<seq<nat>>, exprs: seq<Expr>) {
    exists t :: RowInserted(schema, registry, columns, exprs, t)
  }

  /** Where the rows that match stand. */
  ghost function Matching(condition: Option<BoundExpr>, registry: Registry, rows: seq<Tuple>): set<nat> {
    set i: nat | i < |rows| && IsTrue(condition, registry, rows[i])
  }

  /** A statement that cannot be planned does not fail by a constraint. */
  lemma PlanErrors(schema: Schema, registry: Registry, columns: Option<seq<nat>>, exprs: seq<seq<Expr>>,
                   assignments: seq<Assignment>, condition: Option<BoundExpr>, rows: seq<Tuple>, error: DmlError)
    ensures InsertEndsWith(schema, registry, columns, exprs, error) ==> !error.Violates?
    ensures UpdateEndsWith(schema, registry, assignments, condition, rows, error) ==> !error.Violates?
  {
    hide Eval, EvalBound, Sets, Fitting, Placed, Evaluates, Insertable, Updatable;
  }
}
