/** INSERT, UPDATE and DELETE on tables in memory, and rolling them back (src/executor.rs, src/transaction.rs). */
module Dml {
  import opened Options
  import opened KeyCodec
  import opened Expressions
  import opened Evaluator
  import opened Constraints
  import opened RowMeaning
  import opened EvalMeaning

  type TableId = nat

  datatype UndoRecord =
    | Inserted(table: TableId, tuple: Tuple)
    | Deleted(table: TableId, tuple: Tuple)
    | Updated(table: TableId, before: Tuple, after: Tuple)

  // ---- What the statements plan

  /** `predicate_matches`: only TRUE matches. */
  function Matches(condition: Option<BoundExpr>, registry: Registry, row: Tuple): Result<bool, DmlError> {
    if condition.None? then Ok(true)
    else
      match EvalBound(condition.value, registry, Some(row))
      case Fail(error) => Err(EvalFailed(error))
      case Val(Boolean(b)) => Ok(b)
      case Val(Null) => Ok(false)
      case _ => Err(EvalFailed(OperatorType))
  }

  lemma MatchesMeans(condition: Option<BoundExpr>, registry: Registry, row: Tuple)
    ensures Matches(condition, registry, row) == Ok(true) <==> IsTrue(condition, registry, row)
    ensures Matches(condition, registry, row) == Ok(false) <==> IsNotTrue(condition, registry, row)
    ensures forall error :: Matches(condition, registry, row) == Err(error) <==>
      ConditionFails(condition, registry, row, error)
  {
    hide EvalBound;
  }

  lemma SureMatch(condition: Option<BoundExpr>, registry: Registry, row: Tuple, m: Result<bool, DmlError>)
    requires m == Matches(condition, registry, row) && m.Ok?
    ensures if m.value then IsTrue(condition, registry, row) else IsNotTrue(condition, registry, row)
  {
    hide Matches, IsTrue, IsNotTrue;
    MatchesMeans(condition, registry, row);
    if m.value {
      assert m == Ok(true);
    } else {
      assert m == Ok(false);
    }
  }

  /** `Tuple::new` */
  function NewTuple(schema: Schema, values: seq<Value>): Result<Tuple, DmlError> {
    if RowOk(schema, values) then Ok(values) else Err(SchemaMismatch)
  }

  /** The values of a row after the first `n` assignments, each of which reads the old row. */
  function Assigned(assignments: seq<Assignment>, registry: Registry, row: Tuple, n: nat): (r: Result<Tuple, DmlError>)
    requires n <= |assignments| && forall k :: 0 <= k < |assignments| ==> assignments[k].column < |row|
    ensures r.Ok? ==> |r.value| == |row|
  {
    if n == 0 then Ok(row)
    else
      match Assigned(assignments, registry, row, n - 1)
      case Err(error) => Err(error)
      case Ok(values) =>
        match EvalBound(assignments[n-1].value, registry, Some(row))
        case Fail(error) => Err(EvalFailed(error))
        case Val(v) => Ok(values[assignments[n-1].column := v])
  }

  /** Every assignment reads the row as it was, so that `SET a = b, b = a` exchanges two values. */
  lemma {:induction false} AssignedMeans(assignments: seq<Assignment>, registry: Registry, row: Tuple, n: nat)
    requires n <= |assignments| && forall k :: 0 <= k < |assignments| ==> assignments[k].column < |row|
    requires forall j, k :: 0 <= j < k < |assignments| ==> assignments[j].column != assignments[k].column
    requires Assigned(assignments, registry, row, n).Ok?
    ensures var values := Assigned(assignments, registry, row, n).value;
      && (forall k :: 0 <= k < n ==>
            Val(values[assignments[k].column]) == EvalBound(assignments[k].value, registry, Some(row)))
      && forall i :: 0 <= i < |row| && (forall k :: 0 <= k < n ==> assignments[k].column != i) ==> values[i] == row[i]
  {
    hide EvalBound;
    if n > 0 {
      AssignedMeans(assignments, registry, row, n - 1);
    }
  }

  /** What an UPDATE does to one row: nothing, or the new row. */
  function UpdatedRow(schema: Schema, registry: Registry, assignments: seq<Assignment>, condition: Option<BoundExpr>,
                      row: Tuple): Result<Option<Tuple>, DmlError>
    requires forall k :: 0 <= k < |assignments| ==> assignments[k].column < |row|
  {
    match Matches(condition, registry, row)
    case Err(error) => Err(error)
    case Ok(false) => Ok(None)
    case Ok(true) =>
      match Assigned(assignments, registry, row, |assignments|)
      case Err(error) => Err(error)
      case Ok(values) =>
        match NewTuple(schema, values)
        case Err(error) => Err(error)
        case Ok(tuple) => Ok(Some(tuple))
  }

  lemma NewTupleMeans(schema: Schema, values: seq<Value>)
    ensures NewTuple(schema, values) == if Fitting(schema, values) then Ok(values) else Err(SchemaMismatch)
    ensures RowOk(schema, values) <==> Fitting(schema, values)
  {
  }

  /** The first `n` assignments are carried out, or one of them fails. */
  lemma {:induction false} AssignedSets(assignments: seq<Assignment>, registry: Registry, row: Tuple, n: nat)
    requires n <= |assignments| && forall k :: 0 <= k < |assignments| ==> assignments[k].column < |row|
    ensures match Assigned(assignments, registry, row, n)
      case Ok(values) => Sets(assignments[..n], registry, row, values)
      case Err(error) => AssignmentFails(assignments[..n], registry, row, error)
  {
    hide EvalBound;
    if n > 0 {
      AssignedSets(assignments, registry, row, n - 1);
      var before := Assigned(assignments, registry, row, n - 1);
      assert assignments[..n][..n-1] == assignments[..n-1];
      if before.Err? {
        StillFails(assignments[..n], registry, row, before.error);
      } else {
        OneSet(assignments[..n], registry, row, before.value);
      }
    }
  }

  lemma StillFails(assignments: seq<Assignment>, registry: Registry, row: Tuple, error: DmlError)
    requires assignments != [] && AssignmentFails(assignments[..|assignments|-1], registry, row, error)
    ensures AssignmentFails(assignments, registry, row, error)
  {
    hide EvalBound;
    var init := assignments[..|assignments|-1];
    assert forall k :: 0 <= k < |init| ==>
      AssignedValue(init, registry, row, k) == AssignedValue(assignments, registry, row, k);
  }

  /** One assignment more. */
  lemma OneSet(assignments: seq<Assignment>, registry: Registry, row: Tuple, values: Tuple)
    requires assignments != [] && assignments[|assignments|-1].column < |row|
    requires Sets(assignments[..|assignments|-1], registry, row, values)
    ensures var n := |assignments| - 1;
      match AssignedValue(assignments, registry, row, n)
      case Fail(error) => AssignmentFails(assignments, registry, row, EvalFailed(error))
      case Val(v) => Sets(assignments, registry, row, values[assignments[n].column := v])
  {
    hide EvalBound;
    var n := |assignments| - 1;
    var init, at := assignments[..n], assignments[n].column;
    assert forall k :: 0 <= k < n ==>
      AssignedValue(init, registry, row, k) == AssignedValue(assignments, registry, row, k);
    var v := AssignedValue(assignments, registry, row, n);
    if v.Val? {
      var after := values[at := v.value];
      forall k: nat | LastFor(Targets(assignments), k) && assignments[k].column < |row|
        ensures AssignedValue(assignments, registry, row, k) == Val(after[assignments[k].column])
      {
        if k < n {
          assert Targets(assignments)[n] == at;
          assert LastFor(Targets(init), k);
        }
      }
      forall i | 0 <= i < |row| && i !in Targets(assignments) ensures after[i] == row[i] {
        assert at == Targets(assignments)[n];
        assert forall k :: 0 <= k < n ==> Targets(init)[k] == Targets(assignments)[k];
      }
    }
  }

  /** What an UPDATE makes of a row, or why it fails on it. */
  lemma UpdatedRowMeans(schema: Schema, registry: Registry, assignments: seq<Assignment>,
                        condition: Option<BoundExpr>, row: Tuple)
    requires forall k :: 0 <= k < |assignments| ==> assignments[k].column < |row|
    ensures match UpdatedRow(schema, registry, assignments, condition, row)
      case Ok(change) => RowUpdates(schema, registry, assignments, condition, row, change)
      case Err(error) => UpdateFails(schema, registry, assignments, condition, row, error)
  {
    hide Matches, IsTrue, IsNotTrue, ConditionFails, Sets, AssignmentFails, Fitting, RowOk, Assigned, NewTuple;
    MatchesMeans(condition, registry, row);
    AssignedSets(assignments, registry, row, |assignments|);
    assert assignments[..|assignments|] == assignments;
    var values := Assigned(assignments, registry, row, |assignments|);
    if values.Ok? {
      NewTupleMeans(schema, values.value);
    }
  }

  lemma {:induction false} LastNamed(columns: seq<nat>, c: nat) returns (k: nat)
    requires c in columns
    ensures LastFor(columns, k) && columns[k] == c
  {
    k := |columns| - 1;
    while columns[k] != c
      invariant k < |columns| && (forall j :: k < j < |columns| ==> columns[j] != c)
      decreases k
    {
      k := k - 1;
    }
  }

  /** The outcome of an UPDATE on a row is determined. */
  lemma UpdatesOnce(schema: Schema, registry: Registry, assignments: seq<Assignment>, condition: Option<BoundExpr>,
                    row: Tuple, a: Option<Tuple>, b: Option<Tuple>, error: DmlError)
    requires RowUpdates(schema, registry, assignments, condition, row, a)
    ensures RowUpdates(schema, registry, assignments, condition, row, b) ==> a == b
    ensures !UpdateFails(schema, registry, assignments, condition, row, error)
  {
    hide EvalBound, Fitting;
    if a.Some? {
      forall after: Tuple | Sets(assignments, registry, row, after) ensures after == a.value {
        SetOnce(assignments, registry, row, a.value, after);
      }
    }
  }

  lemma SetOnce(assignments: seq<Assignment>, registry: Registry, row: Tuple, a: Tuple, b: Tuple)
    requires Sets(assignments, registry, row, a) && Sets(assignments, registry, row, b)
    ensures a == b
  {
    hide EvalBound;
    forall i | 0 <= i < |row| ensures a[i] == b[i] {
      if i in Targets(assignments) {
        var k := LastNamed(Targets(assignments), i);
        assert assignments[k].column == i;
      }
    }
  }

  ghost predicate Assignable(schema: Schema, assignments: seq<Assignment>) {
    forall k :: 0 <= k < |assignments| ==> assignments[k].column < |schema|
  }

  /** The plan of an UPDATE for all rows, up to the first row that fails. */
  function UpdatePlan(schema: Schema, registry: Registry, assignments: seq<Assignment>, condition: Option<BoundExpr>,
                      rows: seq<Tuple>): (r: Result<seq<Option<Tuple>>, DmlError>)
    requires Assignable(schema, assignments) && RowsOk(schema, rows)
    ensures r.Ok? ==> |r.value| == |rows|
  {
    if rows == [] then Ok([])
    else
      match UpdatePlan(schema, registry, assignments, condition, rows[..|rows|-1])
      case Err(error) => Err(error)
      case Ok(plan) =>
        assert RowOk(schema, rows[|rows|-1]);
        match UpdatedRow(schema, registry, assignments, condition, rows[|rows|-1])
        case Err(error) => Err(error)
        case Ok(change) => Ok(plan + [change])
  }

  /** The rows after an update. */
  function Patched(rows: seq<Tuple>, plan: seq<Option<Tuple>>): (r: seq<Tuple>)
    requires |plan| == |rows|
    ensures |r| == |rows| && forall i :: 0 <= i < |rows| ==> r[i] == if plan[i].Some? then plan[i].value else rows[i]
  {
    seq(|rows|, i requires 0 <= i < |rows| => if plan[i].Some? then plan[i].value else rows[i])
  }

  function Untouched(rows: seq<Tuple>, plan: seq<Option<Tuple>>): seq<Tuple>
    requires |plan| == |rows|
  {
    if rows == [] then []
    else Untouched(rows[..|rows|-1], plan[..|plan|-1]) + if plan[|plan|-1].Some? then [] else [rows[|rows|-1]]
  }

  function NewRows(plan: seq<Option<Tuple>>): seq<Tuple> {
    if plan == [] then []
    else NewRows(plan[..|plan|-1]) + if plan[|plan|-1].Some? then [plan[|plan|-1].value] else []
  }

  /** Whether each row is to be deleted, up to the first row that fails. */
  function DeletePlan(registry: Registry, condition: Option<BoundExpr>,
                      rows: seq<Tuple>): (r: Result<seq<bool>, DmlError>)
    ensures r.Ok? ==> |r.value| == |rows|
  {
    if rows == [] then Ok([])
    else
      match DeletePlan(registry, condition, rows[..|rows|-1])
      case Err(error) => Err(error)
      case Ok(plan) =>
        match Matches(condition, registry, rows[|rows|-1])
        case Err(error) => Err(error)
        case Ok(matched) => Ok(plan + [matched])
  }

  function Chosen(rows: seq<Tuple>, plan: seq<bool>, which: bool): seq<Tuple>
    requires |plan| == |rows|
  {
    if rows == [] then []
    else Chosen(rows[..|rows|-1], plan[..|plan|-1], which) + if plan[|plan|-1] == which then [rows[|rows|-1]] else []
  }

  // ---- Expanding VALUES to the schema

  /** Values for the named columns, NULL for the others. */
  function Expanded(width: nat, columns: seq<nat>, values: seq<Value>): (full: seq<Value>)
    requires |columns| == |values| && forall k :: 0 <= k < |columns| ==> columns[k] < width
    ensures |full| == width
  {
    if columns == [] then seq(width, _ => Null)
    else Expanded(width, columns[..|columns|-1], values[..|values|-1])[columns[|columns|-1] := values[|values|-1]]
  }

  /** Every named column gets its value, whatever the order they are named in. */
  lemma {:induction false} ExpandedMeans(width: nat, columns: seq<nat>, values: seq<Value>)
    requires |columns| == |values| && forall k :: 0 <= k < |columns| ==> columns[k] < width
    requires forall j, k :: 0 <= j < k < |columns| ==> columns[j] != columns[k]
    ensures forall k :: 0 <= k < |columns| ==> Expanded(width, columns, values)[columns[k]] == values[k]
    ensures forall i :: 0 <= i < width && i !in columns ==> Expanded(width, columns, values)[i] == Null
  {
    if columns != [] {
      var n := |columns| - 1;
      ExpandedMeans(width, columns[..n], values[..n]);
      forall i | 0 <= i < width && i !in columns ensures Expanded(width, columns, values)[i] == Null {
        assert i !in columns[..n] && columns[n] in columns;
      }
    }
  }

  /** The same if a column is named more than once: the last one counts. */
  lemma {:induction false} ExpandedPlaces(schema: Schema, columns: seq<nat>, values: seq<Value>)
    requires |columns| == |values| && forall k :: 0 <= k < |columns| ==> columns[k] < |schema|
    ensures Placed(schema, Some(columns), values, Expanded(|schema|, columns, values))
  {
    hide Placed;
    if columns == [] {
      NonePlaced(schema);
    } else {
      var n := |columns| - 1;
      ExpandedPlaces(schema, columns[..n], values[..n]);
      OnePlaced(schema, columns, values, Expanded(|schema|, columns[..n], values[..n]));
    }
  }

  lemma NonePlaced(schema: Schema)
    ensures Placed(schema, Some([]), [], seq(|schema|, _ => Null))
  {
  }

  lemma OnePlaced(schema: Schema, columns: seq<nat>, values: seq<Value>, before: Tuple)
    requires columns != [] && |columns| == |values| && columns[|columns|-1] < |schema|
    requires Placed(schema, Some(columns[..|columns|-1]), values[..|columns|-1], before)
    ensures Placed(schema, Some(columns), values, before[columns[|columns|-1] := values[|columns|-1]])
  {
    var n := |columns| - 1;
    var init, t := columns[..n], before[columns[n] := values[n]];
    forall k: nat | LastFor(columns, k) && columns[k] < |t| ensures t[columns[k]] == values[k] {
      if k < n {
        assert LastFor(init, k);
        assert columns[n] != columns[k];
      }
    }
    forall i | 0 <= i < |t| && i !in columns ensures t[i] == Null {
      assert i !in init && columns[n] in columns;
    }
  }

  predicate ColumnsOk(schema: Schema, columns: Option<seq<nat>>) {
    columns.Some? ==> forall k :: 0 <= k < |columns.value| ==> columns.value[k] < |schema|
  }

  function InsertRow(schema: Schema, registry: Registry, columns: Option<seq<nat>>,
                     exprs: seq<Expr>): (r: Result<Tuple, DmlError>)
    requires ColumnsOk(schema, columns)
    ensures r.Ok? ==> RowOk(schema, r.value)
  {
    match EvalAll(exprs, registry, None)
    case Failed(error) => Err(EvalFailed(error))
    case Values(values) =>
      if columns.None? then NewTuple(schema, values)
      else if |columns.value| != |values| then Err(ColumnCount)
      else NewTuple(schema, Expanded(|schema|, columns.value, values))
  }

  /** The row an INSERT stores, or why it fails on it. */
  lemma InsertRowMeans(schema: Schema, registry: Registry, columns: Option<seq<nat>>, exprs: seq<Expr>)
    requires ColumnsOk(schema, columns)
    ensures match InsertRow(schema, registry, columns, exprs)
      case Ok(t) => RowInserted(schema, registry, columns, exprs, t)
      case Err(error) => InsertFails(schema, registry, columns, exprs, error)
  {
    hide Eval, Fitting, RowOk, NewTuple, Expanded, Placed;
    EvalAllMeans(exprs, registry, None);
    match EvalAll(exprs, registry, None)
    case Failed(error) =>
      FirstExpressionFails(exprs, registry, error);
    case Values(values) =>
      assert Evaluates(exprs, registry, values);
      if columns.None? {
        NewTupleMeans(schema, values);
        AsListed(schema, values);
      } else if |columns.value| == |values| {
        ExpandedPlaces(schema, columns.value, values);
        NewTupleMeans(schema, Expanded(|schema|, columns.value, values));
      }
  }

  lemma AsListed(schema: Schema, values: seq<Value>)
    ensures Placed(schema, None, values, values)
  {
  }

  lemma FirstExpressionFails(exprs: seq<Expr>, registry: Registry, error: EvalError)
    requires InTurn(Each(exprs, registry, None), Failed(error))
    ensures ExpressionFails(exprs, registry, EvalFailed(error))
  {
    hide Eval;
    var each := Each(exprs, registry, None);
    var k :| 0 <= k < |each| && each[k] == Fail(error) && forall j :: 0 <= j < k ==> each[j].Val?;
    assert forall j :: 0 <= j < k ==> Eval(exprs[j], registry, None) == each[j];
  }

  /** `plan_insert_rows` */
  function InsertPlan(schema: Schema, registry: Registry, columns: Option<seq<nat>>,
                      rows: seq<seq<Expr>>): (r: Result<seq<Tuple>, DmlError>)
    requires ColumnsOk(schema, columns)
    ensures r.Ok? ==> RowsOk(schema, r.value)
  {
    if rows == [] then Ok([])
    else
      match InsertPlan(schema, registry, columns, rows[..|rows|-1])
      case Err(error) => Err(error)
      case Ok(planned) =>
        match InsertRow(schema, registry, columns, rows[|rows|-1])
        case Err(error) => Err(error)
        case Ok(tuple) => Ok(planned + [tuple])
  }

  // ---- The plans row by row

  /** The first row that fails, fails with this error. */
  ghost predicate FirstFailure<T>(steps: seq<Result<T, DmlError>>, error: DmlError) {
    exists i :: 0 <= i < |steps| && steps[i] == Err(error) && forall j :: 0 <= j < i ==> steps[j].Ok?
  }

  function InsertSteps(schema: Schema, registry: Registry, columns: Option<seq<nat>>, rows: seq<seq<Expr>>)
    : (steps: seq<Result<Tuple, DmlError>>)
    requires ColumnsOk(schema, columns)
    ensures |steps| == |rows|
    ensures forall i :: 0 <= i < |rows| ==> steps[i] == InsertRow(schema, registry, columns, rows[i])
  {
    seq(|rows|, i requires 0 <= i < |rows| => InsertRow(schema, registry, columns, rows[i]))
  }

  /** The plan of an INSERT step by step. */
  lemma {:induction false} InsertPlanSteps(schema: Schema, registry: Registry, columns: Option<seq<nat>>,
                                           rows: seq<seq<Expr>>)
    requires ColumnsOk(schema, columns)
    ensures var r := InsertPlan(schema, registry, columns, rows);
      match r
      case Ok(planned) =>
        |planned| == |rows| && forall i :: 0 <= i < |rows| ==>
          InsertRow(schema, registry, columns, rows[i]) == Ok(planned[i])
      case Err(error) => FirstFailure(InsertSteps(schema, registry, columns, rows), error)
  {
    hide InsertRow, RowOk, RowsOk, FirstFailure;
    if rows != [] {
      var n := |rows| - 1;
      InsertPlanSteps(schema, registry, columns, rows[..n]);
      var steps := InsertSteps(schema, registry, columns, rows);
      assert steps[..n] == InsertSteps(schema, registry, columns, rows[..n]);
      StillFirst(steps, n);
      var before := InsertPlan(schema, registry, columns, rows[..n]);
      assert before.Ok? ==> forall i :: 0 <= i < n ==> steps[i] == steps[..n][i];
    }
  }

  /** All rows of the VALUES as they are stored, or the error of the first one that fails. */
  lemma {:induction false} InsertPlanMeans(schema: Schema, registry: Registry, columns: Option<seq<nat>>,
                                           rows: seq<seq<Expr>>)
    requires ColumnsOk(schema, columns)
    ensures match InsertPlan(schema, registry, columns, rows)
      case Ok(planned) =>
        |planned| == |rows| && forall i :: 0 <= i < |rows| ==>
          RowInserted(schema, registry, columns, rows[i], planned[i])
      case Err(error) => InsertEndsWith(schema, registry, columns, rows, error)
  {
    hide InsertRow, InsertPlan, InsertFails, RowInserted;
    InsertPlanSteps(schema, registry, columns, rows);
    forall i | 0 <= i < |rows|
      ensures var r := InsertRow(schema, registry, columns, rows[i]);
        if r.Ok? then RowInserted(schema, registry, columns, rows[i], r.value)
        else InsertFails(schema, registry, columns, rows[i], r.error)
    {
      InsertRowMeans(schema, registry, columns, rows[i]);
    }
    var steps := InsertSteps(schema, registry, columns, rows);
    var plan := InsertPlan(schema, registry, columns, rows);
    if plan.Err? {
      var i :| 0 <= i < |steps| && steps[i] == Err(plan.error) && forall j :: 0 <= j < i ==> steps[j].Ok?;
      forall j | 0 <= j < i ensures Insertable(schema, registry, columns, rows[j]) {
        assert steps[j] == Ok(steps[j].value) && RowInserted(schema, registry, columns, rows[j], steps[j].value);
      }
      InsertEndsAt(schema, registry, columns, rows, plan.error, i);
    }
  }

  lemma InsertEndsAt(schema: Schema, registry: Registry, columns: Option<seq<nat>>, rows: seq<seq<Expr>>,
                     error: DmlError, i: nat)
    requires i < |rows| && InsertFails(schema, registry, columns, rows[i], error)
    requires forall j :: 0 <= j < i ==> Insertable(schema, registry, columns, rows[j])
    ensures InsertEndsWith(schema, registry, columns, rows, error)
  {
    hide InsertFails, Insertable;
  }

  /** A first failure among the first rows is the first failure of all. */
  lemma StillFirst<T>(steps: seq<Result<T, DmlError>>, n: nat)
    requires n < |steps|
    ensures forall error :: FirstFailure(steps[..n], error) ==> FirstFailure(steps, error)
    ensures (forall j :: 0 <= j < n ==> steps[j].Ok?) && steps[n].Err? ==> FirstFailure(steps, steps[n].error)
  {
    forall error | FirstFailure(steps[..n], error) ensures FirstFailure(steps, error) {
      var i :| 0 <= i < n && steps[..n][i] == Err(error) && forall j :: 0 <= j < i ==> steps[..n][j].Ok?;
      assert forall j :: 0 <= j < i ==> steps[j] == steps[..n][j];
      assert steps[i] == Err(error);
    }
  }

  function UpdateSteps(schema: Schema, registry: Registry, assignments: seq<Assignment>, condition: Option<BoundExpr>,
                       rows: seq<Tuple>): (steps: seq<Result<Option<Tuple>, DmlError>>)
    requires Assignable(schema, assignments) && forall i :: 0 <= i < |rows| ==> |rows[i]| == |schema|
    ensures |steps| == |rows|
    ensures forall i :: 0 <= i < |rows| ==> steps[i] == UpdatedRow(schema, registry, assignments, condition, rows[i])
  {
    seq(|rows|, i requires 0 <= i < |rows| => UpdatedRow(schema, registry, assignments, condition, rows[i]))
  }

  lemma RowWidths(schema: Schema, rows: seq<Tuple>)
    requires RowsOk(schema, rows)
    ensures forall i :: 0 <= i < |rows| ==> |rows[i]| == |schema|
  {
    hide RowOk;
    forall i | 0 <= i < |rows| ensures |rows[i]| == |schema| {
      RowWidth(schema, rows[i]);
    }
  }

  lemma FirstRowsOk(schema: Schema, rows: seq<Tuple>, n: nat)
    requires RowsOk(schema, rows) && n <= |rows|
    ensures RowsOk(schema, rows[..n])
  {
    hide RowOk;
  }

  /** The plan of an UPDATE step by step. */
  lemma {:induction false} UpdatePlanSteps(schema: Schema, registry: Registry, assignments: seq<Assignment>,
                                           condition: Option<BoundExpr>, rows: seq<Tuple>)
    requires Assignable(schema, assignments) && RowsOk(schema, rows)
    ensures forall i :: 0 <= i < |rows| ==> |rows[i]| == |schema|
    ensures var steps := UpdateSteps(schema, registry, assignments, condition, rows);
      match UpdatePlan(schema, registry, assignments, condition, rows)
      case Ok(plan) => |plan| == |rows| && forall i :: 0 <= i < |rows| ==> steps[i] == Ok(plan[i])
      case Err(error) => FirstFailure(steps, error)
  {
    hide UpdatedRow, RowOk, RowsOk, FirstFailure, Assignable;
    RowWidths(schema, rows);
    if rows != [] {
      var n := |rows| - 1;
      FirstRowsOk(schema, rows, n);
      UpdatePlanSteps(schema, registry, assignments, condition, rows[..n]);
      var steps := UpdateSteps(schema, registry, assignments, condition, rows);
      assert steps[..n] == UpdateSteps(schema, registry, assignments, condition, rows[..n]);
      StillFirst(steps, n);
      var before := UpdatePlan(schema, registry, assignments, condition, rows[..n]);
      assert before.Ok? ==> forall i :: 0 <= i < n ==> steps[i] == steps[..n][i];
    }
  }

  /** What an UPDATE makes of every row, or the error of the first row that fails. */
  lemma {:induction false} UpdatePlanMeans(schema: Schema, registry: Registry, assignments: seq<Assignment>,
                        condition: Option<BoundExpr>, rows: seq<Tuple>)
    requires Assignable(schema, assignments) && RowsOk(schema, rows)
    ensures match UpdatePlan(schema, registry, assignments, condition, rows)
      case Ok(plan) =>
        |plan| == |rows| && forall i :: 0 <= i < |rows| ==>
          RowUpdates(schema, registry, assignments, condition, rows[i], plan[i])
      case Err(error) => UpdateEndsWith(schema, registry, assignments, condition, rows, error)
  {
    hide UpdatedRow, UpdatePlan, RowOk, RowsOk, UpdateFails, RowUpdates;
    RowWidths(schema, rows);
    UpdatePlanSteps(schema, registry, assignments, condition, rows);
    forall i | 0 <= i < |rows|
      ensures var r := UpdatedRow(schema, registry, assignments, condition, rows[i]);
        if r.Ok? then RowUpdates(schema, registry, assignments, condition, rows[i], r.value)
        else UpdateFails(schema, registry, assignments, condition, rows[i], r.error)
    {
      UpdatedRowMeans(schema, registry, assignments, condition, rows[i]);
    }
    var steps := UpdateSteps(schema, registry, assignments, condition, rows);
    var plan := UpdatePlan(schema, registry, assignments, condition, rows);
    if plan.Err? {
      var i :| 0 <= i < |steps| && steps[i] == Err(plan.error) && forall j :: 0 <= j < i ==> steps[j].Ok?;
      forall j | 0 <= j < i ensures Updatable(schema, registry, assignments, condition, rows[j]) {
        assert steps[j] == Ok(steps[j].value) && RowUpdates(schema, registry, assignments, condition, rows[j],
                                                            steps[j].value);
      }
      UpdateEndsAt(schema, registry, assignments, condition, rows, plan.error, i);
    }
  }

  lemma UpdateEndsAt(schema: Schema, registry: Registry, assignments: seq<Assignment>, condition: Option<BoundExpr>,
                     rows: seq<Tuple>, error: DmlError, i: nat)
    requires i < |rows| && UpdateFails(schema, registry, assignments, condition, rows[i], error)
    requires forall j :: 0 <= j < i ==> Updatable(schema, registry, assignments, condition, rows[j])
    ensures UpdateEndsWith(schema, registry, assignments, condition, rows, error)
  {
    hide UpdateFails, Updatable;
  }

  /** What an UPDATE leaves of a row: the row itself if the condition is not TRUE, and the row with the assignments
      carried out if it is. */
  ghost predicate UpdatesTo(schema: Schema, registry: Registry, assignments: seq<Assignment>,
                            condition: Option<BoundExpr>, row: Tuple, after: Tuple) {
    || (IsNotTrue(condition, registry, row) && after == row)
    || (IsTrue(condition, registry, row) && Sets(assignments, registry, row, after) && Fitting(schema, after))
  }

  lemma PatchedMeans(schema: Schema, registry: Registry, assignments: seq<Assignment>,
                     condition: Option<BoundExpr>, rows: seq<Tuple>)
    requires Assignable(schema, assignments) && RowsOk(schema, rows)
    requires UpdatePlan(schema, registry, assignments, condition, rows).Ok?
    ensures var plan := UpdatePlan(schema, registry, assignments, condition, rows).value;
      && (forall i :: 0 <= i < |rows| ==>
            UpdatesTo(schema, registry, assignments, condition, rows[i], Patched(rows, plan)[i]))
      && |NewRows(plan)| == |Matching(condition, registry, rows)|
  {
    hide RowOk, RowsOk, Assignable, UpdatePlan, Sets, Fitting, IsTrue, IsNotTrue, NewRows;
    UpdatePlanMeans(schema, registry, assignments, condition, rows);
    var plan := UpdatePlan(schema, registry, assignments, condition, rows).value;
    var marks := seq(|plan|, i requires 0 <= i < |plan| => plan[i].Some?);
    NewRowsCount(plan, marks);
    forall i | 0 <= i < |rows| ensures marks[i] <==> IsTrue(condition, registry, rows[i]) {
      OneOrOther(condition, registry, rows[i]);
    }
    assert Marked(marks) == Matching(condition, registry, rows);
  }

  lemma OneOrOther(condition: Option<BoundExpr>, registry: Registry, row: Tuple)
    ensures !(IsTrue(condition, registry, row) && IsNotTrue(condition, registry, row))
  {
    hide EvalBound;
  }

  ghost function Marked(marks: seq<bool>): set<nat> {
    set i: nat | i < |marks| && marks[i]
  }

  lemma OneMark(marks: seq<bool>)
    requires marks != []
    ensures |Marked(marks)| == |Marked(marks[..|marks|-1])| + if marks[|marks|-1] then 1 else 0
  {
    var n := |marks| - 1;
    assert Marked(marks) == Marked(marks[..n]) + if marks[n] then {n} else {};
  }

  lemma {:induction false} NewRowsCount(plan: seq<Option<Tuple>>, marks: seq<bool>)
    requires |marks| == |plan| && forall i :: 0 <= i < |plan| ==> marks[i] == plan[i].Some?
    ensures |NewRows(plan)| == |Marked(marks)|
  {
    if plan != [] {
      NewRowsCount(plan[..|plan|-1], marks[..|plan|-1]);
      OneMark(marks);
    }
  }

  lemma {:induction false} ChosenCount(rows: seq<Tuple>, plan: seq<bool>)
    requires |plan| == |rows|
    ensures |Chosen(rows, plan, true)| == |Marked(plan)|
  {
    if rows != [] {
      ChosenCount(rows[..|rows|-1], plan[..|rows|-1]);
      OneMark(plan);
    }
  }

  function DeleteSteps(registry: Registry, condition: Option<BoundExpr>,
                       rows: seq<Tuple>): (steps: seq<Result<bool, DmlError>>)
    ensures |steps| == |rows|
    ensures forall i :: 0 <= i < |rows| ==> steps[i] == Matches(condition, registry, rows[i])
  {
    seq(|rows|, i requires 0 <= i < |rows| => Matches(condition, registry, rows[i]))
  }

  /** The plan of a DELETE step by step. */
  lemma {:induction false} DeletePlanSteps(registry: Registry, condition: Option<BoundExpr>, rows: seq<Tuple>)
    ensures var steps := DeleteSteps(registry, condition, rows);
      match DeletePlan(registry, condition, rows)
      case Ok(plan) => |plan| == |rows| && forall i :: 0 <= i < |rows| ==> steps[i] == Ok(plan[i])
      case Err(error) => FirstFailure(steps, error)
  {
    hide Matches, FirstFailure;
    if rows != [] {
      var n := |rows| - 1;
      DeletePlanSteps(registry, condition, rows[..n]);
      var steps := DeleteSteps(registry, condition, rows);
      assert steps[..n] == DeleteSteps(registry, condition, rows[..n]);
      StillFirst(steps, n);
      var before := DeletePlan(registry, condition, rows[..n]);
      assert before.Ok? ==> forall i :: 0 <= i < n ==> steps[i] == steps[..n][i];
    }
  }

  /** Whether the condition is TRUE for every row, or the error of the first row that fails. */
  lemma {:induction false} DeletePlanMeans(registry: Registry, condition: Option<BoundExpr>, rows: seq<Tuple>)
    ensures match DeletePlan(registry, condition, rows)
      case Ok(plan) =>
        |plan| == |rows| && forall i :: 0 <= i < |rows| ==>
          if plan[i] then IsTrue(condition, registry, rows[i]) else IsNotTrue(condition, registry, rows[i])
      case Err(error) => DeleteEndsWith(registry, condition, rows, error)
  {
    hide Matches, DeletePlan, IsTrue, IsNotTrue, ConditionFails;
    DeletePlanSteps(registry, condition, rows);
    var steps := DeleteSteps(registry, condition, rows);
    forall i | 0 <= i < |rows|
      ensures steps[i] == Ok(true) <==> IsTrue(condition, registry, rows[i])
      ensures steps[i] == Ok(false) <==> IsNotTrue(condition, registry, rows[i])
      ensures steps[i].Err? ==> ConditionFails(condition, registry, rows[i], steps[i].error)
    {
      MatchesMeans(condition, registry, rows[i]);
    }
    var plan := DeletePlan(registry, condition, rows);
    if plan.Err? {
      var i :| 0 <= i < |steps| && steps[i] == Err(plan.error) && forall j :: 0 <= j < i ==> steps[j].Ok?;
      assert ConditionFails(condition, registry, rows[i], plan.error);
      forall j | 0 <= j < i ensures IsTrue(condition, registry, rows[j]) || IsNotTrue(condition, registry, rows[j]) {
        SureMatch(condition, registry, rows[j], steps[j]);
      }
    }
  }

  /** `picked` holds, in their order, the rows at the indices `at` of a list. */
  ghost predicate Picks(rows: seq<Tuple>, at: seq<nat>, picked: seq<Tuple>) {
    && |at| == |picked|
    && (forall k :: 0 <= k < |at| ==> at[k] < |rows| && picked[k] == rows[at[k]])
    && forall j, k :: 0 <= j < k < |at| ==> at[j] < at[k]
  }

  /** The rows chosen by a plan are, in their order, exactly those at which the plan says so. */
  lemma {:induction false} ChosenMeans(rows: seq<Tuple>, plan: seq<bool>, which: bool) returns (at: seq<nat>)
    requires |plan| == |rows|
    ensures Picks(rows, at, Chosen(rows, plan, which))
    ensures forall i: nat :: i in at <==> i < |rows| && plan[i] == which
  {
    if rows == [] {
      at := [];
    } else {
      var n := |rows| - 1;
      at := ChosenMeans(rows[..n], plan[..n], which);
      assert forall k :: 0 <= k < |at| ==> at[k] in at;
      if plan[n] == which {
        at := at + [n];
      }
    }
  }

  /** After a DELETE exactly the rows whose condition is not TRUE are left, in their order. */
  ghost predicate Remain(registry: Registry, condition: Option<BoundExpr>, rows: seq<Tuple>, left: seq<Tuple>) {
    exists at :: Picks(rows, at, left) &&
      forall i: nat :: i < |rows| ==>
        if i in at then IsNotTrue(condition, registry, rows[i]) else IsTrue(condition, registry, rows[i])
  }

  lemma KeptMeans(registry: Registry, condition: Option<BoundExpr>, rows: seq<Tuple>)
    requires DeletePlan(registry, condition, rows).Ok?
    ensures var plan := DeletePlan(registry, condition, rows).value;
      && Remain(registry, condition, rows, Chosen(rows, plan, false))
      && |Chosen(rows, plan, true)| == |Matching(condition, registry, rows)|
  {
    hide DeletePlan, Chosen, Picks, IsTrue, IsNotTrue;
    DeletePlanMeans(registry, condition, rows);
    var plan := DeletePlan(registry, condition, rows).value;
    var at := ChosenMeans(rows, plan, false);
    ChosenCount(rows, plan);
    forall i | 0 <= i < |rows| ensures plan[i] <==> IsTrue(condition, registry, rows[i]) {
      OneOrOther(condition, registry, rows[i]);
    }
    assert Marked(plan) == Matching(condition, registry, rows);
  }

  // ---- Undo as steps on multisets

  /** The record can be taken back: the row it left is there. */
  predicate Present(r: UndoRecord, rows: multiset<Tuple>) {
    match r
    case Inserted(_, tuple) => tuple in rows
    case Deleted(_, _) => true
    case Updated(_, _, after) => after in rows
  }

  function TakenBack(r: UndoRecord, rows: multiset<Tuple>): multiset<Tuple> {
    match r
    case Inserted(_, tuple) => rows - multiset{tuple}
    case Deleted(_, tuple) => rows + multiset{tuple}
    case Updated(_, before, after) => rows - multiset{after} + multiset{before}
  }

  /** Taking back the records of one table from the last to the first leads from its rows now to its rows at the
      start. */
  ghost predicate Unwinds(now: multiset<Tuple>, undo: seq<UndoRecord>, id: TableId, start: multiset<Tuple>)
    decreases |undo|
  {
    if undo == [] then now == start
    else
      var r := undo[|undo|-1];
      if r.table != id then Unwinds(now, undo[..|undo|-1], id, start)
      else Present(r, now) && Unwinds(TakenBack(r, now), undo[..|undo|-1], id, start)
  }

  lemma OneMoreRecord(now: multiset<Tuple>, undo: seq<UndoRecord>, r: UndoRecord, id: TableId, start: multiset<Tuple>)
    requires if r.table == id then Present(r, now) && Unwinds(TakenBack(r, now), undo, id, start)
        else Unwinds(now, undo, id, start)
    ensures Unwinds(now, undo + [r], id, start)
  {
    assert (undo + [r])[..|undo|] == undo;
  }

  lemma LastCounts(s: seq<Tuple>)
    requires s != []
    ensures multiset(s) == multiset(s[..|s|-1]) + multiset{s[|s|-1]}
  {
    assert s == s[..|s|-1] + [s[|s|-1]];
  }

  lemma FirstCounts(s: seq<Tuple>)
    requires s != []
    ensures multiset(s) == multiset{s[0]} + multiset(s[1..])
  {
    assert s == [s[0]] + s[1..];
  }

  function InsertRecords(id: TableId, tuples: seq<Tuple>): (rs: seq<UndoRecord>)
    ensures |rs| == |tuples| && forall i :: 0 <= i < |tuples| ==> rs[i] == Inserted(id, tuples[i])
  {
    seq(|tuples|, i requires 0 <= i < |tuples| => Inserted(id, tuples[i]))
  }

  function DeleteRecords(id: TableId, tuples: seq<Tuple>): (rs: seq<UndoRecord>)
    ensures |rs| == |tuples| && forall i :: 0 <= i < |tuples| ==> rs[i] == Deleted(id, tuples[i])
  {
    seq(|tuples|, i requires 0 <= i < |tuples| => Deleted(id, tuples[i]))
  }

  function UpdateRecords(id: TableId, rows: seq<Tuple>, plan: seq<Option<Tuple>>): seq<UndoRecord>
    requires |plan| == |rows|
  {
    if rows == [] then []
    else
      UpdateRecords(id, rows[..|rows|-1], plan[..|plan|-1]) +
      if plan[|plan|-1].Some? then [Updated(id, rows[|rows|-1], plan[|plan|-1].value)] else []
  }

  /** Records of another table change nothing for this one. */
  lemma {:induction false} OtherTable(now: multiset<Tuple>, undo: seq<UndoRecord>, more: seq<UndoRecord>, id: TableId,
                                      start: multiset<Tuple>)
    requires Unwinds(now, undo, id, start) && forall i :: 0 <= i < |more| ==> more[i].table != id
    ensures Unwinds(now, undo + more, id, start)
  {
    hide Unwinds;
    if more == [] {
      assert undo + more == undo;
    } else {
      OtherTable(now, undo, more[..|more|-1], id, start);
      OneMoreRecord(now, undo + more[..|more|-1], more[|more|-1], id, start);
      assert undo + more == undo + more[..|more|-1] + [more[|more|-1]];
    }
  }

  lemma {:induction false} UnwindsInserts(now: multiset<Tuple>, undo: seq<UndoRecord>, id: TableId, tuples: seq<Tuple>,
                                          start: multiset<Tuple>)
    requires Unwinds(now, undo, id, start)
    ensures Unwinds(now + multiset(tuples), undo + InsertRecords(id, tuples), id, start)
    decreases |tuples|
  {
    hide Unwinds;
    if tuples == [] {
      assert now + multiset(tuples) == now && undo + InsertRecords(id, tuples) == undo;
    } else {
      var n := |tuples| - 1;
      UnwindsInserts(now, undo, id, tuples[..n], start);
      LastCounts(tuples);
      var r := Inserted(id, tuples[n]);
      assert TakenBack(r, now + multiset(tuples)) == now + multiset(tuples[..n]);
      OneMoreRecord(now + multiset(tuples), undo + InsertRecords(id, tuples[..n]), r, id, start);
      assert undo + InsertRecords(id, tuples) == undo + InsertRecords(id, tuples[..n]) + [r];
    }
  }

  lemma {:induction false} UnwindsDeletes(now: multiset<Tuple>, undo: seq<UndoRecord>, id: TableId, tuples: seq<Tuple>,
                                          start: multiset<Tuple>)
    requires Unwinds(now + multiset(tuples), undo, id, start)
    ensures Unwinds(now, undo + DeleteRecords(id, tuples), id, start)
    decreases |tuples|
  {
    hide Unwinds;
    if tuples == [] {
      assert now + multiset(tuples) == now && undo + DeleteRecords(id, tuples) == undo;
    } else {
      var t, rest := tuples[0], tuples[1..];
      var r := Deleted(id, t);
      DeleteTakenBack(id, now, tuples);
      OneMoreRecord(now + multiset(rest), undo, r, id, start);
      UnwindsDeletes(now, undo + [r], id, rest, start);
      assert undo + DeleteRecords(id, tuples) == undo + [r] + DeleteRecords(id, rest);
    }
  }

  lemma DeleteTakenBack(id: TableId, now: multiset<Tuple>, tuples: seq<Tuple>)
    requires tuples != []
    ensures TakenBack(Deleted(id, tuples[0]), now + multiset(tuples[1..])) == now + multiset(tuples)
  {
    FirstCounts(tuples);
  }

  /** One row of an update after the other: rows up to the last one are new, the others still old. */
  lemma {:induction false} UnwindsUpdates(undo: seq<UndoRecord>, id: TableId, rows: seq<Tuple>,
                                          plan: seq<Option<Tuple>>, rest: multiset<Tuple>, start: multiset<Tuple>)
    requires |plan| == |rows| && Unwinds(multiset(rows) + rest, undo, id, start)
    ensures Unwinds(multiset(Patched(rows, plan)) + rest, undo + UpdateRecords(id, rows, plan), id, start)
    decreases |rows|
  {
    hide Unwinds, Patched, UpdateRecords;
    if rows == [] {
      NoUpdates(undo, id, rows, plan);
    } else {
      var n := |rows| - 1;
      var before := rows[n];
      SplitLast(rows, plan, rest);
      UnwindsUpdates(undo, id, rows[..n], plan[..n], rest + multiset{before}, start);
      var mid, records := multiset(Patched(rows[..n], plan[..n])), undo + UpdateRecords(id, rows[..n], plan[..n]);
      LastUpdate(undo, id, rows, plan);
      if plan[n].Some? {
        var after := plan[n].value;
        UpdateTakenBack(id, mid, before, after, rest);
        OneMoreRecord(mid + multiset{after} + rest, records, Updated(id, before, after), id, start);
      } else {
        assert records + [] == records;
      }
    }
  }

  lemma NoUpdates(undo: seq<UndoRecord>, id: TableId, rows: seq<Tuple>, plan: seq<Option<Tuple>>)
    requires rows == [] && plan == []
    ensures Patched(rows, plan) == rows && undo + UpdateRecords(id, rows, plan) == undo
  {
  }

  lemma LastUpdate(undo: seq<UndoRecord>, id: TableId, rows: seq<Tuple>, plan: seq<Option<Tuple>>)
    requires |plan| == |rows| && rows != []
    ensures var n := |rows| - 1;
      undo + UpdateRecords(id, rows, plan) ==
        undo + UpdateRecords(id, rows[..n], plan[..n]) +
        if plan[n].Some? then [Updated(id, rows[n], plan[n].value)] else []
  {
  }

  lemma RecordNext(undo: seq<UndoRecord>, id: TableId, rows: seq<Tuple>, plan: seq<Option<Tuple>>, i: nat)
    requires |plan| == |rows| && i < |rows|
    ensures undo + UpdateRecords(id, rows[..i+1], plan[..i+1]) ==
      undo + UpdateRecords(id, rows[..i], plan[..i]) +
      if plan[i].Some? then [Updated(id, rows[i], plan[i].value)] else []
  {
    hide UpdateRecords;
    assert rows[..i+1][..i] == rows[..i] && plan[..i+1][..i] == plan[..i];
    LastUpdate(undo, id, rows[..i+1], plan[..i+1]);
  }

  lemma UpdateTakenBack(id: TableId, mid: multiset<Tuple>, before: Tuple, after: Tuple, rest: multiset<Tuple>)
    ensures Present(Updated(id, before, after), mid + multiset{after} + rest)
    ensures TakenBack(Updated(id, before, after), mid + multiset{after} + rest) == mid + (rest + multiset{before})
  {
  }

  /** The last row before and after the update. */
  lemma SplitLast(rows: seq<Tuple>, plan: seq<Option<Tuple>>, rest: multiset<Tuple>)
    requires |plan| == |rows| && rows != []
    ensures var n := |rows| - 1; var mid := multiset(Patched(rows[..n], plan[..n]));
      && multiset(rows) + rest == multiset(rows[..n]) + (rest + multiset{rows[n]})
      && (plan[n].Some? ==> multiset(Patched(rows, plan)) + rest == mid + multiset{plan[n].value} + rest)
      && (plan[n].None? ==> multiset(Patched(rows, plan)) + rest == mid + (rest + multiset{rows[n]}))
  {
    hide Patched;
    LastCounts(rows);
    PatchedLast(rows, plan);
    LastCounts(Patched(rows, plan));
  }

  lemma PatchedLast(rows: seq<Tuple>, plan: seq<Option<Tuple>>)
    requires |plan| == |rows| && rows != []
    ensures var n := |rows| - 1;
      Patched(rows, plan) == Patched(rows[..n], plan[..n]) + [if plan[n].Some? then plan[n].value else rows[n]]
  {
  }

  // ---- Plans and multisets

  lemma {:induction false} PatchedCounts(rows: seq<Tuple>, plan: seq<Option<Tuple>>)
    requires |plan| == |rows|
    ensures multiset(Patched(rows, plan)) == multiset(Untouched(rows, plan)) + multiset(NewRows(plan))
    ensures multiset(Untouched(rows, plan)) <= multiset(rows)
  {
    hide Patched, Untouched, NewRows;
    if rows == [] {
      NoRows(plan);
    } else {
      var n := |rows| - 1;
      PatchedCounts(rows[..n], plan[..n]);
      LastCounts(rows);
      PatchedLast(rows, plan);
      LastCounts(Patched(rows, plan));
      LastUntouched(rows, plan);
    }
  }

  lemma NoRows(plan: seq<Option<Tuple>>)
    requires plan == []
    ensures Patched([], plan) == Untouched([], plan) == NewRows(plan) == []
  {
  }

  lemma LastUntouched(rows: seq<Tuple>, plan: seq<Option<Tuple>>)
    requires |plan| == |rows| && rows != []
    ensures var n := |rows| - 1;
      && multiset(Untouched(rows, plan)) ==
         multiset(Untouched(rows[..n], plan[..n])) + (if plan[n].Some? then multiset{} else multiset{rows[n]})
      && multiset(NewRows(plan)) ==
         multiset(NewRows(plan[..n])) + (if plan[n].Some? then multiset{plan[n].value} else multiset{})
  {
  }

  lemma {:induction false} ChosenCounts(rows: seq<Tuple>, plan: seq<bool>)
    requires |plan| == |rows|
    ensures multiset(rows) == multiset(Chosen(rows, plan, true)) + multiset(Chosen(rows, plan, false))
  {
    if rows != [] {
      hide Chosen;
      var n := |rows| - 1;
      ChosenCounts(rows[..n], plan[..n]);
      LastCounts(rows);
      LastChosen(rows, plan, true);
      LastChosen(rows, plan, false);
    }
  }

  lemma LastChosen(rows: seq<Tuple>, plan: seq<bool>, which: bool)
    requires |plan| == |rows| && rows != []
    ensures var n := |rows| - 1;
      multiset(Chosen(rows, plan, which)) ==
        multiset(Chosen(rows[..n], plan[..n], which)) + if plan[n] == which then multiset{rows[n]} else multiset{}
  {
  }

  lemma FewerRows(schema: Schema, rows: seq<Tuple>, fewer: seq<Tuple>)
    requires multiset(fewer) <= multiset(rows) && RowsOk(schema, rows)
    ensures RowsOk(schema, fewer)
    ensures UniqueOk(schema, rows) ==> UniqueOk(schema, fewer)
  {
    hide RowOk;
    forall i | 0 <= i < |fewer| ensures RowOk(schema, fewer[i]) {
      assert fewer[i] in multiset(fewer) && fewer[i] in multiset(rows);
    }
    UniqueByCount(schema, rows);
    UniqueByCount(schema, fewer);
    var m, m' := multiset(rows), multiset(fewer);
    assert forall t :: t in m' ==> t in m && m'[t] <= m[t];
  }

  lemma SameRows(schema: Schema, a: seq<Tuple>, b: seq<Tuple>)
    requires multiset(a) == multiset(b)
    ensures UniqueOk(schema, a) <==> UniqueOk(schema, b)
    ensures RowsOk(schema, a) <==> RowsOk(schema, b)
  {
    hide RowOk;
    UniqueByCount(schema, a);
    UniqueByCount(schema, b);
    forall i | 0 <= i < |a| && RowsOk(schema, b) ensures RowOk(schema, a[i]) {
      assert a[i] in multiset(a) && a[i] in multiset(b);
    }
    forall i | 0 <= i < |b| && RowsOk(schema, a) ensures RowOk(schema, b[i]) {
      assert b[i] in multiset(b) && b[i] in multiset(a);
    }
  }

  // ---- Tables in memory and the undo log of the running transaction

  class MemDatabase {
    const schemas: map<TableId, Schema>
    const registry: Registry
    var tables: map<TableId, seq<Tuple>>
    var undoLog: seq<UndoRecord>

    /** The rows of every table when the transaction began. */
    ghost var start: map<TableId, multiset<Tuple>>

    /** Every row fits its schema, no unique column repeats a value, and the undo log leads back to the start. */
    ghost predicate Valid()
      reads this
    {
      Consistent(schemas, tables, undoLog, start)
    }

    constructor (schemas: map<TableId, Schema>, registry: Registry)
      ensures Valid() && this.schemas == schemas && undoLog == []
      ensures forall id :: id in schemas ==> tables[id] == []
    {
      this.schemas, this.registry := schemas, registry;
      tables := map id | id in schemas :: [];
      undoLog := [];
      start := map id | id in schemas :: multiset{};
    }

    method Begin()
      requires Valid()
      modifies this`undoLog, this`start
      ensures Valid() && undoLog == [] && forall id :: id in schemas ==> start[id] == multiset(tables[id])
    {
      hide RowOk;
      undoLog := [];
      start := map id | id in schemas :: multiset(tables[id]);
      forall id | id in schemas ensures InOrder(schemas[id], tables[id], [], id, start[id]) {
        Fresh(schemas[id], tables[id], id);
      }
    }

    /** `plan_insert_rows`: evaluates and checks every row before anything is written. */
    method PlanInsertRows(schema: Schema, columns: Option<seq<nat>>, rows: seq<seq<Expr>>)
      returns (r: Result<seq<Tuple>, DmlError>)
      requires ColumnsOk(schema, columns)
      ensures r == InsertPlan(schema, registry, columns, rows)
      ensures r.Ok? ==> |r.value| == |rows| && RowsOk(schema, r.value)
      ensures r.Ok? ==>
        forall i :: 0 <= i < |rows| ==> RowInserted(schema, registry, columns, rows[i], r.value[i])
      ensures r.Err? ==> InsertEndsWith(schema, registry, columns, rows, r.error)
    {
      hide InsertRow, RowOk, RowInserted, InsertEndsWith;
      InsertPlanMeans(schema, registry, columns, rows);
      var planned: seq<Tuple> := [];
      var i := 0;
      while i < |rows|
        invariant i <= |rows| && InsertPlan(schema, registry, columns, rows[..i]) == Ok(planned)
      {
        assert rows[..i+1][..i] == rows[..i];
        var row := InsertRow(schema, registry, columns, rows[i]);
        if row.Err? {
          InsertStops(schema, registry, columns, rows, i);
          return Err(row.error);
        }
        planned := planned + [row.value];
        i := i + 1;
      }
      assert rows[..|rows|] == rows;
      r := Ok(planned);
    }

    /** INSERT adds all its rows, or none: it succeeds exactly if all rows can be built and the table stays unique. */
    method Insert(id: TableId, columns: Option<seq<nat>>, rows: seq<seq<Expr>>) returns (r: Result<nat, DmlError>)
      requires Valid() && id in schemas && ColumnsOk(schemas[id], columns)
      modifies this`tables, this`undoLog
      ensures Valid()
      ensures var plan := InsertPlan(schemas[id], registry, columns, rows);
        && (r.Ok? <==> plan.Ok? && UniqueOk(schemas[id], old(tables[id]) + plan.value))
        && (r.Ok? ==>
              && r.value == |plan.value| && tables == old(tables)[id := old(tables[id]) + plan.value]
              && undoLog == old(undoLog) + InsertRecords(id, plan.value))
        && (if plan.Err? then r == Err(plan.error) else r.Err? ==> r.error.Violates?)
      ensures r.Err? ==> tables == old(tables) && undoLog == old(undoLog)
      ensures r.Ok? ==> id in tables && r.value == |rows| && |tables[id]| == |old(tables[id])| + |rows| &&
                        forall i :: 0 <= i < |rows| ==>
                          RowInserted(schemas[id], registry, columns, rows[i], tables[id][|old(tables[id])|+i])
      ensures r.Err? && !r.error.Violates? ==> InsertEndsWith(schemas[id], registry, columns, rows, r.error)
      ensures r.Err? && r.error.Violates? ==>
        var plan := InsertPlan(schemas[id], registry, columns, rows);
        plan.Ok? && FirstViolation(schemas[id], old(tables[id]), plan.value, r.error.violation)
    {
      hide RowInserted, InsertEndsWith, FirstViolation, InsertPlan, RowOk, UniqueOk, RowsOk, ColumnFree, Unwinds,
        Consistent, InOrder;
      var schema := schemas[id];
      var planned := PlanInsertRows(schema, columns, rows);
      if planned.Err? {
        PlanErrors(schema, registry, columns, rows, [], None, [], planned.error);
        return Err(planned.error);
      }
      Known(schemas, tables, undoLog, start, id);
      CheckedIsUnique(schema, tables[id], planned.value);
      var violation := CheckUniqueness(schema, tables[id], planned.value);
      if violation.Some? {
        return Err(Violates(violation.value));
      }
      InsertKeeps(schemas, tables, undoLog, start, id, planned.value);
      undoLog := undoLog + InsertRecords(id, planned.value);
      tables := tables[id := tables[id] + planned.value];
      r := Ok(|planned.value|);
    }

    /** UPDATE changes all matching rows, or none: it succeeds exactly if every row can be computed and the table stays
        unique. */
    method Update(id: TableId, assignments: seq<Assignment>, condition: Option<BoundExpr>)
      returns (r: Result<nat, DmlError>)
      requires Valid() && id in schemas && Assignable(schemas[id], assignments)
      modifies this`tables, this`undoLog
      ensures Valid()
      ensures RowsOk(schemas[id], old(tables[id]))
      ensures var rows := old(tables[id]); var plan := UpdatePlan(schemas[id], registry, assignments, condition, rows);
        && (r.Ok? <==> plan.Ok? && UniqueOk(schemas[id], Patched(rows, plan.value)))
        && (r.Ok? ==>
              && r.value == |NewRows(plan.value)| && tables == old(tables)[id := Patched(rows, plan.value)]
              && undoLog == old(undoLog) + UpdateRecords(id, rows, plan.value))
        && (if plan.Err? then r == Err(plan.error) else r.Err? ==> r.error.Violates?)
      ensures r.Err? ==> tables == old(tables) && undoLog == old(undoLog)
      ensures r.Ok? ==> r.value == |Matching(condition, registry, old(tables[id]))|
      ensures r.Ok? ==> id in tables && |tables[id]| == |old(tables[id])| &&
                        forall i :: 0 <= i < |tables[id]| ==>
                          UpdatesTo(schemas[id], registry, assignments, condition, old(tables[id])[i], tables[id][i])
      ensures r.Err? && !r.error.Violates? ==>
                UpdateEndsWith(schemas[id], registry, assignments, condition, old(tables[id]), r.error)
      ensures r.Err? && r.error.Violates? ==>
        var rows := old(tables[id]); var plan := UpdatePlan(schemas[id], registry, assignments, condition, rows);
        plan.Ok? && FirstViolation(schemas[id], Untouched(rows, plan.value), NewRows(plan.value), r.error.violation)
    {
      hide UpdatePlan, UpdatedRow, RowOk, UniqueOk, RowsOk, ColumnFree, Unwinds, Patched, Untouched, NewRows,
        UpdateRecords, Consistent, InOrder;
      hide UpdateEndsWith, UpdatesTo, Matching, FirstViolation;
      var schema := schemas[id];
      Known(schemas, tables, undoLog, start, id);
      var rows := tables[id];
      UpdatePlanMeans(schema, registry, assignments, condition, rows);
      var planned := PlanUpdate(schema, assignments, condition, rows);
      if planned.Err? {
        PlanErrors(schema, registry, None, [], assignments, condition, rows, planned.error);
        return Err(planned.error);
      }
      var plan := planned.value;
      var others := OthersOf(rows, plan);
      var candidates := CandidatesOf(plan);
      PlanFits(schema, registry, assignments, condition, rows);
      UpdateCheck(schema, rows, plan, others, candidates);
      var violation := CheckUniqueness(schema, others, candidates);
      if violation.Some? {
        return Err(Violates(violation.value));
      }
      PatchedMeans(schema, registry, assignments, condition, rows);
      UpdateKeeps(schemas, tables, undoLog, start, id, plan);
      WriteUpdates(id, rows, plan);
      r := Ok(|candidates|);
    }

    /** The first loop of `update`: evaluates every row before anything is written. */
    method PlanUpdate(schema: Schema, assignments: seq<Assignment>, condition: Option<BoundExpr>, rows: seq<Tuple>)
      returns (r: Result<seq<Option<Tuple>>, DmlError>)
      requires Assignable(schema, assignments) && RowsOk(schema, rows)
      ensures r == UpdatePlan(schema, registry, assignments, condition, rows)
    {
      hide UpdatedRow, RowOk, Matches, Assigned;
      var plan: seq<Option<Tuple>> := [];
      var i := 0;
      while i < |rows|
        invariant i <= |rows| && RowsOk(schema, rows[..i])
        invariant UpdatePlan(schema, registry, assignments, condition, rows[..i]) == Ok(plan)
      {
        assert rows[..i+1][..i] == rows[..i];
        assert RowOk(schema, rows[i]);
        RowWidth(schema, rows[i]);
        var row := UpdatedRow(schema, registry, assignments, condition, rows[i]);
        if row.Err? {
          UpdateStops(schema, registry, assignments, condition, rows, i);
          return Err(row.error);
        }
        plan := plan + [row.value];
        i := i + 1;
      }
      assert rows[..|rows|] == rows;
      r := Ok(plan);
    }

    static method OthersOf(rows: seq<Tuple>, plan: seq<Option<Tuple>>) returns (others: seq<Tuple>)
      requires |plan| == |rows|
      ensures others == Untouched(rows, plan)
    {
      others := [];
      var i := 0;
      while i < |rows|
        invariant i <= |rows| && others == Untouched(rows[..i], plan[..i])
      {
        assert rows[..i+1][..i] == rows[..i] && plan[..i+1][..i] == plan[..i];
        if plan[i].None? {
          others := others + [rows[i]];
        }
        i := i + 1;
      }
      assert rows[..|rows|] == rows && plan[..|rows|] == plan;
    }

    static method CandidatesOf(plan: seq<Option<Tuple>>) returns (candidates: seq<Tuple>)
      ensures candidates == NewRows(plan)
    {
      candidates := [];
      var i := 0;
      while i < |plan|
        invariant i <= |plan| && candidates == NewRows(plan[..i])
      {
        assert plan[..i+1][..i] == plan[..i];
        if plan[i].Some? {
          candidates := candidates + [plan[i].value];
        }
        i := i + 1;
      }
      assert plan[..|plan|] == plan;
    }

    /** The last loop of `update`: records each change and writes it in place. */
    method WriteUpdates(id: TableId, rows: seq<Tuple>, plan: seq<Option<Tuple>>)
      requires id in tables && tables[id] == rows && |plan| == |rows|
      modifies this`tables, this`undoLog
      ensures tables == old(tables)[id := Patched(rows, plan)]
      ensures undoLog == old(undoLog) + UpdateRecords(id, rows, plan)
    {
      hide Patched, UpdateRecords;
      var i := 0;
      PatchStart(rows, plan);
      NoUpdates(undoLog, id, rows[..0], plan[..0]);
      while i < |rows|
        invariant i <= |rows| && tables == old(tables)[id := Patched(rows[..i], plan[..i]) + rows[i..]]
        invariant undoLog == old(undoLog) + UpdateRecords(id, rows[..i], plan[..i])
      {
        PatchNext(rows, plan, i);
        RecordNext(old(undoLog), id, rows, plan, i);
        if plan[i].Some? {
          undoLog := undoLog + [Updated(id, rows[i], plan[i].value)];
          tables := tables[id := tables[id][i := plan[i].value]];
        }
        i := i + 1;
      }
      assert rows[..|rows|] == rows && plan[..|rows|] == plan;
      assert Patched(rows, plan) + rows[|rows|..] == Patched(rows, plan);
    }

    /** DELETE removes all matching rows, or none: it fails only if the condition cannot be evaluated. */
    method Delete(id: TableId, condition: Option<BoundExpr>) returns (r: Result<nat, DmlError>)
      requires Valid() && id in schemas
      modifies this`tables, this`undoLog
      ensures Valid()
      ensures var rows := old(tables[id]); var plan := DeletePlan(registry, condition, rows);
        && (r.Ok? <==> plan.Ok?)
        && (r.Ok? ==>
              && r.value == |Chosen(rows, plan.value, true)| && tables ==
                  old(tables)[id := Chosen(rows, plan.value, false)]
              && undoLog == old(undoLog) + DeleteRecords(id, Chosen(rows, plan.value, true)))
        && (plan.Err? ==> r == Err(plan.error))
      ensures r.Err? ==> tables == old(tables) && undoLog == old(undoLog)
      ensures r.Ok? ==> id in tables && Remain(registry, condition, old(tables[id]), tables[id])
      ensures r.Ok? ==> r.value == |Matching(condition, registry, old(tables[id]))|
      ensures r.Err? ==> DeleteEndsWith(registry, condition, old(tables[id]), r.error)
    {
      hide Matches, RowOk, UniqueOk, RowsOk, Unwinds, DeletePlan, Chosen, Consistent, InOrder, DeleteEndsWith, Remain,
        Matching;
      Known(schemas, tables, undoLog, start, id);
      var rows := tables[id];
      DeletePlanMeans(registry, condition, rows);
      var error, kept, deleted, plan := ChooseRows(condition, rows);
      if error.Some? {
        return Err(error.value);
      }
      KeptMeans(registry, condition, rows);
      DeleteKeeps(schemas, tables, undoLog, start, id, plan);
      undoLog := undoLog + DeleteRecords(id, deleted);
      tables := tables[id := kept];
      r := Ok(|deleted|);
    }

    /** The loop of `delete`: sorts the rows into those to keep and those to delete. */
    method ChooseRows(condition: Option<BoundExpr>, rows: seq<Tuple>)
      returns (error: Option<DmlError>, kept: seq<Tuple>, deleted: seq<Tuple>, ghost plan: seq<bool>)
      ensures error.Some? ==> DeletePlan(registry, condition, rows) == Err(error.value)
      ensures error.None? ==> DeletePlan(registry, condition, rows) == Ok(plan) && |plan| == |rows|
      ensures error.None? ==> kept == Chosen(rows, plan, false) && deleted == Chosen(rows, plan, true)
    {
      hide Matches, DeletePlan, Chosen;
      error, kept, deleted, plan := None, [], [], [];
      NothingChosen(registry, condition);
      var i := 0;
      while i < |rows|
        invariant i <= |rows| && |plan| == i && DeletePlan(registry, condition, rows[..i]) == Ok(plan) && error.None?
        invariant kept == Chosen(rows[..i], plan, false) && deleted == Chosen(rows[..i], plan, true)
      {
        var matched := Matches(condition, registry, rows[i]);
        if matched.Err? {
          DeleteStops(registry, condition, rows, i, plan);
          error := Some(matched.error);
          return;
        }
        OneChosen(registry, condition, rows, i, plan, matched.value);
        if matched.value {
          deleted := deleted + [rows[i]];
        } else {
          kept := kept + [rows[i]];
        }
        plan := plan + [matched.value];
        i := i + 1;
      }
      assert rows[..|rows|] == rows;
    }

    /** `apply_undo_memory`: the log backwards. A row is found by its value, whichever copy comes first. */
    method Rollback()
      requires Valid()
      modifies this`tables, this`undoLog
      ensures Valid() && undoLog == []
      ensures forall id :: id in schemas ==> multiset(tables[id]) == old(start)[id]
    {
      hide Unwinding, Consistent, InOrder, Present, TakenBack, Unwinds, RowOk, UniqueOk, RowsOk, StartOk;
      StartUnwinding(schemas, tables, undoLog, start);
      while undoLog != []
        invariant Unwinding(schemas, tables, undoLog, start)
        decreases |undoLog|
      {
        var record := undoLog[|undoLog|-1];
        LastRecord(schemas, tables, undoLog, start);
        if record.table in tables {
          var rows := TakeBack(record, tables[record.table]);
          StepBack(schemas, tables, undoLog, start, rows);
          tables := tables[record.table := rows];
        }
        undoLog := undoLog[..|undoLog|-1];
      }
      AllTakenBack(schemas, tables, start);
    }

    static method TakeBack(record: UndoRecord, rows: seq<Tuple>) returns (rows': seq<Tuple>)
      requires Present(record, multiset(rows))
      ensures multiset(rows') == TakenBack(record, multiset(rows))
    {
      match record {
        case Inserted(_, tuple) =>
          var pos := Position(rows, tuple);
          RemoveCounts(rows, pos);
          rows' := rows[..pos] + rows[pos+1..];
        case Deleted(_, tuple) =>
          rows' := rows + [tuple];
        case Updated(_, before, after) =>
          var pos := Position(rows, after);
          ReplaceCounts(rows, pos, before);
          rows' := rows[pos := before];
      }
    }

    static method Position(rows: seq<Tuple>, tuple: Tuple) returns (pos: nat)
      requires tuple in multiset(rows)
      ensures pos < |rows| && rows[pos] == tuple && tuple !in rows[..pos]
    {
      assert tuple in rows;
      pos := 0;
      while rows[pos] != tuple
        invariant pos < |rows| && tuple !in rows[..pos] && tuple in rows
        decreases |rows| - pos
      {
        assert rows[..pos+1] == rows[..pos] + [rows[pos]];
        assert rows[..|rows|] == rows;
        pos := pos + 1;
      }
    }
  }

  /** The rows a transaction began with were in order. */
  ghost predicate StartOk(schema: Schema, rows: multiset<Tuple>) {
    UniqueRows(schema, rows) && forall t :: t in rows ==> RowOk(schema, t)
  }

  /** One table: its rows are in order, and the log leads back to the rows at the start. */
  ghost predicate InOrder(schema: Schema, rows: seq<Tuple>, undo: seq<UndoRecord>, id: TableId,
                          start: multiset<Tuple>) {
    RowsOk(schema, rows) && UniqueOk(schema, rows) && StartOk(schema, start) && Unwinds(multiset(rows), undo, id, start)
  }

  ghost predicate Consistent(schemas: map<TableId, Schema>, tables: map<TableId, seq<Tuple>>, undo: seq<UndoRecord>,
                             start: map<TableId, multiset<Tuple>>) {
    && tables.Keys == schemas.Keys == start.Keys
    && forall id :: id in schemas ==> InOrder(schemas[id], tables[id], undo, id, start[id])
  }

  lemma Known(schemas: map<TableId, Schema>, tables: map<TableId, seq<Tuple>>, undo: seq<UndoRecord>,
              start: map<TableId, multiset<Tuple>>, id: TableId)
    requires Consistent(schemas, tables, undo, start) && id in schemas
    ensures id in tables && id in start && RowsOk(schemas[id], tables[id]) && UniqueOk(schemas[id], tables[id])
    ensures Unwinds(multiset(tables[id]), undo, id, start[id])
    ensures tables.Keys == schemas.Keys == start.Keys
  {
    hide Unwinds, RowsOk, UniqueOk;
  }

  lemma Fresh(schema: Schema, rows: seq<Tuple>, id: TableId)
    requires RowsOk(schema, rows) && UniqueOk(schema, rows)
    ensures InOrder(schema, rows, [], id, multiset(rows))
  {
    hide RowOk;
    UniqueByCount(schema, rows);
    assert forall t :: t in multiset(rows) ==> t in rows;
  }

  /** A change of one table, recorded under its id, keeps everything consistent. */
  lemma Changed(schemas: map<TableId, Schema>, tables: map<TableId, seq<Tuple>>, undo: seq<UndoRecord>,
                start: map<TableId, multiset<Tuple>>, id: TableId, rows: seq<Tuple>, records: seq<UndoRecord>)
    requires Consistent(schemas, tables, undo, start) && id in schemas
    requires RowsOk(schemas[id], rows) && UniqueOk(schemas[id], rows)
    requires id in start && Unwinds(multiset(rows), undo + records, id, start[id])
    requires forall i :: 0 <= i < |records| ==> records[i].table == id
    ensures Consistent(schemas, tables[id := rows], undo + records, start)
  {
    hide InOrder, RowsOk, UniqueOk, Unwinds;
    StillInOrder(schemas[id], tables[id], undo, start[id], id, rows, records);
    forall t | t in schemas && t != id ensures InOrder(schemas[t], tables[t], undo + records, t, start[t]) {
      OtherInOrder(schemas[t], tables[t], undo, t, start[t], records);
    }
  }

  lemma StillInOrder(schema: Schema, rows0: seq<Tuple>, undo: seq<UndoRecord>, start: multiset<Tuple>, id: TableId,
                     rows: seq<Tuple>, records: seq<UndoRecord>)
    requires InOrder(schema, rows0, undo, id, start) && RowsOk(schema, rows) && UniqueOk(schema, rows)
    requires Unwinds(multiset(rows), undo + records, id, start)
    ensures InOrder(schema, rows, undo + records, id, start)
  {
    hide Unwinds, RowsOk, UniqueOk, StartOk;
  }

  lemma OtherInOrder(schema: Schema, rows: seq<Tuple>, undo: seq<UndoRecord>, id: TableId, start: multiset<Tuple>,
                     records: seq<UndoRecord>)
    requires InOrder(schema, rows, undo, id, start) && forall i :: 0 <= i < |records| ==> records[i].table != id
    ensures InOrder(schema, rows, undo + records, id, start)
  {
    hide Unwinds, RowsOk, UniqueOk, StartOk;
    OtherTable(multiset(rows), undo, records, id, start);
  }

  lemma InsertKeeps(schemas: map<TableId, Schema>, tables: map<TableId, seq<Tuple>>, undo: seq<UndoRecord>,
                    start: map<TableId, multiset<Tuple>>, id: TableId, planned: seq<Tuple>)
    requires Consistent(schemas, tables, undo, start) && id in schemas && id in tables
    requires RowsOk(schemas[id], planned) && UniqueOk(schemas[id], tables[id] + planned)
    ensures Consistent(schemas, tables[id := tables[id] + planned], undo + InsertRecords(id, planned), start)
  {
    hide Unwinds, RowsOk, UniqueOk, Consistent;
    Known(schemas, tables, undo, start, id);
    BothFit(schemas[id], tables[id], planned);
    UnwindsInserts(multiset(tables[id]), undo, id, planned, start[id]);
    assert multiset(tables[id] + planned) == multiset(tables[id]) + multiset(planned);
    Changed(schemas, tables, undo, start, id, tables[id] + planned, InsertRecords(id, planned));
  }

  /** The check of an update decides whether the table it leaves is unique. */
  lemma UpdateCheck(schema: Schema, rows: seq<Tuple>, plan: seq<Option<Tuple>>, others: seq<Tuple>,
                    candidates: seq<Tuple>)
    requires |plan| == |rows| && others == Untouched(rows, plan) && candidates == NewRows(plan)
    requires RowsOk(schema, rows) && UniqueOk(schema, rows) && RowsOk(schema, candidates)
    ensures RowsOk(schema, others) && RowsOk(schema, Patched(rows, plan))
    ensures UniqueOk(schema, Patched(rows, plan)) <==>
      forall c :: 0 <= c < |schema| && Constrained(schema[c]) ==> ColumnFree(others, candidates, c)
  {
    hide RowsOk, UniqueOk, Patched, Untouched, NewRows, ColumnFree;
    PatchedCounts(rows, plan);
    FewerRows(schema, rows, others);
    CheckedIsUnique(schema, others, candidates);
    BothFit(schema, others, candidates);
    assert multiset(others + candidates) == multiset(others) + multiset(candidates);
    SameRows(schema, Patched(rows, plan), others + candidates);
  }

  lemma UpdateKeeps(schemas: map<TableId, Schema>, tables: map<TableId, seq<Tuple>>, undo: seq<UndoRecord>,
                    start: map<TableId, multiset<Tuple>>, id: TableId, plan: seq<Option<Tuple>>)
    requires Consistent(schemas, tables, undo, start) && id in schemas && id in tables && |plan| == |tables[id]|
    requires RowsOk(schemas[id], Patched(tables[id], plan)) && UniqueOk(schemas[id], Patched(tables[id], plan))
    ensures Consistent(schemas, tables[id := Patched(tables[id], plan)], undo + UpdateRecords(id, tables[id], plan),
                       start)
  {
    hide Unwinds, RowsOk, UniqueOk, Consistent, Patched, UpdateRecords;
    Known(schemas, tables, undo, start, id);
    var rows := tables[id];
    assert multiset(rows) + multiset{} == multiset(rows) && multiset(Patched(rows, plan)) + multiset{} ==
        multiset(Patched(rows, plan));
    UnwindsUpdates(undo, id, rows, plan, multiset{}, start[id]);
    OnTable(id, rows, plan);
    Changed(schemas, tables, undo, start, id, Patched(rows, plan), UpdateRecords(id, rows, plan));
  }

  lemma DeleteKeeps(schemas: map<TableId, Schema>, tables: map<TableId, seq<Tuple>>, undo: seq<UndoRecord>,
                    start: map<TableId, multiset<Tuple>>, id: TableId, plan: seq<bool>)
    requires Consistent(schemas, tables, undo, start) && id in schemas && id in tables && |plan| == |tables[id]|
    ensures Consistent(schemas, tables[id := Chosen(tables[id], plan, false)],
                       undo + DeleteRecords(id, Chosen(tables[id], plan, true)), start)
  {
    hide Unwinds, RowsOk, UniqueOk, Consistent, Chosen;
    Known(schemas, tables, undo, start, id);
    var kept, deleted := Chosen(tables[id], plan, false), Chosen(tables[id], plan, true);
    ChosenCounts(tables[id], plan);
    FewerRows(schemas[id], tables[id], kept);
    assert multiset(kept) + multiset(deleted) == multiset(tables[id]);
    UnwindsDeletes(multiset(kept), undo, id, deleted, start[id]);
    Changed(schemas, tables, undo, start, id, kept, DeleteRecords(id, deleted));
  }

  lemma PatchStart(rows: seq<Tuple>, plan: seq<Option<Tuple>>)
    requires |plan| == |rows|
    ensures Patched(rows[..0], plan[..0]) + rows[0..] == rows
  {
  }

  lemma PatchNext(rows: seq<Tuple>, plan: seq<Option<Tuple>>, i: nat)
    requires |plan| == |rows| && i < |rows|
    ensures var now := Patched(rows[..i], plan[..i]) + rows[i..];
      |now| == |rows| &&
      Patched(rows[..i+1], plan[..i+1]) + rows[i+1..] == if plan[i].Some? then now[i := plan[i].value] else now
  {
  }

  // ---- Rolling back

  /** The log that is left leads every table back to its start. */
  ghost predicate Unwinding(schemas: map<TableId, Schema>, tables: map<TableId, seq<Tuple>>, undo: seq<UndoRecord>,
                            start: map<TableId, multiset<Tuple>>) {
    && tables.Keys == schemas.Keys == start.Keys
    && forall id :: id in schemas ==>
      StartOk(schemas[id], start[id]) && Unwinds(multiset(tables[id]), undo, id, start[id])
  }

  lemma StartUnwinding(schemas: map<TableId, Schema>, tables: map<TableId, seq<Tuple>>, undo: seq<UndoRecord>,
                       start: map<TableId, multiset<Tuple>>)
    requires Consistent(schemas, tables, undo, start)
    ensures Unwinding(schemas, tables, undo, start)
  {
    hide Unwinds, RowsOk, UniqueOk, StartOk;
    forall id | id in schemas ensures StartOk(schemas[id], start[id]) &&
        Unwinds(multiset(tables[id]), undo, id, start[id]) {
      assert InOrder(schemas[id], tables[id], undo, id, start[id]);
    }
  }

  lemma LastRecord(schemas: map<TableId, Schema>, tables: map<TableId, seq<Tuple>>, undo: seq<UndoRecord>,
                   start: map<TableId, multiset<Tuple>>)
    requires Unwinding(schemas, tables, undo, start) && undo != []
    ensures var r := undo[|undo|-1];
      if r.table in tables then Present(r, multiset(tables[r.table]))
          else Unwinding(schemas, tables, undo[..|undo|-1], start)
  {
    hide StartOk;
    var r := undo[|undo|-1];
    if r.table !in tables {
      forall id | id in schemas ensures Unwinds(multiset(tables[id]), undo[..|undo|-1], id, start[id]) {
      }
    }
  }

  lemma StepBack(schemas: map<TableId, Schema>, tables: map<TableId, seq<Tuple>>, undo: seq<UndoRecord>,
                 start: map<TableId, multiset<Tuple>>, rows: seq<Tuple>)
    requires Unwinding(schemas, tables, undo, start) && undo != [] && undo[|undo|-1].table in tables
    requires multiset(rows) == TakenBack(undo[|undo|-1], multiset(tables[undo[|undo|-1].table]))
    ensures Unwinding(schemas, tables[undo[|undo|-1].table := rows], undo[..|undo|-1], start)
  {
    hide StartOk, TakenBack;
  }

  lemma AllTakenBack(schemas: map<TableId, Schema>, tables: map<TableId, seq<Tuple>>,
                     start: map<TableId, multiset<Tuple>>)
    requires Unwinding(schemas, tables, [], start)
    ensures Consistent(schemas, tables, [], start) && forall id :: id in schemas ==> multiset(tables[id]) == start[id]
  {
    hide RowOk;
    forall id | id in schemas ensures InOrder(schemas[id], tables[id], [], id, start[id]) {
      UniqueByCount(schemas[id], tables[id]);
      CountedRows(schemas[id], tables[id]);
    }
  }

  lemma CountedRows(schema: Schema, rows: seq<Tuple>)
    requires forall t :: t in multiset(rows) ==> RowOk(schema, t)
    ensures RowsOk(schema, rows)
  {
    hide RowOk;
    forall i | 0 <= i < |rows| ensures RowOk(schema, rows[i]) {
      assert rows[i] in multiset(rows);
    }
  }

  lemma RowWidth(schema: Schema, row: Tuple)
    requires RowOk(schema, row)
    ensures |row| == |schema|
  {
  }

  lemma BothFit(schema: Schema, a: seq<Tuple>, b: seq<Tuple>)
    requires RowsOk(schema, a) && RowsOk(schema, b)
    ensures RowsOk(schema, a + b)
  {
    hide RowOk;
  }

  /** Planning stops at the first row that fails. */
  lemma {:induction false} InsertStops(schema: Schema, registry: Registry, columns: Option<seq<nat>>,
                                       rows: seq<seq<Expr>>, i: nat)
    requires ColumnsOk(schema, columns) && i < |rows|
    requires InsertPlan(schema, registry, columns, rows[..i]).Ok? && InsertRow(schema, registry, columns, rows[i]).Err?
    ensures InsertPlan(schema, registry, columns, rows) == Err(InsertRow(schema, registry, columns, rows[i]).error)
    decreases |rows|
  {
    hide InsertRow, RowOk;
    var n := |rows| - 1;
    if i < n {
      assert rows[..n][..i] == rows[..i];
      InsertStops(schema, registry, columns, rows[..n], i);
    }
  }

  lemma {:induction false} UpdateStops(schema: Schema, registry: Registry, assignments: seq<Assignment>,
                                       condition: Option<BoundExpr>, rows: seq<Tuple>, i: nat)
    requires Assignable(schema, assignments) && RowsOk(schema, rows) && i < |rows| && RowsOk(schema, rows[..i])
    requires |rows[i]| == |schema|
    requires UpdatePlan(schema, registry, assignments, condition, rows[..i]).Ok?
    requires UpdatedRow(schema, registry, assignments, condition, rows[i]).Err?
    ensures UpdatePlan(schema, registry, assignments, condition, rows) ==
        Err(UpdatedRow(schema, registry, assignments, condition, rows[i]).error)
    decreases |rows|
  {
    hide UpdatedRow, RowOk;
    var n := |rows| - 1;
    if i < n {
      assert rows[..n][..i] == rows[..i];
      UpdateStops(schema, registry, assignments, condition, rows[..n], i);
    }
  }

  lemma {:induction false} DeleteStops(registry: Registry, condition: Option<BoundExpr>, rows: seq<Tuple>, i: nat,
                                       plan: seq<bool>)
    requires i < |rows| && DeletePlan(registry, condition, rows[..i]) == Ok(plan)
    requires Matches(condition, registry, rows[i]).Err?
    ensures DeletePlan(registry, condition, rows) == Err(Matches(condition, registry, rows[i]).error)
    decreases |rows|
  {
    hide Matches;
    var n := |rows| - 1;
    if i < n {
      assert rows[..n][..i] == rows[..i];
      DeleteStops(registry, condition, rows[..n], i, plan);
    }
  }

  lemma NothingChosen(registry: Registry, condition: Option<BoundExpr>)
    ensures forall rows: seq<Tuple> :: rows[..0] == []
    ensures DeletePlan(registry, condition, []) == Ok([])
    ensures forall which: bool :: Chosen([], [], which) == []
  {
  }

  lemma OneChosen(registry: Registry, condition: Option<BoundExpr>, rows: seq<Tuple>, i: nat, plan: seq<bool>,
                  matched: bool)
    requires i < |rows| && |plan| == i && DeletePlan(registry, condition, rows[..i]) == Ok(plan)
    requires Matches(condition, registry, rows[i]) == Ok(matched)
    ensures DeletePlan(registry, condition, rows[..i+1]) == Ok(plan + [matched])
    ensures forall which: bool ::
      Chosen(rows[..i+1], plan + [matched], which) ==
      Chosen(rows[..i], plan, which) + if matched == which then [rows[i]] else []
  {
    hide Matches;
    assert rows[..i+1][..i] == rows[..i] && (plan + [matched])[..i] == plan;
  }

  /** The new rows of an update fit the schema. */
  lemma {:induction false} PlanFits(schema: Schema, registry: Registry, assignments: seq<Assignment>,
                                    condition: Option<BoundExpr>, rows: seq<Tuple>)
    requires Assignable(schema, assignments) && RowsOk(schema, rows)
    ensures var r := UpdatePlan(schema, registry, assignments, condition, rows);
      r.Ok? ==> RowsOk(schema, NewRows(r.value))
    decreases |rows|
  {
    hide RowOk, Matches, Assigned;
    if rows != [] {
      PlanFits(schema, registry, assignments, condition, rows[..|rows|-1]);
    }
  }

  lemma {:induction false} OnTable(id: TableId, rows: seq<Tuple>, plan: seq<Option<Tuple>>)
    requires |plan| == |rows|
    ensures forall i :: 0 <= i < |UpdateRecords(id, rows, plan)| ==> UpdateRecords(id, rows, plan)[i].table == id
  {
    if rows != [] {
      OnTable(id, rows[..|rows|-1], plan[..|plan|-1]);
    }
  }

  lemma RemoveCounts(rows: seq<Tuple>, pos: nat)
    requires pos < |rows|
    ensures multiset(rows[..pos] + rows[pos+1..]) == multiset(rows) - multiset{rows[pos]}
  {
    assert rows == rows[..pos] + [rows[pos]] + rows[pos+1..];
  }

  lemma ReplaceCounts(rows: seq<Tuple>, pos: nat, t: Tuple)
    requires pos < |rows|
    ensures multiset(rows[pos := t]) == multiset(rows) - multiset{rows[pos]} + multiset{t}
  {
    assert rows == rows[..pos] + [rows[pos]] + rows[pos+1..];
    assert rows[pos := t] == rows[..pos] + [t] + rows[pos+1..];
  }

  // ---- Whole transactions

  datatype Statement =
    | InsertInto(id: TableId, columns: Option<seq<nat>>, rows: seq<seq<Expr>>)
    | UpdateTable(id: TableId, assignments: seq<Assignment>, condition: Option<BoundExpr>)
    | DeleteFrom(id: TableId, condition: Option<BoundExpr>)

  ghost predicate Bindable(schemas: map<TableId, Schema>, s: Statement) {
    && s.id in schemas
    && match s
       case InsertInto(id, columns, _) => ColumnsOk(schemas[id], columns)
       case UpdateTable(id, assignments, _) => Assignable(schemas[id], assignments)
       case DeleteFrom(_, _) => true
  }

  /** The tables after a statement: those it plans, or the same ones if it cannot be planned or repeats a unique
      value. */
  ghost function Effect(schemas: map<TableId, Schema>, registry: Registry, tables: map<TableId, seq<Tuple>>,
                        s: Statement): map<TableId, seq<Tuple>>
    requires Bindable(schemas, s)
  {
    if s.id !in tables || !RowsOk(schemas[s.id], tables[s.id]) then tables
    else
      var schema, rows := schemas[s.id], tables[s.id];
      match s
      case InsertInto(id, columns, values) =>
        var plan := InsertPlan(schema, registry, columns, values);
        if plan.Ok? && UniqueOk(schema, rows + plan.value) then tables[id := rows + plan.value] else tables
      case UpdateTable(id, assignments, condition) =>
        var plan := UpdatePlan(schema, registry, assignments, condition, rows);
        if plan.Ok? && UniqueOk(schema, Patched(rows, plan.value)) then tables[id := Patched(rows, plan.value)]
            else tables
      case DeleteFrom(id, condition) =>
        var plan := DeletePlan(registry, condition, rows);
        if plan.Ok? then tables[id := Chosen(rows, plan.value, false)] else tables
  }

  ghost function Effects(schemas: map<TableId, Schema>, registry: Registry, tables: map<TableId, seq<Tuple>>,
                         script: seq<Statement>): map<TableId, seq<Tuple>>
    requires forall i :: 0 <= i < |script| ==> Bindable(schemas, script[i])
  {
    if script == [] then tables
    else
      var n := |script| - 1;
      Effect(schemas, registry, Effects(schemas, registry, tables, script[..n]), script[n])
  }

  /** Any run of statements has the effects of its statements, one after the other, failing ones included, and keeps the
      tables unique; rolled back, it leaves the same rows as before. */
  method RunAndRollBack(db: MemDatabase, script: seq<Statement>) returns (ghost changed: map<TableId, seq<Tuple>>)
    requires db.Valid() && forall i :: 0 <= i < |script| ==> Bindable(db.schemas, script[i])
    modifies db
    ensures changed == Effects(db.schemas, db.registry, old(db.tables), script)
    ensures db.Valid() && db.undoLog == [] && db.tables.Keys == old(db.tables.Keys) == db.schemas.Keys
    ensures forall id :: id in db.schemas ==> multiset(db.tables[id]) == multiset(old(db.tables)[id])
  {
    hide Consistent, Bindable, InsertPlan, UpdatePlan, DeletePlan, UniqueOk, RowsOk, Patched, Chosen, Effect,
      InsertEndsWith, UpdateEndsWith, DeleteEndsWith, FirstViolation, RowInserted, UpdatesTo, Remain, Matching;
    Keys(db);
    db.Begin();
    ghost var start := db.start;
    var i := 0;
    assert script[..0] == [];
    while i < |script|
      invariant i <= |script| && db.Valid() && db.start == start
      invariant db.tables == Effects(db.schemas, db.registry, old(db.tables), script[..i])
    {
      assert script[..i+1][..i] == script[..i];
      RunStatement(db, script[i]);
      i := i + 1;
    }
    assert script[..|script|] == script;
    changed := db.tables;
    db.Rollback();
    Keys(db);
  }

  method RunStatement(db: MemDatabase, s: Statement)
    requires db.Valid() && Bindable(db.schemas, s)
    modifies db`tables, db`undoLog
    ensures db.Valid() && db.tables == Effect(db.schemas, db.registry, old(db.tables), s)
  {
    hide Consistent, Bindable, InsertPlan, UpdatePlan, DeletePlan, UniqueOk, RowsOk, Patched, Chosen, InsertEndsWith,
      UpdateEndsWith, DeleteEndsWith, FirstViolation, RowInserted, UpdatesTo, Remain, Matching;
    Keys(db);
    Unfold(db.schemas, s);
    RowsFit(db, s.id);
    match s {
      case InsertInto(id, columns, rows) =>
        var _ := db.Insert(id, columns, rows);
      case UpdateTable(id, assignments, condition) =>
        var _ := db.Update(id, assignments, condition);
      case DeleteFrom(id, condition) =>
        var _ := db.Delete(id, condition);
    }
  }

  lemma RowsFit(db: MemDatabase, id: TableId)
    requires db.Valid() && id in db.schemas
    ensures id in db.tables && RowsOk(db.schemas[id], db.tables[id])
  {
    hide InOrder, RowsOk;
    Known(db.schemas, db.tables, db.undoLog, db.start, id);
  }

  lemma Keys(db: MemDatabase)
    requires db.Valid()
    ensures db.tables.Keys == db.schemas.Keys == db.start.Keys
  {
    hide InOrder;
  }

  lemma Unfold(schemas: map<TableId, Schema>, s: Statement)
    requires Bindable(schemas, s)
    ensures s.id in schemas
    ensures s.InsertInto? ==> ColumnsOk(schemas[s.id], s.columns)
    ensures s.UpdateTable? ==> Assignable(schemas[s.id], s.assignments)
  {
  }
}
