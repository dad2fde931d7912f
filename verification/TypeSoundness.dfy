/** What binding promises about evaluation (src/binder.rs, src/eval.rs): an expression that was accepted never
    fails for a type reason, and means what it meant before. */
module TypeSoundness {
  import opened Options
  import opened KeyCodec
  import opened Expressions
  import opened Evaluator
  import opened Binder

  /** NULL, or a value of the type. */
  predicate HasType(v: Value, t: DataType) {
    v == Null || v.Type() == Some(t)
  }

  /** Failures that depend on the values alone: overflow, division by zero and failing casts. */
  predicate ByValue(e: EvalError) {
    e.Overflow? || e.DivisionByZero? || e.CastFailed?
  }

  /** The outcome is a value of the type, NULL if there is none, or a failure that no type rules out. */
  predicate Fits(o: Outcome, t: Option<DataType>) {
    match o
    case Fail(e) => ByValue(e)
    case Val(v) => v == Null || v.Type() == t
  }

  /** Every function keeps to its signature. */
  ghost predicate Sound(registry: Registry) {
    forall name, args :: name in registry && ArgsConform(args, registry[name].argTypes) ==>
      Fits(registry[name].func(args), Some(registry[name].returnType))
  }

  predicate ArgsConform(args: seq<Value>, types: seq<DataType>) {
    |args| == |types| && forall i :: 0 <= i < |args| ==> HasType(args[i], types[i])
  }

  /** `abs` and `length` keep to theirs. */
  lemma BuiltinsSound()
    ensures Sound(WithBuiltins())
  {
    assert LowerCase("abs") == "abs" && LowerCase("length") == "length";
    var registry := WithBuiltins();
    forall name, args | name in registry && ArgsConform(args, registry[name].argTypes)
      ensures Fits(registry[name].func(args), Some(registry[name].returnType))
    {
      assert HasType(args[0], registry[name].argTypes[0]);
    }
  }

  // ---- Rows of joined tables

  /** The columns of all tables from left to right: the schema of the joined row. */
  function JoinedTypes(tables: seq<TableRef>): seq<Column> {
    if tables == [] then [] else JoinedTypes(tables[..|tables|-1]) + tables[|tables|-1].schema
  }

  function JoinedRow(tuples: seq<seq<Value>>): seq<Value> {
    if tuples == [] then [] else JoinedRow(tuples[..|tuples|-1]) + tuples[|tuples|-1]
  }

  predicate Conforms(tuple: seq<Value>, schema: Schema) {
    |tuple| == |schema| && forall i :: 0 <= i < |tuple| ==> HasType(tuple[i], schema[i].dataType)
  }

  lemma {:induction false} TableOffsetOfPrefix(tables: seq<TableRef>, n: nat, ordinal: nat)
    requires ordinal <= n <= |tables|
    ensures TableOffset(tables[..n], ordinal) == TableOffset(tables, ordinal)
  {
    if ordinal > 0 {
      TableOffsetOfPrefix(tables, n, ordinal - 1);
    }
  }

  lemma {:induction false} JoinedLength(tables: seq<TableRef>)
    ensures |JoinedTypes(tables)| == TableOffset(tables, |tables|)
  {
    if tables != [] {
      JoinedLength(tables[..|tables|-1]);
      TableOffsetOfPrefix(tables, |tables| - 1, |tables| - 1);
    }
  }

  /** Column `local` of table `ordinal` stands at the offset of the table in the joined schema. */
  lemma {:induction false} JoinedColumn(tables: seq<TableRef>, ordinal: nat, local: nat)
    requires ordinal < |tables| && local < |tables[ordinal].schema|
    ensures TableOffset(tables, ordinal) + local < |JoinedTypes(tables)|
    ensures JoinedTypes(tables)[TableOffset(tables, ordinal) + local] == tables[ordinal].schema[local]
  {
    var n := |tables| - 1;
    JoinedLength(tables[..n]);
    TableOffsetOfPrefix(tables, n, n);
    if ordinal < n {
      JoinedColumn(tables[..n], ordinal, local);
      TableOffsetOfPrefix(tables, n, ordinal);
    }
  }

  /** A value of one table's tuple stands at the same place in the joined row. */
  lemma {:induction false} JoinedValue(tables: seq<TableRef>, tuples: seq<seq<Value>>, ordinal: nat, local: nat)
    requires |tuples| == |tables| && forall i :: 0 <= i < |tables| ==> |tuples[i]| == |tables[i].schema|
    requires ordinal < |tables| && local < |tables[ordinal].schema|
    ensures |JoinedRow(tuples)| == TableOffset(tables, |tables|)
    ensures TableOffset(tables, ordinal) + local < |JoinedRow(tuples)|
    ensures JoinedRow(tuples)[TableOffset(tables, ordinal) + local] == tuples[ordinal][local]
  {
    var n := |tables| - 1;
    JoinedRowLength(tables[..n], tuples[..n]);
    TableOffsetOfPrefix(tables, n, n);
    if ordinal < n {
      JoinedValue(tables[..n], tuples[..n], ordinal, local);
      TableOffsetOfPrefix(tables, n, ordinal);
    }
  }

  lemma {:induction false} JoinedRowLength(tables: seq<TableRef>, tuples: seq<seq<Value>>)
    requires |tuples| == |tables| && forall i :: 0 <= i < |tables| ==> |tuples[i]| == |tables[i].schema|
    ensures |JoinedRow(tuples)| == TableOffset(tables, |tables|)
  {
    if tables != [] {
      var n := |tables| - 1;
      JoinedRowLength(tables[..n], tuples[..n]);
      TableOffsetOfPrefix(tables, n, n);
    }
  }

  /** A resolved reference reads, from the joined row, the column of this name in its own table. An unqualified
      name resolves exactly if one table has it, and to this table. */
  lemma ResolvedReadsItsTable(tables: seq<TableRef>, tuples: seq<seq<Value>>, registry: Registry,
                              qualifier: Option<string>, name: string)
    requires |tuples| == |tables| && forall i :: 0 <= i < |tables| ==> |tuples[i]| == |tables[i].schema|
    ensures var b := ResolveColumn(tables, qualifier, name);
      b.Bound? ==>
        && b.e.BColumn? && b.e.table < |tables|
        && var local := IndexOf(tables[b.e.table].schema, name);
           && local.Some?
           && EvalBound(b.e, registry, Some(JoinedRow(tuples))) == Val(tuples[b.e.table][local.value])
           && (qualifier.Some? ==> tables[b.e.table].Qualifier() == qualifier.value)
    ensures qualifier.None? ==> var b := ResolveColumn(tables, qualifier, name);
      (b.Bound? <==> exists t: nat :: OnlyOwner(tables, name, t)) && (b.Bound? ==> OnlyOwner(tables, name, b.e.table))
  {
    hide IndexOf, Owners, TableOffset, JoinedRow, OnlyOwner;
    var b := ResolveColumn(tables, qualifier, name);
    if b.Bound? {
      var t := b.e.table;
      var local := IndexOf(tables[t].schema, name).value;
      JoinedValue(tables, tuples, t, local);
    }
    if qualifier.None? {
      OneOwner(tables, name);
    }
  }

  /** Table `t` has a column of this name, and no other table has. */
  ghost predicate OnlyOwner(tables: seq<TableRef>, name: string, t: nat) {
    && t < |tables| && IndexOf(tables[t].schema, name).Some?
    && forall u :: 0 <= u < |tables| && u != t ==> IndexOf(tables[u].schema, name).None?
  }

  lemma OneOwner(tables: seq<TableRef>, name: string)
    ensures var owners := Owners(tables, name, |tables|);
      && (|owners| == 1 ==> OnlyOwner(tables, name, owners[0]))
      && ((exists t: nat :: OnlyOwner(tables, name, t)) ==> |owners| == 1)
  {
    hide IndexOf;
    var owners := Owners(tables, name, |tables|);
    if |owners| == 1 {
      assert owners[0] in owners;
      forall u: nat | u < |tables| && u != owners[0] ensures IndexOf(tables[u].schema, name).None? {
        assert u !in owners;
      }
    }
    assert |owners| >= 2 ==> owners[0] < owners[1];
    if t: nat :| OnlyOwner(tables, name, t) {
      assert t in owners;
      forall i | 0 <= i < |owners| ensures owners[i] == t {
        assert owners[i] in owners;
      }
    }
  }

  // ---- Type soundness

  /** No parameters and no aggregates. */
  predicate Plain(e: Expr) {
    match e
    case Param(_) => false
    case Aggregate(_, _) => false
    case Unary(_, arg) => Plain(arg)
    case Binary(_, lhs, rhs) => Plain(lhs) && Plain(rhs)
    case IsNull(arg, _) => Plain(arg)
    case Call(_, args) => forall i :: 0 <= i < |args| ==> Plain(args[i])
    case Paren(arg) => Plain(arg)
    case Cast(arg, _) => Plain(arg)
    case _ => true
  }

  /** A value that an operand of this static type may have, other than NULL. */
  predicate Operand(v: Value, t: Option<DataType>) {
    v != Null && (t.Some? ==> v.Type() == t)
  }

  function Sample(t: Option<DataType>, otherwise: Value): Value {
    match t
    case None => otherwise
    case Some(BooleanType) => Boolean(true)
    case Some(BigIntType) => BigInt(1)
    case Some(TextType) => Text([])
  }

  function EvalOperator(op: BinaryOp, l: Value, r: Value): Outcome {
    if op.Arithmetic() then EvalArith(op, l, r)
    else if op.Logical() then if ValueTri(l).None? then Fail(OperatorType) else EvalLogic(op, ValueTri(l).value, r)
    else EvalCompare(op, l, r)
  }

  /** The binder accepts an operator exactly if the evaluator does for some operands of these types that are not
      NULL. */
  lemma AcceptedIffUsable(op: BinaryOp, l: Option<DataType>, r: Option<DataType>)
    ensures CheckBinary(op, l, r).Some? <==>
      exists v, w :: Operand(v, l) && Operand(w, r) && EvalOperator(op, v, w) != Fail(OperatorType)
  {
    hide ValueLess, Truncate;
    var known := if l.Some? then l else r;
    var other :=
      if op.Arithmetic() then BigInt(1) else if op.Logical() then Boolean(true) else Sample(known, BigInt(1));
    var v, w := Sample(l, other), Sample(r, other);
    if CheckBinary(op, l, r).Some? {
      assert Operand(v, l) && Operand(w, r) && EvalOperator(op, v, w) != Fail(OperatorType);
    }
  }

  lemma UnaryAcceptedIffUsable(op: UnaryOp, t: Option<DataType>)
    ensures CheckUnary(op, t).Some? <==> exists v :: Operand(v, t) && EvalUnary(op, v) != Fail(OperatorType)
  {
    var v := Sample(t, if op.Negate? then BigInt(1) else Boolean(true));
    if CheckUnary(op, t).Some? {
      assert Operand(v, t) && EvalUnary(op, v) != Fail(OperatorType);
    }
  }

  lemma UnaryFits(op: UnaryOp, v: Value, t: Option<DataType>)
    requires CheckUnary(op, t).Some? && (v == Null || v.Type() == t)
    ensures Fits(EvalUnary(op, v), CheckUnary(op, t))
  {
  }

  lemma ArithFits(op: BinaryOp, l: Value, r: Value, lt: Option<DataType>, rt: Option<DataType>)
    requires op.Arithmetic() && CheckBinary(op, lt, rt).Some?
    requires (l == Null || l.Type() == lt) && (r == Null || r.Type() == rt)
    ensures Fits(EvalArith(op, l, r), Some(BigIntType))
  {
    hide Truncate;
  }

  lemma CompareFits(op: BinaryOp, l: Value, r: Value, lt: Option<DataType>, rt: Option<DataType>)
    requires !op.Arithmetic() && !op.Logical() && CheckBinary(op, lt, rt).Some?
    requires (l == Null || l.Type() == lt) && (r == Null || r.Type() == rt)
    ensures Fits(EvalCompare(op, l, r), Some(BooleanType))
  {
    hide ValueLess;
  }

  lemma CastFits(v: Value, t: DataType)
    ensures Fits(EvalCast(v, t), Some(t))
  {
    hide ParseI64, DecimalText, LowerBytes, BoolText;
  }

  /** A bound expression of a type evaluates to NULL or a value of that type, and to NULL if it has none. The only
      failures are overflow, division by zero and failing casts: no operator or function ever meets a wrong type. */
  lemma {:induction false} BoundFits(e: Expr, registry: Registry, tables: seq<TableRef>, row: seq<Value>)
    requires Sound(registry) && Conforms(row, JoinedTypes(tables))
    requires Plain(e) && Bind(e, registry, tables).Bound?
    ensures var b := Bind(e, registry, tables).e;
      !b.BParam? && Fits(EvalBound(b, registry, Some(row)), b.Type())
    decreases e, 1
  {
    hide Sound, EvalUnary, EvalArith, EvalCompare, EvalLogic, EvalCast, ResolveColumn, ValueTri, CheckUnary,
      CheckBinary, NoneOr, OperandHint, TypeNamed, LowerCase, ContainsAggregate, AggregateType, Conforms, JoinedTypes;
    var b := Bind(e, registry, tables).e;
    match e
    case ColumnRef(qualifier, name) => ColumnFits(registry, tables, row, qualifier, name);
    case Paren(arg) => BoundFits(arg, registry, tables, row);
    case Unary(op, arg) =>
      BoundFits(arg, registry, tables, row);
      var v := EvalBound(b.arg, registry, Some(row));
      if v.Val? { UnaryFits(op, v.value, b.arg.Type()); }
    case Binary(op, lhs, rhs) =>
      BoundFits(lhs, registry, tables, row);
      BoundFits(rhs, registry, tables, row);
      BinaryFits(op, b, registry, row);
    case IsNull(arg, negated) => BoundFits(arg, registry, tables, row);
    case Cast(arg, typeName) =>
      BoundFits(arg, registry, tables, row);
      var v := EvalBound(b.arg, registry, Some(row));
      if v.Val? { CastFits(v.value, b.dataType); }
    case Call(name, args) =>
      var entry := registry[LowerCase(name)];
      ArgsFit(args, entry.argTypes, registry, tables, row);
      LowerCaseTwice(name);
      CallFits(b, registry, row);
    case _ =>
  }

  lemma ColumnFits(registry: Registry, tables: seq<TableRef>, row: seq<Value>, qualifier: Option<string>, name: string)
    requires Conforms(row, JoinedTypes(tables)) && ResolveColumn(tables, qualifier, name).Bound?
    ensures var b := ResolveColumn(tables, qualifier, name).e;
      b.BColumn? && Fits(EvalBound(b, registry, Some(row)), b.Type())
  {
    var b := ResolveColumn(tables, qualifier, name).e;
    var local := IndexOf(tables[b.table].schema, name).value;
    JoinedColumn(tables, b.table, local);
    assert HasType(row[b.column], JoinedTypes(tables)[b.column].dataType);
  }

  lemma BinaryFits(op: BinaryOp, b: BoundExpr, registry: Registry, row: seq<Value>)
    requires b.BBinary? && b.op == op && CheckBinary(op, b.lhs.Type(), b.rhs.Type()) == Some(b.dataType)
    requires Fits(EvalBound(b.lhs, registry, Some(row)), b.lhs.Type())
    requires Fits(EvalBound(b.rhs, registry, Some(row)), b.rhs.Type())
    ensures Fits(EvalBound(b, registry, Some(row)), Some(b.dataType))
  {
    hide EvalArith, EvalCompare;
    var l, r := EvalBound(b.lhs, registry, Some(row)), EvalBound(b.rhs, registry, Some(row));
    if l.Val? && r.Val? {
      if op.Arithmetic() {
        ArithFits(op, l.value, r.value, b.lhs.Type(), b.rhs.Type());
      } else if !op.Logical() {
        CompareFits(op, l.value, r.value, b.lhs.Type(), b.rhs.Type());
      }
    }
  }

  lemma CallFits(b: BoundExpr, registry: Registry, row: seq<Value>)
    requires b.BCall? && Sound(registry) && b.fname in registry && LowerCase(b.fname) == b.fname
    requires b.dataType == registry[b.fname].returnType
    requires var r := EvalBoundAll(b.args, registry, Some(row));
      match r case Failed(e) => ByValue(e) case Values(vs) => ArgsConform(vs, registry[b.fname].argTypes)
    ensures Fits(EvalBound(b, registry, Some(row)), b.Type())
  {
    hide Fits;
    var r := EvalBoundAll(b.args, registry, Some(row));
    if r.Failed? {
      FailFits(r.error, b.Type());
    }
  }

  lemma FailFits(e: EvalError, t: Option<DataType>)
    requires ByValue(e)
    ensures Fits(Fail(e), t)
  {
  }

  lemma {:induction false} ArgsFit(es: seq<Expr>, types: seq<DataType>, registry: Registry, tables: seq<TableRef>,
                                   row: seq<Value>)
    requires Sound(registry) && Conforms(row, JoinedTypes(tables)) && |es| == |types|
    requires (forall i :: 0 <= i < |es| ==> Plain(es[i])) && BindAll(es, types, registry, tables).AllBound?
    ensures var r := EvalBoundAll(BindAll(es, types, registry, tables).es, registry, Some(row));
      match r case Failed(e) => ByValue(e) case Values(vs) => ArgsConform(vs, types)
    decreases es, 0
  {
    hide Sound, Conforms, Plain, Bind, EvalBound;
    if es != [] {
      var n := |es| - 1;
      ArgsFit(es[..n], types[..n], registry, tables, row);
      BoundFits(es[n], registry, tables, row);
      var before, last := BindAll(es[..n], types[..n], registry, tables).es, Bind(es[n], registry, tables).e;
      assert BindAll(es, types, registry, tables).es == before + [last];
      LastArg(before, last, types, registry, row);
    }
  }

  lemma LastArg(before: seq<BoundExpr>, last: BoundExpr, types: seq<DataType>, registry: Registry, row: seq<Value>)
    requires types != [] && NoneOr(last.Type(), types[|types|-1])
    requires Fits(EvalBound(last, registry, Some(row)), last.Type())
    requires match EvalBoundAll(before, registry, Some(row))
             case Failed(e) => ByValue(e)
             case Values(vs) => ArgsConform(vs, types[..|types|-1])
    ensures match EvalBoundAll(before + [last], registry, Some(row))
            case Failed(e) => ByValue(e)
            case Values(vs) => ArgsConform(vs, types)
  {
    hide EvalBound;
    assert (before + [last])[..|before + [last]|-1] == before;
  }

  /** A WHERE, HAVING or ON condition that was accepted evaluates to a truth value. */
  lemma PredicateIsTruthValue(e: Expr, registry: Registry, tables: seq<TableRef>, row: seq<Value>)
    requires Sound(registry) && Conforms(row, JoinedTypes(tables)) && Plain(e)
    requires BindPredicate(e, registry, tables).Bound?
    ensures var o := EvalBound(BindPredicate(e, registry, tables).e, registry, Some(row));
      if o.Fail? then ByValue(o.error) else ValueTri(o.value).Some?
  {
    BoundFits(e, registry, tables, row);
  }

  // ---- Binding preserves meaning

  lemma CoerceMeansTheSame(e: BoundExpr, hint: Option<DataType>, registry: Registry, row: Option<seq<Value>>)
    ensures EvalBound(Coerce(e, hint), registry, row) == EvalBound(e, registry, row)
  {
  }

  lemma BinaryMeansTheSame(op: BinaryOp, lhs: Expr, rhs: Expr, b: BoundExpr, registry: Registry,
                           row: Option<seq<Value>>, named: Option<Row>)
    requires b.BBinary? && b.op == op
    requires EvalBound(b.lhs, registry, row) == Eval(lhs, registry, named)
    requires EvalBound(b.rhs, registry, row) == Eval(rhs, registry, named)
    ensures EvalBound(b, registry, row) == Eval(Binary(op, lhs, rhs), registry, named)
  {
    hide EvalArith, EvalCompare, EvalLogic, ValueTri;
  }

  lemma ColumnMeansTheSame(registry: Registry, tables: seq<TableRef>, tuple: seq<Value>, qualifier: Option<string>,
                           name: string)
    requires |tables| <= 1 && (tables != [] ==> |tuple| == |tables[0].schema|)
    requires ResolveColumn(tables, qualifier, name).Bound?
    ensures tables != [] && EvalBound(ResolveColumn(tables, qualifier, name).e, registry, Some(tuple)) ==
      Eval(ColumnRef(qualifier, name), registry, Some(Row(tables[0].schema, tuple)))
  {
    hide IndexOf, Owners;
    var b := ResolveColumn(tables, qualifier, name).e;
    assert b.table == 0 && TableOffset(tables, 0) == 0;
  }

  /** The bound form of an expression over one table, or over none, has the value or the failure of the expression
      itself. */
  lemma {:induction false} BoundMeansTheSame(e: Expr, registry: Registry, tables: seq<TableRef>, tuple: seq<Value>)
    requires |tables| <= 1 && (tables != [] ==> |tuple| == |tables[0].schema|)
    requires Bind(e, registry, tables).Bound?
    ensures EvalBound(Bind(e, registry, tables).e, registry, if tables == [] then None else Some(tuple)) ==
      Eval(e, registry, if tables == [] then None else Some(Row(tables[0].schema, tuple)))
    decreases e, 1
  {
    hide EvalUnary, EvalArith, EvalCompare, EvalLogic, EvalCast, ValueTri, ContainsAggregate, CheckBinary, CheckUnary,
      NoneOr, OperandHint, IndexOf, Owners, TableOffset, FindTable, ResolveColumn, LowerCase;
    var row := if tables == [] then None else Some(tuple);
    var b := Bind(e, registry, tables).e;
    match e
    case ColumnRef(qualifier, name) =>
      ColumnMeansTheSame(registry, tables, tuple, qualifier, name);
    case Paren(arg) => BoundMeansTheSame(arg, registry, tables, tuple);
    case Unary(op, arg) =>
      BoundMeansTheSame(arg, registry, tables, tuple);
    case Binary(op, lhs, rhs) =>
      BoundMeansTheSame(lhs, registry, tables, tuple);
      BoundMeansTheSame(rhs, registry, tables, tuple);
      var l, r := Bind(lhs, registry, tables).e, Bind(rhs, registry, tables).e;
      CoerceMeansTheSame(l, OperandHint(op, l.Type(), r.Type()), registry, row);
      CoerceMeansTheSame(r, OperandHint(op, l.Type(), r.Type()), registry, row);
      BinaryMeansTheSame(op, lhs, rhs, b, registry, row,
                         if tables == [] then None else Some(Row(tables[0].schema, tuple)));
    case IsNull(arg, negated) => BoundMeansTheSame(arg, registry, tables, tuple);
    case Cast(arg, typeName) =>
      BoundMeansTheSame(arg, registry, tables, tuple);
      CoerceMeansTheSame(Bind(arg, registry, tables).e, TypeNamed(typeName), registry, row);
    case Call(name, args) =>
      ArgsMeanTheSame(args, registry[LowerCase(name)].argTypes, registry, tables, tuple);
      CallMeansTheSame(name, args, registry, tables, tuple);
    case _ =>
  }

  lemma CallMeansTheSame(name: string, args: seq<Expr>, registry: Registry, tables: seq<TableRef>, tuple: seq<Value>)
    requires Bind(Call(name, args), registry, tables).Bound?
    requires |tables| <= 1 && (tables != [] ==> |tuple| == |tables[0].schema|)
    requires var types := registry[LowerCase(name)].argTypes;
      && |args| == |types| && BindAll(args, types, registry, tables).AllBound?
      && EvalBoundAll(BindAll(args, types, registry, tables).es, registry,
                      if tables == [] then None else Some(tuple)) ==
           EvalAll(args, registry, if tables == [] then None else Some(Row(tables[0].schema, tuple)))
    ensures EvalBound(Bind(Call(name, args), registry, tables).e, registry,
                      if tables == [] then None else Some(tuple)) ==
      Eval(Call(name, args), registry, if tables == [] then None else Some(Row(tables[0].schema, tuple)))
  {
    hide LowerCase, BindAll, EvalAll, EvalBoundAll, ContainsAggregate;
    LowerCaseTwice(name);
  }

  lemma {:induction false} ArgsMeanTheSame(es: seq<Expr>, types: seq<DataType>, registry: Registry,
                                           tables: seq<TableRef>, tuple: seq<Value>)
    requires |tables| <= 1 && (tables != [] ==> |tuple| == |tables[0].schema|)
    requires |es| == |types| && BindAll(es, types, registry, tables).AllBound?
    ensures EvalBoundAll(BindAll(es, types, registry, tables).es, registry,
                         if tables == [] then None else Some(tuple)) ==
      EvalAll(es, registry, if tables == [] then None else Some(Row(tables[0].schema, tuple)))
    decreases es, 0
  {
    hide Bind, EvalBound, Eval;
    if es != [] {
      var n := |es| - 1;
      ArgsMeanTheSame(es[..n], types[..n], registry, tables, tuple);
      BoundMeansTheSame(es[n], registry, tables, tuple);
      var before, last := BindAll(es[..n], types[..n], registry, tables).es,
          Coerce(Bind(es[n], registry, tables).e, Some(types[n]));
      assert BindAll(es, types, registry, tables).es == before + [last];
      var row := if tables == [] then None else Some(tuple);
      CoerceMeansTheSame(Bind(es[n], registry, tables).e, Some(types[n]), registry, row);
      LastMeansTheSame(es, before, last, registry, row,
                       if tables == [] then None else Some(Row(tables[0].schema, tuple)));
    }
  }

  lemma LastMeansTheSame(es: seq<Expr>, before: seq<BoundExpr>, last: BoundExpr, registry: Registry,
                         row: Option<seq<Value>>, named: Option<Row>)
    requires es != [] && EvalBoundAll(before, registry, row) == EvalAll(es[..|es|-1], registry, named)
    requires EvalBound(last, registry, row) == Eval(es[|es|-1], registry, named)
    ensures EvalBoundAll(before + [last], registry, row) == EvalAll(es, registry, named)
  {
    hide EvalBound, Eval;
    assert (before + [last])[..|before + [last]|-1] == before;
  }
}
