/** Name resolution and type checking (src/binder.rs): from expressions to bound expressions. */
module Binder {
  import opened Options
  import opened KeyCodec
  import opened Expressions
  import opened Evaluator

  datatype TableRef = TableRef(name: string, alias: Option<string>, schema: Schema) {
    function Qualifier(): string {
      if alias.Some? then alias.value else name
    }
  }

  datatype BindError =
    | UnknownTable | ColumnNotFound | AmbiguousColumn
    | WrongOperand | WrongArgument | WrongArgumentCount | NoSuchFunction | NoSuchType
    | NestedAggregate | WrongAggregate | NotAPredicate

  datatype Binding = Bound(e: BoundExpr) | Refused(error: BindError)

  // ---- Columns

  /** `table_offset`: the number of columns of the tables before this one. */
  function TableOffset(tables: seq<TableRef>, ordinal: nat): nat
    requires ordinal <= |tables|
  {
    if ordinal == 0 then 0 else TableOffset(tables, ordinal - 1) + |tables[ordinal-1].schema|
  }

  /** The first table with this qualifier. */
  function FindTable(tables: seq<TableRef>, qualifier: string): (i: Option<nat>)
    ensures i.Some? ==> i.value < |tables| && tables[i.value].Qualifier() == qualifier
    ensures i.Some? ==> forall j :: 0 <= j < i.value ==> tables[j].Qualifier() != qualifier
    ensures i.None? ==> forall j :: 0 <= j < |tables| ==> tables[j].Qualifier() != qualifier
  {
    if tables == [] then None
    else if tables[0].Qualifier() == qualifier then Some(0)
    else
      match FindTable(tables[1..], qualifier)
      case None => None
      case Some(i) => Some(i + 1)
  }

  /** The tables among the first `n` that have a column of this name, in order. */
  function Owners(tables: seq<TableRef>, name: string, n: nat): (owners: seq<nat>)
    requires n <= |tables|
    ensures forall t: nat :: t in owners <==> t < n && IndexOf(tables[t].schema, name).Some?
    ensures forall i, j :: 0 <= i < j < |owners| ==> owners[i] < owners[j]
    ensures forall i :: 0 <= i < |owners| ==> owners[i] < n
  {
    if n == 0 then []
    else
      var before := Owners(tables, name, n - 1);
      if IndexOf(tables[n-1].schema, name).Some? then before + [n - 1] else before
  }

  function ColumnOf(tables: seq<TableRef>, ordinal: nat, name: string): BoundExpr
    requires ordinal < |tables| && IndexOf(tables[ordinal].schema, name).Some?
  {
    var local := IndexOf(tables[ordinal].schema, name).value;
    BColumn(ordinal, TableOffset(tables, ordinal) + local, name, tables[ordinal].schema[local].dataType)
  }

  /** `resolve_column` */
  function ResolveColumn(tables: seq<TableRef>, qualifier: Option<string>, name: string): Binding {
    match qualifier
    case Some(q) =>
      var t := FindTable(tables, q);
      if t.None? then Refused(UnknownTable)
      else if IndexOf(tables[t.value].schema, name).None? then Refused(ColumnNotFound)
      else Bound(ColumnOf(tables, t.value, name))
    case None =>
      var owners := Owners(tables, name, |tables|);
      if owners == [] then Refused(ColumnNotFound)
      else if |owners| == 1 then
        assert owners[0] in owners;
        Bound(ColumnOf(tables, owners[0], name))
      else Refused(AmbiguousColumn)
  }

  // ---- Types

  /** `coerce_param_type` */
  function Coerce(e: BoundExpr, hint: Option<DataType>): BoundExpr {
    if e.BParam? && e.hint.None? && hint.Some? then BParam(e.index, hint) else e
  }

  predicate NoneOr(actual: Option<DataType>, expected: DataType) {
    actual.None? || actual.value == expected
  }

  /** `check_unary_type` */
  function CheckUnary(op: UnaryOp, operand: Option<DataType>): Option<DataType> {
    match op
    case Negate => if NoneOr(operand, BigIntType) then Some(BigIntType) else None
    case Not => if NoneOr(operand, BooleanType) then Some(BooleanType) else None
  }

  /** `check_binary_type` */
  function CheckBinary(op: BinaryOp, l: Option<DataType>, r: Option<DataType>): Option<DataType> {
    if op.Arithmetic() then
      if NoneOr(l, BigIntType) && NoneOr(r, BigIntType) then Some(BigIntType) else None
    else if op.Logical() then
      if NoneOr(l, BooleanType) && NoneOr(r, BooleanType) then Some(BooleanType) else None
    else if l.None? || r.None? || l == r then Some(BooleanType)
    else None
  }

  function OperandHint(op: BinaryOp, l: Option<DataType>, r: Option<DataType>): Option<DataType> {
    if op.Arithmetic() then Some(BigIntType)
    else if op.Logical() then Some(BooleanType)
    else if l.Some? then l
    else r
  }

  predicate ContainsAggregate(e: BoundExpr) {
    match e
    case BAggregate(_, _, _) => true
    case BUnary(_, arg, _) => ContainsAggregate(arg)
    case BBinary(_, lhs, rhs, _) => ContainsAggregate(lhs) || ContainsAggregate(rhs)
    case BIsNull(arg, _) => ContainsAggregate(arg)
    case BCall(_, args, _) => exists i :: 0 <= i < |args| && ContainsAggregate(args[i])
    case BParen(arg) => ContainsAggregate(arg)
    case BCast(arg, _) => ContainsAggregate(arg)
    case _ => false
  }

  /** `check_aggregate_arg_type` */
  function AggregateType(func: AggregateFunc, of: Option<BoundExpr>): Option<DataType> {
    match func
    case Count => Some(BigIntType)
    case Sum => if of.Some? && !NoneOr(of.value.Type(), BigIntType) then None else Some(BigIntType)
    case _ => Some(if of.Some? && of.value.Type().Some? then of.value.Type().value else TextType)
  }

  // ---- Expressions

  datatype Bindings = AllBound(es: seq<BoundExpr>) | OneRefused(error: BindError)

  /** `bind_expr` */
  function Bind(e: Expr, registry: Registry, tables: seq<TableRef>): Binding
    decreases e, 1
  {
    match e
    case IntLiteral(n) => Bound(BInt(n))
    case StringLiteral(s) => Bound(BString(s))
    case BoolLiteral(b) => Bound(BBool(b))
    case NullLiteral => Bound(BNull)
    case Param(index) => Bound(BParam(index, None))
    case ColumnRef(qualifier, name) => ResolveColumn(tables, qualifier, name)
    case Paren(arg) =>
      var inner := Bind(arg, registry, tables);
      if inner.Refused? then inner else Bound(BParen(inner.e))
    case Unary(op, arg) =>
      var inner := Bind(arg, registry, tables);
      if inner.Refused? then inner
      else
        var operand := Coerce(inner.e, Some(if op.Negate? then BigIntType else BooleanType));
        var t := CheckUnary(op, operand.Type());
        if t.None? then Refused(WrongOperand) else Bound(BUnary(op, operand, t.value))
    case Binary(op, lhs, rhs) =>
      var l := Bind(lhs, registry, tables);
      if l.Refused? then l
      else
        var r := Bind(rhs, registry, tables);
        if r.Refused? then r
        else
          var hint := OperandHint(op, l.e.Type(), r.e.Type());
          var l', r' := Coerce(l.e, hint), Coerce(r.e, hint);
          var t := CheckBinary(op, l'.Type(), r'.Type());
          if t.None? then Refused(WrongOperand) else Bound(BBinary(op, l', r', t.value))
    case IsNull(arg, negated) =>
      var inner := Bind(arg, registry, tables);
      if inner.Refused? then inner else Bound(BIsNull(inner.e, negated))
    case Cast(arg, typeName) =>
      var t := TypeNamed(typeName);
      if t.None? then Refused(NoSuchType)
      else
        var inner := Bind(arg, registry, tables);
        if inner.Refused? then inner else Bound(BCast(Coerce(inner.e, t), t.value))
    case Call(name, args) =>
      if LowerCase(name) !in registry then Refused(NoSuchFunction)
      else
        var entry := registry[LowerCase(name)];
        if |args| != |entry.argTypes| then Refused(WrongArgumentCount)
        else
          (match BindAll(args, entry.argTypes, registry, tables)
           case OneRefused(error) => Refused(error)
           case AllBound(es) => Bound(BCall(LowerCase(name), es, entry.returnType)))
    case Aggregate(func, of) =>
      (match of
       case None => BindAggregate(func, None)
       case Some(arg) =>
         var inner := Bind(arg, registry, tables);
         if inner.Refused? then inner
         else if ContainsAggregate(inner.e) then Refused(NestedAggregate)
         else BindAggregate(func, Some(inner.e)))
  }

  function BindAggregate(func: AggregateFunc, of: Option<BoundExpr>): Binding {
    var t := AggregateType(func, of);
    if t.None? then Refused(WrongAggregate) else Bound(BAggregate(func, of, t.value))
  }

  /** Arguments from left to right against the types of the signature. */
  function BindAll(es: seq<Expr>, types: seq<DataType>, registry: Registry, tables: seq<TableRef>): Bindings
    requires |es| == |types|
    decreases es, 0
  {
    if es == [] then AllBound([])
    else
      var n := |es| - 1;
      match BindAll(es[..n], types[..n], registry, tables)
      case OneRefused(error) => OneRefused(error)
      case AllBound(before) =>
        match Bind(es[n], registry, tables)
        case Refused(error) => OneRefused(error)
        case Bound(inner) =>
          var e := Coerce(inner, Some(types[n]));
          if NoneOr(e.Type(), types[n]) then AllBound(before + [e]) else OneRefused(WrongArgument)
  }

  /** `bind_predicate` for WHERE, HAVING and ON. */
  function BindPredicate(e: Expr, registry: Registry, tables: seq<TableRef>): Binding {
    var b := Bind(e, registry, tables);
    if b.Refused? || NoneOr(b.e.Type(), BooleanType) then b else Refused(NotAPredicate)
  }
}
