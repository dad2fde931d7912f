/** SQL expressions before and after name resolution (src/ast.rs, src/binder.rs), and rows (src/types.rs). */
module Expressions {
  import opened Options
  import opened KeyCodec

  datatype UnaryOp = Negate | Not

  datatype BinaryOp = Add | Subtract | Multiply | Divide | And | Or | Eq | NotEq | Lt | LtEq | Gt | GtEq {
    predicate Arithmetic() { Add? || Subtract? || Multiply? || Divide? }
    predicate Logical() { And? || Or? }
  }

  datatype AggregateFunc = Count | Sum | Min | Max

  datatype Expr =
    | IntLiteral(n: i64)
    | StringLiteral(text: Utf8)
    | BoolLiteral(b: bool)
    | NullLiteral
    | Param(index: nat)
    | ColumnRef(qualifier: Option<string>, name: string)
    | Unary(uop: UnaryOp, arg: Expr)
    | Binary(op: BinaryOp, lhs: Expr, rhs: Expr)
    | IsNull(arg: Expr, negated: bool)
    | Call(fname: string, args: seq<Expr>)
    | Aggregate(func: AggregateFunc, of: Option<Expr>)
    | Paren(arg: Expr)
    | Cast(arg: Expr, typeName: string)

  /** Columns by index into the concatenated row, and a type on every node that has one. */
  datatype BoundExpr =
    | BInt(n: i64)
    | BString(text: Utf8)
    | BBool(b: bool)
    | BNull
    | BParam(index: nat, hint: Option<DataType>)
    | BColumn(table: nat, column: nat, name: string, dataType: DataType)
    | BUnary(uop: UnaryOp, arg: BoundExpr, dataType: DataType)
    | BBinary(op: BinaryOp, lhs: BoundExpr, rhs: BoundExpr, dataType: DataType)
    | BIsNull(arg: BoundExpr, negated: bool)
    | BCall(fname: string, args: seq<BoundExpr>, dataType: DataType)
    | BAggregate(func: AggregateFunc, of: Option<BoundExpr>, dataType: DataType)
    | BParen(arg: BoundExpr)
    | BCast(arg: BoundExpr, dataType: DataType)
  {
    /** `data_type`: `None` for NULL, in parentheses or not, and for parameters of unknown type. */
    function Type(): Option<DataType> {
      match this
      case BInt(_) => Some(BigIntType)
      case BString(_) => Some(TextType)
      case BBool(_) | BIsNull(_, _) => Some(BooleanType)
      case BNull => None
      case BParam(_, hint) => hint
      case BColumn(_, _, _, t) => Some(t)
      case BUnary(_, _, t) => Some(t)
      case BBinary(_, _, _, t) => Some(t)
      case BCall(_, _, t) => Some(t)
      case BAggregate(_, _, t) => Some(t)
      case BCast(_, t) => Some(t)
      case BParen(e) => e.Type()
    }
  }

  datatype Column = Column(name: string, dataType: DataType, nullable: bool, primaryKey: bool, unique: bool)

  type Schema = seq<Column>

  /** The first column of this name. */
  function IndexOf(schema: Schema, name: string): (i: Option<nat>)
    ensures i.Some? ==> i.value < |schema| && schema[i.value].name == name
    ensures i.Some? ==> forall j :: 0 <= j < i.value ==> schema[j].name != name
    ensures i.None? ==> forall j :: 0 <= j < |schema| ==> schema[j].name != name
  {
    if schema == [] then None
    else if schema[0].name == name then Some(0)
    else
      match IndexOf(schema[1..], name)
      case None => None
      case Some(i) => Some(i + 1)
  }

  /** A tuple read under the column names of its table. */
  datatype Row = Row(schema: Schema, tuple: seq<Value>)

  function UpperCaseChar(c: char): char {
    if 'a' <= c <= 'z' then c - ' ' else c
  }

  function LowerCaseChar(c: char): char {
    if 'A' <= c <= 'Z' then c + ' ' else c
  }

  function UpperCase(s: string): string {
    seq(|s|, i requires 0 <= i < |s| => UpperCaseChar(s[i]))
  }

  function LowerCase(s: string): string {
    seq(|s|, i requires 0 <= i < |s| => LowerCaseChar(s[i]))
  }

  lemma LowerCaseTwice(s: string)
    ensures LowerCase(LowerCase(s)) == LowerCase(s)
  {
    assert forall i :: 0 <= i < |s| ==> LowerCaseChar(LowerCaseChar(s[i])) == LowerCaseChar(s[i]);
  }

  /** `from_sql_name` */
  function TypeNamed(name: string): Option<DataType> {
    var upper := UpperCase(name);
    if upper == "BIGINT" then Some(BigIntType)
    else if upper == "TEXT" then Some(TextType)
    else if upper == "BOOLEAN" then Some(BooleanType)
    else None
  }
}
