/** Evaluating expressions to values (src/eval.rs): checked arithmetic, three-valued logic, casts and functions. */
module Evaluator {
  import opened Options
  import opened KeyOrder
  import opened KeyCodec
  import opened Expressions

  datatype EvalError =
    | Overflow | DivisionByZero | CastFailed
    | OperatorType | FunctionType | FunctionArity
    | UnknownFunction | UnknownType | NoSuchColumn | NoRow | AggregateInRow | UnboundParam

  datatype Outcome = Val(value: Value) | Fail(error: EvalError)

  // ---- Three-valued logic

  datatype Tri = True | False | Unknown

  function TriNot(t: Tri): Tri {
    match t
    case True => False
    case False => True
    case Unknown => Unknown
  }

  function TriAnd(l: Tri, r: Tri): Tri {
    if l == False || r == False then False
    else if l == True && r == True then True
    else Unknown
  }

  function TriOr(l: Tri, r: Tri): Tri {
    if l == True || r == True then True
    else if l == False && r == False then False
    else Unknown
  }

  function TriValue(t: Tri): Value {
    match t
    case True => Boolean(true)
    case False => Boolean(false)
    case Unknown => Null
  }

  /** `value_to_tri`, `None` for values that are no truth value. */
  function ValueTri(v: Value): Option<Tri> {
    match v
    case Null => Some(Unknown)
    case Boolean(b) => Some(if b then True else False)
    case _ => None
  }

  // ---- Operators

  predicate FitsI64(x: int) {
    -0x8000_0000_0000_0000 <= x < 0x8000_0000_0000_0000
  }

  function Checked(x: int): Outcome {
    if FitsI64(x) then Val(BigInt(x as i64)) else Fail(Overflow)
  }

  /** Division that drops the fraction, as Rust does. */
  function Truncate(a: int, b: int): int
    requires b != 0
  {
    var q := (if a < 0 then -a else a) / (if b < 0 then -b else b);
    if (a < 0) == (b < 0) then q else -q
  }

  /** The quotient is within one divisor of the dividend, and the rest has the sign of the dividend. */
  lemma TruncateMeans(a: int, b: int)
    requires b != 0
    ensures var rest := a - Truncate(a, b) * b;
      && (a >= 0 ==> rest >= 0) && (a <= 0 ==> rest <= 0)
      && (b > 0 ==> -b < rest < b) && (b < 0 ==> b < rest < -b)
  {
    hide Truncate, Whole;
    TruncateProduct(a, b);
  }

  /** The largest multiple of `y` up to `x`. */
  function Whole(x: nat, y: nat): (w: nat)
    requires y > 0
    ensures w <= x < w + y
  {
    x / y * y
  }

  lemma TruncateProduct(a: int, b: int)
    requires b != 0
    ensures var whole := Whole(if a < 0 then -a else a, if b < 0 then -b else b);
      Truncate(a, b) * b == if a < 0 then -(whole as int) else whole
  {
    var x: int, y: int := if a < 0 then -a else a, if b < 0 then -b else b;
    var q: int := x / y;
    Signs(q, y);
    if a < 0 {
      if b < 0 { assert Truncate(a, b) == q && b == -y; } else { assert Truncate(a, b) == -q && b == y; }
    } else {
      if b < 0 { assert Truncate(a, b) == -q && b == -y; } else { assert Truncate(a, b) == q && b == y; }
    }
  }

  lemma Signs(q: int, y: int)
    ensures (-q) * y == -(q * y) && q * (-y) == -(q * y) && (-q) * (-y) == q * y
  {
  }

  function EvalUnary(op: UnaryOp, v: Value): Outcome {
    match op
    case Negate =>
      (match v
       case Null => Val(Null)
       case BigInt(n) => Checked(-(n as int))
       case _ => Fail(OperatorType))
    case Not =>
      match ValueTri(v)
      case Some(t) => Val(TriValue(TriNot(t)))
      case None => Fail(OperatorType)
  }

  function EvalArith(op: BinaryOp, l: Value, r: Value): Outcome
    requires op.Arithmetic()
  {
    if l == Null || r == Null then Val(Null)
    else if l.BigInt? && r.BigInt? then
      var a, b := l.n as int, r.n as int;
      match op
      case Add => Checked(a + b)
      case Subtract => Checked(a - b)
      case Multiply => Checked(a * b)
      case Divide => if b == 0 then Fail(DivisionByZero) else Checked(Truncate(a, b))
    else Fail(OperatorType)
  }

  function EvalCompare(op: BinaryOp, l: Value, r: Value): Outcome
    requires !op.Arithmetic() && !op.Logical()
  {
    if l == Null || r == Null then Val(Null)
    else if l.Type() != r.Type() then Fail(OperatorType)
    else
      match op
      case Eq => Val(Boolean(l == r))
      case NotEq => Val(Boolean(l != r))
      case Lt => Val(Boolean(ValueLess(l, r)))
      case LtEq => Val(Boolean(!ValueLess(r, l)))
      case Gt => Val(Boolean(ValueLess(r, l)))
      case GtEq => Val(Boolean(!ValueLess(l, r)))
  }

  function EvalLogic(op: BinaryOp, l: Tri, r: Value): Outcome
    requires op.Logical()
  {
    match ValueTri(r)
    case None => Fail(OperatorType)
    case Some(t) => Val(TriValue(if op.And? then TriAnd(l, t) else TriOr(l, t)))
  }

  // ---- Casts

  function Digit(d: nat): byte
    requires d < 10
  {
    (48 + d) as byte
  }

  /** Decimal digits of a number. */
  function Digits(n: nat): (s: seq<byte>)
    ensures |s| > 0 && forall i :: 0 <= i < |s| ==> 48 <= s[i] <= 57
  {
    if n < 10 then [Digit(n)] else Digits(n / 10) + [Digit(n % 10)]
  }

  lemma {:induction false} AsciiIsUtf8(s: seq<byte>)
    requires forall i :: 0 <= i < |s| ==> s[i] < 0x80
    ensures IsUtf8(s)
  {
    if s != [] {
      AsciiIsUtf8(s[1..]);
    }
  }

  /** `to_string` of a BIGINT. */
  function DecimalText(n: i64): Utf8 {
    var s := if n < 0 then [45] + Digits(-(n as int)) else Digits(n as int);
    AsciiIsUtf8(s);
    s
  }

  /** The number that a list of digits stands for; `None` for none at all or for other bytes. */
  function FromDigits(s: seq<byte>): Option<nat> {
    if s == [] then None
    else
      var d := s[|s|-1];
      if !(48 <= d <= 57) then None
      else if |s| == 1 then Some((d - 48) as nat)
      else
        match FromDigits(s[..|s|-1])
        case None => None
        case Some(n) => Some(10 * n + (d - 48) as nat)
  }

  /** `parse::<i64>`: an optional sign, then digits, within range. */
  function ParseI64(s: seq<byte>): Option<i64> {
    var negative := s != [] && s[0] == 45;
    var digits := if s != [] && (s[0] == 45 || s[0] == 43) then s[1..] else s;
    match FromDigits(digits)
    case None => None
    case Some(n) =>
      var x: int := if negative then -(n as int) else n;
      if FitsI64(x) then Some(x as i64) else None
  }

  lemma {:induction false} FromDigitsOfDigits(n: nat)
    ensures FromDigits(Digits(n)) == Some(n)
  {
    if n >= 10 {
      FromDigitsOfDigits(n / 10);
      var s := Digits(n);
      assert s[..|s|-1] == Digits(n / 10) && s[|s|-1] == Digit(n % 10);
    }
  }

  lemma ParseDecimal(n: i64)
    ensures ParseI64(DecimalText(n)) == Some(n)
  {
    hide Digits, FromDigits, IsUtf8;
    if n < 0 {
      FromDigitsOfDigits(-(n as int));
      assert ([45] + Digits(-(n as int)))[1..] == Digits(-(n as int));
    } else {
      FromDigitsOfDigits(n as int);
    }
  }

  function LowerByte(b: byte): byte {
    if 65 <= b <= 90 then b + 32 else b
  }

  function LowerBytes(s: seq<byte>): seq<byte> {
    seq(|s|, i requires 0 <= i < |s| => LowerByte(s[i]))
  }

  /** "true" and "false" in ASCII. */
  function BoolText(b: bool): Utf8 {
    var s: seq<byte> := if b then [116, 114, 117, 101] else [102, 97, 108, 115, 101];
    AsciiIsUtf8(s);
    s
  }

  function EvalCast(v: Value, target: DataType): Outcome {
    match (v, target)
    case (Null, _) => Val(Null)
    case (BigInt(_), BigIntType) => Val(v)
    case (Text(_), TextType) => Val(v)
    case (Boolean(_), BooleanType) => Val(v)
    case (BigInt(n), TextType) => Val(Text(DecimalText(n)))
    case (Boolean(b), TextType) => Val(Text(BoolText(b)))
    case (Text(s), BigIntType) => (match ParseI64(s) case Some(n) => Val(BigInt(n)) case None => Fail(CastFailed))
    case (Text(s), BooleanType) =>
      if LowerBytes(s) == BoolText(true) then Val(Boolean(true))
      else if LowerBytes(s) == BoolText(false) then Val(Boolean(false))
      else Fail(CastFailed)
    case _ => Fail(CastFailed)
  }

  /** Casting to TEXT and back is the identity on every value. */
  lemma CastRoundTrip(v: Value, t: DataType)
    requires v == Null || v.Type() == Some(t)
    ensures EvalCast(v, TextType).Val? && EvalCast(EvalCast(v, TextType).value, t) == Val(v)
  {
    hide ParseI64, DecimalText, Digits, IsUtf8;
    match v
    case BigInt(n) => ParseDecimal(n);
    case Boolean(b) =>
      assert LowerBytes(BoolText(b)) == BoolText(b);
      assert |BoolText(true)| != |BoolText(false)|;
    case _ =>
  }

  /** Comparing values is comparing their index keys, and the bounds of an index scan select exactly the rows for
      which the comparison is TRUE. */
  lemma CompareAgreesWithIndex(v: Value, w: Value)
    requires v != Null && w != Null && v.Type() == w.Type()
    ensures EvalCompare(Lt, v, w) == Val(Boolean(Less(EncodeKey(v).value, EncodeKey(w).value)))
    ensures EvalCompare(Eq, v, w) == Val(Boolean(EncodeKey(v) == EncodeKey(w)))
    ensures EvalCompare(GtEq, v, w) == Val(Boolean(NotBelow(Included(w), v)))
    ensures EvalCompare(Gt, v, w) == Val(Boolean(NotBelow(Excluded(w), v)))
    ensures EvalCompare(LtEq, v, w) == Val(Boolean(NotAbove(Included(w), v)))
    ensures EvalCompare(Lt, v, w) == Val(Boolean(NotAbove(Excluded(w), v)))
    ensures EvalCompare(Eq, v, w) == Val(Boolean(NotBelow(Included(w), v) && NotAbove(Included(w), v)))
    ensures EvalCompare(NotEq, v, w) == Val(Boolean(EncodeKey(v) != EncodeKey(w)))
  {
    hide EncodeKey, ValueLess, Less;
    EncodeIsOrderEmbedding(v, w);
    EncodeIsOrderEmbedding(w, v);
    DecodeEncode(v);
    DecodeEncode(w);
    LessIsRank(EncodeKey(v).value, EncodeKey(w).value);
    LessIsRank(EncodeKey(w).value, EncodeKey(v).value);
  }

  // ---- Functions

  datatype FunctionEntry = FunctionEntry(func: seq<Value> -> Outcome, argTypes: seq<DataType>, returnType: DataType)

  /** Functions by their lower-case name. */
  type Registry = map<string, FunctionEntry>

  function CallFunction(registry: Registry, name: string, args: seq<Value>): Outcome {
    if LowerCase(name) in registry then registry[LowerCase(name)].func(args) else Fail(UnknownFunction)
  }

  function BuiltinAbs(args: seq<Value>): Outcome {
    if |args| != 1 then Fail(FunctionArity)
    else
      match args[0]
      case Null => Val(Null)
      case BigInt(n) => Checked(if n < 0 then -(n as int) else n as int)
      case _ => Fail(FunctionType)
  }

  /** Number of code points: every byte but the continuation bytes starts one. */
  function CodePoints(s: seq<byte>): nat {
    if s == [] then 0 else (if Tail(s[0]) then 0 else 1) + CodePoints(s[1..])
  }

  /** `as i64` */
  function WrapI64(n: nat): i64 {
    var m := n % (2 * TOP_BIT);
    (if m < TOP_BIT then m else m - 2 * TOP_BIT) as i64
  }

  function BuiltinLength(args: seq<Value>): Outcome {
    if |args| != 1 then Fail(FunctionArity)
    else
      match args[0]
      case Null => Val(Null)
      case Text(s) => Val(BigInt(WrapI64(CodePoints(s))))
      case _ => Fail(FunctionType)
  }

  function Register(registry: Registry, name: string, entry: FunctionEntry): Registry {
    registry[LowerCase(name) := entry]
  }

  function WithBuiltins(): Registry {
    Register(Register(map[], "abs", FunctionEntry(args => BuiltinAbs(args), [BigIntType], BigIntType)),
             "length", FunctionEntry(args => BuiltinLength(args), [TextType], BigIntType))
  }

  // ---- Expressions

  /** `eval_expr` */
  function Eval(e: Expr, registry: Registry, row: Option<Row>): Outcome
    decreases e, 1
  {
    match e
    case IntLiteral(n) => Val(BigInt(n))
    case StringLiteral(s) => Val(Text(s))
    case BoolLiteral(b) => Val(Boolean(b))
    case NullLiteral => Val(Null)
    case ColumnRef(_, name) =>
      if row.None? then Fail(NoRow)
      else
        var i := IndexOf(row.value.schema, name);
        if i.Some? && i.value < |row.value.tuple| then Val(row.value.tuple[i.value]) else Fail(NoSuchColumn)
    case Paren(arg) => Eval(arg, registry, row)
    case Unary(op, arg) =>
      var v := Eval(arg, registry, row);
      if v.Fail? then v else EvalUnary(op, v.value)
    case Binary(op, lhs, rhs) =>
      var l := Eval(lhs, registry, row);
      if l.Fail? then l
      else if op.Logical() then
        var t := ValueTri(l.value);
        if t.None? then Fail(OperatorType)
        else
          var r := Eval(rhs, registry, row);
          if r.Fail? then r else EvalLogic(op, t.value, r.value)
      else
        var r := Eval(rhs, registry, row);
        if r.Fail? then r
        else if op.Arithmetic() then EvalArith(op, l.value, r.value)
        else EvalCompare(op, l.value, r.value)
    case IsNull(arg, negated) =>
      var v := Eval(arg, registry, row);
      if v.Fail? then v else Val(Boolean((v.value == Null) != negated))
    case Cast(arg, typeName) =>
      var v := Eval(arg, registry, row);
      if v.Fail? then v
      else if TypeNamed(typeName).None? then Fail(UnknownType)
      else EvalCast(v.value, TypeNamed(typeName).value)
    case Call(name, args) =>
      (match EvalAll(args, registry, row)
       case Values(vs) => CallFunction(registry, name, vs)
       case Failed(error) => Fail(error))
    case Aggregate(_, _) => Fail(AggregateInRow)
    case Param(_) => Fail(UnboundParam)
  }

  datatype Outcomes = Values(values: seq<Value>) | Failed(error: EvalError)

  /** Arguments from left to right, up to the first that fails. */
  function EvalAll(es: seq<Expr>, registry: Registry, row: Option<Row>): Outcomes
    decreases es, 0
  {
    if es == [] then Values([])
    else
      match EvalAll(es[..|es|-1], registry, row)
      case Failed(error) => Failed(error)
      case Values(vs) =>
        match Eval(es[|es|-1], registry, row)
        case Fail(error) => Failed(error)
        case Val(v) => Values(vs + [v])
  }

  /** `eval_bound_expr` */
  function EvalBound(e: BoundExpr, registry: Registry, row: Option<seq<Value>>): Outcome
    decreases e, 1
  {
    match e
    case BInt(n) => Val(BigInt(n))
    case BString(s) => Val(Text(s))
    case BBool(b) => Val(Boolean(b))
    case BNull => Val(Null)
    case BColumn(_, column, _, _) =>
      if row.None? then Fail(NoRow)
      else if column < |row.value| then Val(row.value[column])
      else Fail(NoSuchColumn)
    case BParen(arg) => EvalBound(arg, registry, row)
    case BUnary(op, arg, _) =>
      var v := EvalBound(arg, registry, row);
      if v.Fail? then v else EvalUnary(op, v.value)
    case BBinary(op, lhs, rhs, _) =>
      var l := EvalBound(lhs, registry, row);
      if l.Fail? then l
      else if op.Logical() then
        var t := ValueTri(l.value);
        if t.None? then Fail(OperatorType)
        else
          var r := EvalBound(rhs, registry, row);
          if r.Fail? then r else EvalLogic(op, t.value, r.value)
      else
        var r := EvalBound(rhs, registry, row);
        if r.Fail? then r
        else if op.Arithmetic() then EvalArith(op, l.value, r.value)
        else EvalCompare(op, l.value, r.value)
    case BIsNull(arg, negated) =>
      var v := EvalBound(arg, registry, row);
      if v.Fail? then v else Val(Boolean((v.value == Null) != negated))
    case BCast(arg, target) =>
      var v := EvalBound(arg, registry, row);
      if v.Fail? then v else EvalCast(v.value, target)
    case BCall(name, args, _) =>
      (match EvalBoundAll(args, registry, row)
       case Values(vs) => CallFunction(registry, name, vs)
       case Failed(error) => Fail(error))
    case BAggregate(_, _, _) => Fail(AggregateInRow)
    case BParam(_, _) => Fail(UnboundParam)
  }

  function EvalBoundAll(es: seq<BoundExpr>, registry: Registry, row: Option<seq<Value>>): Outcomes
    decreases es, 0
  {
    if es == [] then Values([])
    else
      match EvalBoundAll(es[..|es|-1], registry, row)
      case Failed(error) => Failed(error)
      case Values(vs) =>
        match EvalBound(es[|es|-1], registry, row)
        case Fail(error) => Failed(error)
        case Val(v) => Values(vs + [v])
  }
}
