/** What expressions evaluate to, said without the evaluator's own functions (src/eval.rs). */
module EvalMeaning {
  import opened Options
  import opened KeyOrder
  import opened KeyCodec
  import opened Expressions
  import opened Evaluator
  import opened TextMeaning

  // ---- Arithmetic

  /** `c` is the exact result. A quotient leaves a rest that is smaller than the divisor and has the sign of the
      dividend. */
  ghost predicate Exact(op: BinaryOp, a: int, b: int, c: int)
    requires op.Arithmetic()
  {
    match op
    case Add => c == a + b
    case Subtract => c + b == a
    case Multiply => c == a * b
    case Divide =>
      var rest := a - c * b;
      && b != 0
      && (a >= 0 ==> rest >= 0) && (a <= 0 ==> rest <= 0)
      && (b > 0 ==> -b < rest < b) && (b < 0 ==> b < rest < -b)
  }

  /** The result if it is a 64-bit number, and otherwise why there is none. */
  ghost predicate Computes(op: BinaryOp, a: i64, b: i64, o: Outcome)
    requires op.Arithmetic()
  {
    && (forall c: i64 :: o == Val(BigInt(c)) <==> Gives(op, a, b, c))
    && (o == Fail(DivisionByZero) <==> op.Divide? && b == 0)
    && (o == Fail(Overflow) <==> !(op.Divide? && b == 0) && forall c: i64 :: !Gives(op, a, b, c))
  }

  ghost predicate Gives(op: BinaryOp, a: i64, b: i64, c: i64)
    requires op.Arithmetic()
  {
    Exact(op, a as int, b as int, c as int)
  }

  lemma ComputesOnce(op: BinaryOp, a: i64, b: i64, o: Outcome, o': Outcome)
    requires op.Arithmetic() && Computes(op, a, b, o) && Computes(op, a, b, o')
    ensures o == o'
  {
    if c: i64 :| Gives(op, a, b, c) {
      assert o == Val(BigInt(c));
    }
  }

  lemma QuotientOnce(a: int, b: int, c: int, d: int)
    requires Exact(Divide, a, b, c) && Exact(Divide, a, b, d)
    ensures c == d
  {
    assert (c - d) * b == (a - d * b) - (a - c * b);
    if c - d >= 1 {
      Larger(c - d, b);
    } else if d - c >= 1 {
      assert (d - c) * b == -((c - d) * b);
      Larger(d - c, b);
    }
  }

  lemma Larger(k: int, b: int)
    requires k >= 1
    ensures b >= 0 ==> k * b >= b
    ensures b <= 0 ==> k * b <= b
  {
    assert k * b == b + (k - 1) * b;
  }

  lemma ArithMeans(op: BinaryOp, a: i64, b: i64)
    requires op.Arithmetic()
    ensures Computes(op, a, b, EvalArith(op, BigInt(a), BigInt(b)))
  {
    hide Truncate, Exact;
    var x, y := a as int, b as int;
    if op.Divide? && y == 0 {
      NoQuotient(x);
    } else {
      var exact := if op.Add? then x + y else if op.Subtract? then x - y else if op.Multiply? then x * y
          else Truncate(x, y);
      forall c: i64 ensures Gives(op, a, b, c) <==> c as int == exact {
        OneResult(op, x, y, c as int);
      }
      if FitsI64(exact) {
        assert Gives(op, a, b, exact as i64);
      }
    }
  }

  lemma NoQuotient(a: int)
    ensures forall c :: !Exact(Divide, a, 0, c)
  {
  }

  lemma OneResult(op: BinaryOp, x: int, y: int, c: int)
    requires op.Arithmetic() && (op.Divide? ==> y != 0)
    ensures Exact(op, x, y, c) <==>
      c == if op.Add? then x + y else if op.Subtract? then x - y else if op.Multiply? then x * y else Truncate(x, y)
  {
    hide Truncate;
    if op.Divide? {
      TruncateMeans(x, y);
      if Exact(op, x, y, c) {
        QuotientOnce(x, y, c, Truncate(x, y));
      }
    }
  }

  // ---- Comparison

  /** The first place where two texts differ decides; a proper prefix is smaller. */
  ghost predicate TextLess(a: seq<byte>, b: seq<byte>) {
    exists n: nat :: DiffersAt(a, b, n) && (n == |a| || a[n] < b[n])
  }

  /** The first `n` bytes are the same, and more follow in `b`. */
  ghost predicate DiffersAt(a: seq<byte>, b: seq<byte>, n: nat) {
    n <= |a| && n < |b| && forall i :: 0 <= i < n ==> a[i] == b[i]
  }

  ghost predicate Smaller(l: Value, r: Value) {
    match (l, r)
    case (Boolean(a), Boolean(b)) => !a && b
    case (BigInt(a), BigInt(b)) => a < b
    case (Text(a), Text(b)) => TextLess(a, b)
    case _ => false
  }

  ghost predicate Compared(op: BinaryOp, l: Value, r: Value) {
    match op
    case Eq => l == r
    case NotEq => l != r
    case Lt => Smaller(l, r)
    case LtEq => Smaller(l, r) || l == r
    case Gt => Smaller(r, l)
    case GtEq => Smaller(r, l) || l == r
    case _ => false
  }

  lemma {:induction false} LessIsTextLess(a: seq<byte>, b: seq<byte>)
    ensures Less(a, b) <==> TextLess(a, b)
  {
    if a != [] && b != [] && a[0] == b[0] {
      LessIsTextLess(a[1..], b[1..]);
      forall n: nat ensures DiffersAt(a, b, n + 1) <==> DiffersAt(a[1..], b[1..], n) {
        OneOn(a, b, n);
      }
      if TextLess(a, b) {
        var n: nat :| DiffersAt(a, b, n) && (n == |a| || a[n] < b[n]);
        assert n > 0 && DiffersAt(a[1..], b[1..], n - 1);
      }
      if TextLess(a[1..], b[1..]) {
        var n: nat :| DiffersAt(a[1..], b[1..], n) && (n == |a[1..]| || a[1..][n] < b[1..][n]);
        assert DiffersAt(a, b, n + 1);
      }
    } else if b != [] {
      assert DiffersAt(a, b, 0);
    }
  }

  lemma OneOn(a: seq<byte>, b: seq<byte>, n: nat)
    requires a != [] && b != [] && a[0] == b[0]
    ensures DiffersAt(a, b, n + 1) <==> DiffersAt(a[1..], b[1..], n)
  {
    if DiffersAt(a[1..], b[1..], n) {
      forall i | 0 <= i < n + 1 ensures a[i] == b[i] {
        assert i > 0 ==> a[1..][i-1] == b[1..][i-1];
      }
    }
  }

  lemma CompareMeans(op: BinaryOp, l: Value, r: Value)
    requires !op.Arithmetic() && !op.Logical() && l != Null && r != Null && l.Type() == r.Type()
    ensures EvalCompare(op, l, r) == Val(Boolean(Compared(op, l, r)))
  {
    hide Less, TextLess;
    if l.Text? {
      LessIsTextLess(l.s, r.s);
      LessIsTextLess(r.s, l.s);
      LessIsRank(l.s, r.s);
      LessIsRank(r.s, l.s);
    }
  }

  // ---- Operators

  ghost predicate IsTruth(v: Value) {
    v == Null || v.Boolean?
  }

  /** AND and OR over TRUE, FALSE and NULL. */
  ghost function Logic(op: BinaryOp, l: Value, r: Value): Value {
    if op.And? then
      if l == Boolean(false) || r == Boolean(false) then Boolean(false)
      else if l == Null || r == Null then Null
      else Boolean(true)
    else
      if l == Boolean(true) || r == Boolean(true) then Boolean(true)
      else if l == Null || r == Null then Null
      else Boolean(false)
  }

  /** What a binary operator makes of the outcomes of its operands. */
  ghost predicate Follows(op: BinaryOp, l: Outcome, r: Outcome, o: Outcome) {
    if l.Fail? then o == l
    else if op.Logical() && !IsTruth(l.value) then o == Fail(OperatorType)
    else if r.Fail? then o == r
    else if op.Logical() then
      o == if IsTruth(r.value) then Val(Logic(op, l.value, r.value)) else Fail(OperatorType)
    else if l.value == Null || r.value == Null then o == Val(Null)
    else if op.Arithmetic() then
      if l.value.BigInt? && r.value.BigInt? then Computes(op, l.value.n, r.value.n, o) else o == Fail(OperatorType)
    else
      o == if l.value.Type() == r.value.Type() then Val(Boolean(Compared(op, l.value, r.value)))
           else Fail(OperatorType)
  }

  /** The operators of the evaluator, on values. */
  lemma OperatorMeans(op: BinaryOp, l: Value, r: Value)
    ensures op.Arithmetic() ==> Follows(op, Val(l), Val(r), EvalArith(op, l, r))
    ensures op.Logical() && ValueTri(l).Some? ==> Follows(op, Val(l), Val(r), EvalLogic(op, ValueTri(l).value, r))
    ensures !op.Arithmetic() && !op.Logical() ==> Follows(op, Val(l), Val(r), EvalCompare(op, l, r))
  {
    hide Computes, Compared, Truncate;
    if op.Arithmetic() {
      if l.BigInt? && r.BigInt? {
        ArithMeans(op, l.n, r.n);
      }
    } else if !op.Logical() && l != Null && r != Null && l.Type() == r.Type() {
      CompareMeans(op, l, r);
    }
  }

  /** The outcome is determined. */
  lemma FollowsOnce(op: BinaryOp, l: Outcome, r: Outcome, o: Outcome, o': Outcome)
    requires Follows(op, l, r, o) && Follows(op, l, r, o')
    ensures o == o'
  {
    hide Computes, Compared, Logic;
    if l.Val? && r.Val? && op.Arithmetic() && l.value.BigInt? && r.value.BigInt? {
      ComputesOnce(op, l.value.n, r.value.n, o, o');
    }
  }

  /** What a unary operator makes of a value. */
  ghost predicate Turns(op: UnaryOp, v: Value, o: Outcome) {
    match op
    case Negate =>
      if v == Null then o == Val(Null)
      else if !v.BigInt? then o == Fail(OperatorType)
      else if v.n == -0x8000_0000_0000_0000 then o == Fail(Overflow)
      else o.Val? && o.value.BigInt? && o.value.n as int + v.n as int == 0
    case Not =>
      o == if v == Null then Val(Null) else if v.Boolean? then Val(Boolean(!v.b)) else Fail(OperatorType)
  }

  lemma UnaryMeans(op: UnaryOp, v: Value)
    ensures Turns(op, v, EvalUnary(op, v))
  {
  }

  // ---- Casts

  /** What casting a value gives. */
  ghost predicate Casts(v: Value, t: DataType, o: Outcome) {
    if v == Null then o == Val(Null)
    else if v.Type() == Some(t) then o == Val(v)
    else
      match (v, t)
      case (BigInt(n), TextType) => o.Val? && o.value.Text? && Writes(o.value.s, n)
      case (Boolean(b), TextType) => o.Val? && o.value.Text? && o.value.s == Ascii(if b then "true" else "false")
      case (Text(s), BigIntType) =>
        && (forall n: i64 :: o == Val(BigInt(n)) <==> Reads(s, n))
        && (o == Fail(CastFailed) <==> forall n: i64 :: !Reads(s, n))
      case (Text(s), BooleanType) =>
        o == if AnyCase(s, "true") then Val(Boolean(true))
             else if AnyCase(s, "false") then Val(Boolean(false))
             else Fail(CastFailed)
      case _ => o == Fail(CastFailed)
  }

  lemma CastMeans(v: Value, t: DataType)
    ensures Casts(v, t, EvalCast(v, t))
  {
    hide ParseI64, DecimalText, Writes, Reads, BoolText, LowerBytes, AnyCase, IsUtf8;
    match (v, t)
    case (BigInt(n), TextType) => DecimalTextMeans(n);
    case (Boolean(b), TextType) => BoolTextMeans(b);
    case (Text(s), BigIntType) =>
      forall n: i64 ensures ParseI64(s) == Some(n) <==> Reads(s, n) {
        ParseMeans(s, n);
      }
    case (Text(s), BooleanType) =>
      WordMeans(s, true);
      WordMeans(s, false);
    case _ =>
  }

  // ---- Functions

  /** `abs` of a value. */
  ghost predicate IsAbs(v: Value, o: Outcome) {
    if v == Null then o == Val(Null)
    else if !v.BigInt? then o == Fail(FunctionType)
    else if v.n == -0x8000_0000_0000_0000 then o == Fail(Overflow)
    else
      && o.Val? && o.value.BigInt? && o.value.n >= 0
      && (o.value.n == v.n || o.value.n as int + v.n as int == 0)
  }

  /** `length` of a value: the number of its code points, in 64 bits. */
  ghost predicate IsLength(v: Value, o: Outcome) {
    if v == Null then o == Val(Null)
    else if !v.Text? then o == Fail(FunctionType)
    else
      && (exists cs: seq<Scalar> :: Utf8Of(cs) == v.s)
      && forall cs: seq<Scalar> :: Utf8Of(cs) == v.s ==> o.Val? && o.value.BigInt? && Low64(|cs|, o.value.n)
  }

  /** `c` is `n` up to multiples of 2^64. */
  ghost predicate Low64(n: nat, c: i64) {
    (n - c as int) % 0x1_0000_0000_0000_0000 == 0 && (n < TOP_BIT ==> c as int == n)
  }

  lemma Wraps(n: nat)
    ensures Low64(n, WrapI64(n))
  {
  }

  lemma LengthOf(v: Value, cs: seq<Scalar>)
    requires v.Text? && Utf8Of(cs) == v.s
    ensures BuiltinLength([v]) == Val(BigInt(WrapI64(|cs|)))
  {
    hide IsUtf8, CodePoints, Utf8Of, WrapI64;
    CountsChars(cs);
  }

  lemma LengthMeans(v: Value)
    ensures IsLength(v, BuiltinLength([v]))
  {
    hide IsUtf8, Utf8Of, WrapI64, CodePoints;
    if v.Text? {
      hide BuiltinLength;
      var cs0 := CharsOf(v.s);
      LengthOf(v, cs0);
      hide Low64;
      forall cs: seq<Scalar> | Utf8Of(cs) == v.s
        ensures BuiltinLength([v]) == Val(BigInt(WrapI64(|cs|))) && Low64(|cs|, WrapI64(|cs|))
      {
        LengthOf(v, cs);
        Wraps(|cs|);
      }
    }
  }

  /** The builtins under their names in any case; other names are unknown. */
  lemma CallMeans(name: string, args: seq<Value>)
    ensures var o := CallFunction(WithBuiltins(), name, args);
      if SameName(name, "abs") then if |args| == 1 then IsAbs(args[0], o) else o == Fail(FunctionArity)
      else if SameName(name, "length") then if |args| == 1 then IsLength(args[0], o) else o == Fail(FunctionArity)
      else o == Fail(UnknownFunction)
  {
    hide SameName, BuiltinLength, IsLength;
    CaseDoesNotMatter(name, "abs");
    CaseDoesNotMatter(name, "length");
    assert LowerCase("abs") == "abs" && LowerCase("length") == "length";
    if |args| == 1 {
      assert args == [args[0]];
      LengthMeans(args[0]);
    } else {
      LengthArity(args);
    }
  }

  lemma LengthArity(args: seq<Value>)
    requires |args| != 1
    ensures BuiltinLength(args) == Fail(FunctionArity)
  {
  }

  /** Names that differ in case only call the same function. */
  lemma CallsAnyCase(registry: Registry, name: string, name': string, args: seq<Value>)
    requires SameName(name, name')
    ensures CallFunction(registry, name, args) == CallFunction(registry, name', args)
  {
    CaseDoesNotMatter(name, name');
  }

  // ---- Expressions

  /** All arguments, or the failure of the first that fails. */
  ghost predicate InTurn(each: seq<Outcome>, all: Outcomes) {
    match all
    case Values(vs) => |vs| == |each| && forall i :: 0 <= i < |each| ==> each[i] == Val(vs[i])
    case Failed(error) => exists i :: 0 <= i < |each| && each[i] == Fail(error) && forall j :: 0 <= j < i ==>
      each[j].Val?
  }

  ghost function Each(es: seq<Expr>, registry: Registry, row: Option<Row>): (each: seq<Outcome>)
    ensures |each| == |es| && forall i :: 0 <= i < |es| ==> each[i] == Eval(es[i], registry, row)
  {
    seq(|es|, i requires 0 <= i < |es| => Eval(es[i], registry, row))
  }

  ghost function EachBound(es: seq<BoundExpr>, registry: Registry, row: Option<seq<Value>>): (each: seq<Outcome>)
    ensures |each| == |es| && forall i :: 0 <= i < |es| ==> each[i] == EvalBound(es[i], registry, row)
  {
    seq(|es|, i requires 0 <= i < |es| => EvalBound(es[i], registry, row))
  }

  /** One more argument. */
  lemma InTurnNext(each: seq<Outcome>, all: Outcomes, o: Outcome)
    requires InTurn(each, all)
    ensures InTurn(each + [o], if all.Failed? then all else if o.Fail? then Failed(o.error)
                   else Values(all.values + [o.value]))
  {
    var more := each + [o];
    assert forall i :: 0 <= i < |each| ==> more[i] == each[i];
    assert more[|each|] == o;
    if all.Failed? {
      var i :| 0 <= i < |each| && each[i] == Fail(all.error) && forall j :: 0 <= j < i ==> each[j].Val?;
      assert more[i] == Fail(all.error);
    }
  }

  lemma {:induction false} EvalAllMeans(es: seq<Expr>, registry: Registry, row: Option<Row>)
    ensures InTurn(Each(es, registry, row), EvalAll(es, registry, row))
  {
    hide Eval, InTurn;
    if es == [] {
      NoTurn(Each(es, registry, row));
    } else {
      var n := |es| - 1;
      EvalAllMeans(es[..n], registry, row);
      InTurnNext(Each(es[..n], registry, row), EvalAll(es[..n], registry, row), Eval(es[n], registry, row));
      assert Each(es, registry, row) == Each(es[..n], registry, row) + [Eval(es[n], registry, row)];
    }
  }

  lemma {:induction false} EvalBoundAllMeans(es: seq<BoundExpr>, registry: Registry, row: Option<seq<Value>>)
    ensures InTurn(EachBound(es, registry, row), EvalBoundAll(es, registry, row))
  {
    hide EvalBound, InTurn;
    if es == [] {
      NoTurn(EachBound(es, registry, row));
    } else {
      var n := |es| - 1;
      EvalBoundAllMeans(es[..n], registry, row);
      InTurnNext(EachBound(es[..n], registry, row), EvalBoundAll(es[..n], registry, row),
                 EvalBound(es[n], registry, row));
      assert EachBound(es, registry, row) == EachBound(es[..n], registry, row) + [EvalBound(es[n], registry, row)];
    }
  }

  lemma NoTurn(each: seq<Outcome>)
    requires each == []
    ensures InTurn(each, Values([]))
  {
  }

  /** What an expression means, given what its parts evaluate to. */
  ghost predicate Means(e: Expr, registry: Registry, row: Option<Row>, o: Outcome) {
    match e
    case IntLiteral(n) => o == Val(BigInt(n))
    case StringLiteral(s) => o == Val(Text(s))
    case BoolLiteral(b) => o == Val(Boolean(b))
    case NullLiteral => o == Val(Null)
    case ColumnRef(_, name) =>
      if row.None? then o == Fail(NoRow)
      else
        var schema, tuple := row.value.schema, row.value.tuple;
        && (forall i: nat :: FirstNamed(schema, name, i) ==>
              o == if i < |tuple| then Val(tuple[i]) else Fail(NoSuchColumn))
        && ((forall i: nat :: !FirstNamed(schema, name, i)) ==> o == Fail(NoSuchColumn))
    case Paren(arg) => o == Eval(arg, registry, row)
    case Unary(op, arg) => var v := Eval(arg, registry, row); if v.Fail? then o == v else Turns(op, v.value, o)
    case Binary(op, lhs, rhs) => Follows(op, Eval(lhs, registry, row), Eval(rhs, registry, row), o)
    case IsNull(arg, negated) =>
      var v := Eval(arg, registry, row);
      o == if v.Fail? then v else if negated then Val(Boolean(v.value != Null)) else Val(Boolean(v.value == Null))
    case Cast(arg, typeName) =>
      var v := Eval(arg, registry, row);
      if v.Fail? then o == v
      else if TypeNamed(typeName).None? then o == Fail(UnknownType)
      else Casts(v.value, TypeNamed(typeName).value, o)
    case Call(name, args) =>
      exists all :: InTurn(Each(args, registry, row), all) &&
        o == if all.Failed? then Fail(all.error) else CallFunction(registry, name, all.values)
    case Aggregate(_, _) => o == Fail(AggregateInRow)
    case Param(_) => o == Fail(UnboundParam)
  }

  /** The first column of this name. */
  ghost predicate FirstNamed(schema: Schema, name: string, i: nat) {
    i < |schema| && schema[i].name == name && forall j :: 0 <= j < i ==> schema[j].name != name
  }

  lemma FirstOnce(schema: Schema, name: string, k: nat)
    requires FirstNamed(schema, name, k)
    ensures IndexOf(schema, name) == Some(k)
  {
  }

  /** The same for a bound expression over the values of a row. */
  ghost predicate BoundMeans(e: BoundExpr, registry: Registry, row: Option<seq<Value>>, o: Outcome) {
    match e
    case BInt(n) => o == Val(BigInt(n))
    case BString(s) => o == Val(Text(s))
    case BBool(b) => o == Val(Boolean(b))
    case BNull => o == Val(Null)
    case BColumn(_, column, _, _) =>
      o == if row.None? then Fail(NoRow) else if column < |row.value| then Val(row.value[column])
          else Fail(NoSuchColumn)
    case BParen(arg) => o == EvalBound(arg, registry, row)
    case BUnary(op, arg, _) => var v := EvalBound(arg, registry, row); if v.Fail? then o == v else Turns(op, v.value, o)
    case BBinary(op, lhs, rhs, _) => Follows(op, EvalBound(lhs, registry, row), EvalBound(rhs, registry, row), o)
    case BIsNull(arg, negated) =>
      var v := EvalBound(arg, registry, row);
      o == if v.Fail? then v else if negated then Val(Boolean(v.value != Null)) else Val(Boolean(v.value == Null))
    case BCast(arg, target) => var v := EvalBound(arg, registry, row); if v.Fail? then o ==
        v else Casts(v.value, target, o)
    case BCall(name, args, _) =>
      exists all :: InTurn(EachBound(args, registry, row), all) &&
        o == if all.Failed? then Fail(all.error) else CallFunction(registry, name, all.values)
    case BAggregate(_, _, _) => o == Fail(AggregateInRow)
    case BParam(_, _) => o == Fail(UnboundParam)
  }

  lemma EvalMeans(e: Expr, registry: Registry, row: Option<Row>)
    ensures Means(e, registry, row, Eval(e, registry, row))
  {
    hide EvalArith, EvalLogic, EvalCompare, EvalUnary, EvalCast, Turns, Casts, InTurn, CallFunction, Follows, TypeNamed;
    match e
    case ColumnRef(_, name) =>
      if row.Some? {
        var i := IndexOf(row.value.schema, name);
        assert i.Some? ==> FirstNamed(row.value.schema, name, i.value);
        forall k: nat | FirstNamed(row.value.schema, name, k) ensures i == Some(k) {
          FirstOnce(row.value.schema, name, k);
        }
      }
    case Unary(op, arg) =>
      if Eval(arg, registry, row).Val? {
        UnaryMeans(op, Eval(arg, registry, row).value);
      }
    case Binary(op, lhs, rhs) => BinaryMeans(op, lhs, rhs, registry, row);
    case Cast(arg, typeName) =>
      if Eval(arg, registry, row).Val? && TypeNamed(typeName).Some? {
        CastMeans(Eval(arg, registry, row).value, TypeNamed(typeName).value);
      }
    case Call(name, args) => EvalAllMeans(args, registry, row);
    case _ =>
  }

  lemma EvalBoundMeans(e: BoundExpr, registry: Registry, row: Option<seq<Value>>)
    ensures BoundMeans(e, registry, row, EvalBound(e, registry, row))
  {
    hide EvalArith, EvalLogic, EvalCompare, EvalUnary, EvalCast, Turns, Casts, InTurn, CallFunction, Follows;
    match e
    case BUnary(op, arg, _) =>
      if EvalBound(arg, registry, row).Val? {
        UnaryMeans(op, EvalBound(arg, registry, row).value);
      }
    case BBinary(op, lhs, rhs, t) => BoundBinaryMeans(op, lhs, rhs, t, registry, row);
    case BCast(arg, target) =>
      if EvalBound(arg, registry, row).Val? {
        CastMeans(EvalBound(arg, registry, row).value, target);
      }
    case BCall(name, args, _) => EvalBoundAllMeans(args, registry, row);
    case _ =>
  }

  lemma BinaryMeans(op: BinaryOp, lhs: Expr, rhs: Expr, registry: Registry, row: Option<Row>)
    ensures Follows(op, Eval(lhs, registry, row), Eval(rhs, registry, row), Eval(Binary(op, lhs, rhs), registry, row))
  {
    hide EvalArith, EvalLogic, EvalCompare, Computes, Compared, Logic;
    var l, r := Eval(lhs, registry, row), Eval(rhs, registry, row);
    if l.Val? && r.Val? {
      OperatorMeans(op, l.value, r.value);
    }
  }

  lemma BoundBinaryMeans(op: BinaryOp, lhs: BoundExpr, rhs: BoundExpr, t: DataType, registry: Registry,
                         row: Option<seq<Value>>)
    ensures Follows(op, EvalBound(lhs, registry, row), EvalBound(rhs, registry, row),
                    EvalBound(BBinary(op, lhs, rhs, t), registry, row))
  {
    hide EvalArith, EvalLogic, EvalCompare, Computes, Compared, Logic;
    var l, r := EvalBound(lhs, registry, row), EvalBound(rhs, registry, row);
    if l.Val? && r.Val? {
      OperatorMeans(op, l.value, r.value);
    }
  }
}
