/** Which expressions the binder accepts, by their own types (src/binder.rs). */
module Typing {
  import opened Options
  import opened KeyCodec
  import opened Expressions
  import opened Evaluator
  import opened EvalMeaning
  import opened Binder

  // ---- Columns

  /** The reference means column `c` of table `t`: the first column of the name in the first table of the qualifier, or
      in the only table that has such a column. */
  ghost predicate Refers(tables: seq<TableRef>, qualifier: Option<string>, name: string, t: nat, c: nat) {
    && t < |tables| && FirstNamed(tables[t].schema, name, c)
    && match qualifier
       case Some(q) => FirstQualified(tables, q, t)
       case None => forall u :: 0 <= u < |tables| && HasColumn(tables[u].schema, name) ==> u == t
  }

  /** The first table that goes by this name: its alias if it has one, its own name otherwise. */
  ghost predicate FirstQualified(tables: seq<TableRef>, qualifier: string, t: nat) {
    t < |tables| && GoesBy(tables[t], qualifier) && forall u :: 0 <= u < t ==> !GoesBy(tables[u], qualifier)
  }

  predicate GoesBy(table: TableRef, qualifier: string) {
    match table.alias
    case Some(alias) => alias == qualifier
    case None => table.name == qualifier
  }

  ghost predicate HasColumn(schema: Schema, name: string) {
    exists c :: 0 <= c < |schema| && schema[c].name == name
  }

  /** The number of columns of the tables before table `t`. */
  function Before(tables: seq<TableRef>, t: nat): nat
    requires t <= |tables|
  {
    if t == 0 then 0 else |tables[0].schema| + Before(tables[1..], t - 1)
  }

  /** What a column reference is bound to, or why to nothing. */
  ghost predicate Resolves(tables: seq<TableRef>, qualifier: Option<string>, name: string, b: Binding) {
    match b
    case Bound(e) =>
      && e.BColumn? && e.name == name && e.table < |tables|
      && exists c: nat :: Refers(tables, qualifier, name, e.table, c) && e.column == Before(tables, e.table) + c &&
           e.dataType == tables[e.table].schema[c].dataType
    case Refused(error) =>
      match error
      case UnknownTable => qualifier.Some? && forall t :: 0 <= t < |tables| ==> !GoesBy(tables[t], qualifier.value)
      case ColumnNotFound =>
        if qualifier.Some? then
          exists t: nat :: FirstQualified(tables, qualifier.value, t) && !HasColumn(tables[t].schema, name)
        else forall t :: 0 <= t < |tables| ==> !HasColumn(tables[t].schema, name)
      case AmbiguousColumn =>
        qualifier.None? && exists t, u ::
          0 <= t < u < |tables| && HasColumn(tables[t].schema, name) && HasColumn(tables[u].schema, name)
      case _ => false
  }

  lemma {:induction false} OffsetIsBefore(tables: seq<TableRef>, t: nat)
    requires t <= |tables|
    ensures TableOffset(tables, t) == Before(tables, t)
    decreases t
  {
    if t > 0 {
      OffsetIsBefore(tables, t - 1);
      OneBefore(tables, t - 1);
    }
  }

  lemma {:induction false} OneBefore(tables: seq<TableRef>, t: nat)
    requires t < |tables|
    ensures Before(tables, t + 1) == Before(tables, t) + |tables[t].schema|
    decreases t
  {
    if t > 0 {
      OneBefore(tables[1..], t - 1);
    }
  }

  lemma ColumnFound(schema: Schema, name: string)
    ensures IndexOf(schema, name).Some? <==> HasColumn(schema, name)
    ensures IndexOf(schema, name).Some? ==> FirstNamed(schema, name, IndexOf(schema, name).value)
  {
  }

  lemma ResolveMeans(tables: seq<TableRef>, qualifier: Option<string>, name: string)
    ensures Resolves(tables, qualifier, name, ResolveColumn(tables, qualifier, name))
  {
    hide IndexOf, Owners, TableOffset, Before, HasColumn, FirstNamed;
    forall t | 0 <= t < |tables|
      ensures IndexOf(tables[t].schema, name).Some? <==> HasColumn(tables[t].schema, name)
    {
      ColumnFound(tables[t].schema, name);
    }
    match qualifier
    case Some(q) =>
      var t := FindTable(tables, q);
      if t.Some? && IndexOf(tables[t.value].schema, name).Some? {
        ColumnFound(tables[t.value].schema, name);
        OffsetIsBefore(tables, t.value);
        assert Refers(tables, qualifier, name, t.value, IndexOf(tables[t.value].schema, name).value);
      } else if t.Some? {
        assert FirstQualified(tables, q, t.value);
      }
    case None =>
      var owners := Owners(tables, name, |tables|);
      OwnersMean(tables, name);
      if |owners| == 1 {
        var t := owners[0];
        ColumnFound(tables[t].schema, name);
        OffsetIsBefore(tables, t);
        assert Refers(tables, qualifier, name, t, IndexOf(tables[t].schema, name).value);
      }
  }

  lemma OwnersMean(tables: seq<TableRef>, name: string)
    ensures var owners := Owners(tables, name, |tables|);
      && (owners == [] ==> forall t :: 0 <= t < |tables| ==> IndexOf(tables[t].schema, name).None?)
      && (|owners| == 1 ==>
            && owners[0] < |tables| && IndexOf(tables[owners[0]].schema, name).Some?
            && forall u :: 0 <= u < |tables| && IndexOf(tables[u].schema, name).Some? ==> u == owners[0])
      && (|owners| > 1 ==>
            && 0 <= owners[0] < owners[1] < |tables| && IndexOf(tables[owners[0]].schema, name).Some?
            && IndexOf(tables[owners[1]].schema, name).Some?)
  {
    hide IndexOf;
    var owners := Owners(tables, name, |tables|);
    forall t: nat | t < |tables| && IndexOf(tables[t].schema, name).Some? ensures t in owners {
    }
    if |owners| > 0 {
      assert owners[0] in owners;
    }
    if |owners| > 1 {
      assert owners[1] in owners;
    }
  }

  // ---- Types

  /** The type of an expression, which NULL and parameters have none of, or the first error in it. */
  datatype Judgement = Typed(t: Option<DataType>) | Untyped(error: BindError)

  predicate OneOf(t: Option<DataType>, wanted: DataType) {
    t == None || t == Some(wanted)
  }

  /** Operands that an operator can have. */
  predicate Operands(op: BinaryOp, l: Option<DataType>, r: Option<DataType>) {
    match op
    case Add | Subtract | Multiply | Divide => OneOf(l, BigIntType) && OneOf(r, BigIntType)
    case And | Or => OneOf(l, BooleanType) && OneOf(r, BooleanType)
    case Eq | NotEq | Lt | LtEq | Gt | GtEq => l == None || r == None || l == r
  }

  predicate HasAggregate(e: Expr) {
    match e
    case Aggregate(_, _) => true
    case Unary(_, arg) => HasAggregate(arg)
    case Binary(_, lhs, rhs) => HasAggregate(lhs) || HasAggregate(rhs)
    case IsNull(arg, _) => HasAggregate(arg)
    case Call(_, args) => exists i :: 0 <= i < |args| && HasAggregate(args[i])
    case Paren(arg) => HasAggregate(arg)
    case Cast(arg, _) => HasAggregate(arg)
    case _ => false
  }

  /** The type of the column a reference means, or why it means none. */
  ghost function JudgeColumn(tables: seq<TableRef>, qualifier: Option<string>, name: string): Judgement {
    if exists t: nat, c: nat :: Refers(tables, qualifier, name, t, c) then
      var t: nat, c: nat :| Refers(tables, qualifier, name, t, c);
      Typed(Some(tables[t].schema[c].dataType))
    else if qualifier.Some? then
      if exists t :: 0 <= t < |tables| && GoesBy(tables[t], qualifier.value) then Untyped(ColumnNotFound)
      else Untyped(UnknownTable)
    else if exists t :: 0 <= t < |tables| && HasColumn(tables[t].schema, name) then Untyped(AmbiguousColumn)
    else Untyped(ColumnNotFound)
  }

  /** The judgement on an expression, from those on its parts, left before right. */
  ghost function Judge(e: Expr, registry: Registry, tables: seq<TableRef>): Judgement
    decreases e, 1
  {
    match e
    case IntLiteral(_) => Typed(Some(BigIntType))
    case StringLiteral(_) => Typed(Some(TextType))
    case BoolLiteral(_) => Typed(Some(BooleanType))
    case NullLiteral | Param(_) => Typed(None)
    case ColumnRef(qualifier, name) => JudgeColumn(tables, qualifier, name)
    case Paren(arg) => Judge(arg, registry, tables)
    case Unary(op, arg) =>
      var a, t := Judge(arg, registry, tables), if op.Negate? then BigIntType else BooleanType;
      if a.Untyped? then a else if OneOf(a.t, t) then Typed(Some(t)) else Untyped(WrongOperand)
    case Binary(op, lhs, rhs) =>
      var l, r := Judge(lhs, registry, tables), Judge(rhs, registry, tables);
      if l.Untyped? then l
      else if r.Untyped? then r
      else if Operands(op, l.t, r.t) then Typed(Some(if op.Arithmetic() then BigIntType else BooleanType))
      else Untyped(WrongOperand)
    case IsNull(arg, _) =>
      var a := Judge(arg, registry, tables);
      if a.Untyped? then a else Typed(Some(BooleanType))
    case Cast(arg, typeName) =>
      var a := Judge(arg, registry, tables);
      if TypeNamed(typeName).None? then Untyped(NoSuchType) else if a.Untyped? then a else Typed(TypeNamed(typeName))
    case Call(name, args) =>
      if LowerCase(name) !in registry then Untyped(NoSuchFunction)
      else
        var FunctionEntry(_, argTypes, returnType) := registry[LowerCase(name)];
        if |args| != |argTypes| then Untyped(WrongArgumentCount)
        else
          var error := JudgeAll(args, argTypes, registry, tables);
          if error.Some? then Untyped(error.value) else Typed(Some(returnType))
    case Aggregate(func, None) => Typed(Some(if func.Min? || func.Max? then TextType else BigIntType))
    case Aggregate(func, Some(arg)) =>
      var a := Judge(arg, registry, tables);
      if a.Untyped? then a
      else if HasAggregate(arg) then Untyped(NestedAggregate)
      else if func.Sum? && !OneOf(a.t, BigIntType) then Untyped(WrongAggregate)
      else if func.Count? || func.Sum? then Typed(Some(BigIntType))
      else Typed(Some(if a.t.Some? then a.t.value else TextType))
  }

  /** The first argument that is wrong in itself or not of the type asked for. */
  ghost function JudgeAll(args: seq<Expr>, types: seq<DataType>, registry: Registry,
                          tables: seq<TableRef>): Option<BindError>
    requires |args| == |types|
    decreases args, 0
  {
    if args == [] then None
    else
      var n := |args| - 1;
      match JudgeAll(args[..n], types[..n], registry, tables)
      case Some(error) => Some(error)
      case None =>
        match Judge(args[n], registry, tables)
        case Untyped(error) => Some(error)
        case Typed(t) => if OneOf(t, types[n]) then None else Some(WrongArgument)
  }

  /** The judgement that a binding amounts to. */
  function JudgementOf(b: Binding): Judgement {
    match b
    case Bound(e) => Typed(e.Type())
    case Refused(error) => Untyped(error)
  }

  lemma RefersOnce(tables: seq<TableRef>, qualifier: Option<string>, name: string, t: nat, c: nat, t': nat, c': nat)
    requires Refers(tables, qualifier, name, t, c) && Refers(tables, qualifier, name, t', c')
    ensures t == t' && c == c'
  {
    assert HasColumn(tables[t].schema, name) && HasColumn(tables[t'].schema, name);
  }

  lemma ColumnJudged(tables: seq<TableRef>, qualifier: Option<string>, name: string)
    ensures JudgementOf(ResolveColumn(tables, qualifier, name)) == JudgeColumn(tables, qualifier, name)
  {
    hide ResolveColumn, Before, GoesBy, HasColumn;
    ResolveMeans(tables, qualifier, name);
    var b := ResolveColumn(tables, qualifier, name);
    if b.Bound? {
      var c: nat :| Refers(tables, qualifier, name, b.e.table, c) && b.e.dataType ==
          tables[b.e.table].schema[c].dataType;
      forall t: nat, c': nat | Refers(tables, qualifier, name, t, c') ensures t == b.e.table && c' == c {
        RefersOnce(tables, qualifier, name, t, c', b.e.table, c);
      }
    } else {
      NoneMeant(tables, qualifier, name, b.error);
    }
  }

  /** Where nothing is meant, the reason is the one given. */
  lemma NoneMeant(tables: seq<TableRef>, qualifier: Option<string>, name: string, error: BindError)
    requires Resolves(tables, qualifier, name, Refused(error))
    ensures JudgeColumn(tables, qualifier, name) == Untyped(error)
  {
    hide GoesBy, Before;
    forall t: nat, c: nat ensures !Refers(tables, qualifier, name, t, c) {
      if Refers(tables, qualifier, name, t, c) {
        NamedIsThere(tables[t].schema, name, c);
      }
    }
  }

  lemma NamedIsThere(schema: Schema, name: string, c: nat)
    requires FirstNamed(schema, name, c)
    ensures HasColumn(schema, name)
  {
  }

  // ---- The binder judges so

  /** The bound form has an aggregate exactly if the expression has one. */
  lemma {:induction false} AggregatesKept(e: Expr, registry: Registry, tables: seq<TableRef>)
    requires Bind(e, registry, tables).Bound?
    ensures ContainsAggregate(Bind(e, registry, tables).e) <==> HasAggregate(e)
    decreases e, 1
  {
    hide ResolveColumn, CheckBinary, CheckUnary, OperandHint, AggregateType, NoneOr, LowerCase, TypeNamed;
    match e
    case ColumnRef(qualifier, name) => IsColumn(tables, qualifier, name);
    case Paren(arg) => AggregatesKept(arg, registry, tables);
    case Unary(_, arg) => AggregatesKept(arg, registry, tables);
    case Binary(_, lhs, rhs) =>
      AggregatesKept(lhs, registry, tables);
      AggregatesKept(rhs, registry, tables);
    case IsNull(arg, _) => AggregatesKept(arg, registry, tables);
    case Cast(arg, _) => AggregatesKept(arg, registry, tables);
    case Call(name, args) => AllAggregatesKept(args, registry[LowerCase(name)].argTypes, registry, tables);
    case _ =>
  }

  lemma IsColumn(tables: seq<TableRef>, qualifier: Option<string>, name: string)
    ensures var b := ResolveColumn(tables, qualifier, name); b.Bound? ==> b.e.BColumn?
  {
    hide IndexOf, Owners, TableOffset;
  }

  lemma {:induction false} AllAggregatesKept(es: seq<Expr>, types: seq<DataType>, registry: Registry,
                                             tables: seq<TableRef>)
    requires |es| == |types| && BindAll(es, types, registry, tables).AllBound?
    ensures var bound := BindAll(es, types, registry, tables).es;
      |bound| == |es| && forall i :: 0 <= i < |es| ==> (ContainsAggregate(bound[i]) <==> HasAggregate(es[i]))
    decreases es, 0
  {
    hide Bind, ContainsAggregate, HasAggregate, NoneOr;
    if es != [] {
      var n := |es| - 1;
      AllAggregatesKept(es[..n], types[..n], registry, tables);
      AggregatesKept(es[n], registry, tables);
      CoerceKeeps(Bind(es[n], registry, tables).e, Some(types[n]));
    }
  }

  lemma CoerceKeeps(e: BoundExpr, hint: Option<DataType>)
    ensures ContainsAggregate(Coerce(e, hint)) <==> ContainsAggregate(e)
  {
  }

  /** Giving a parameter the type asked for changes no check. */
  lemma CoerceChecks(op: BinaryOp, l: BoundExpr, r: BoundExpr)
    ensures var hint := OperandHint(op, l.Type(), r.Type());
      CheckBinary(op, Coerce(l, hint).Type(), Coerce(r, hint).Type()) ==
        if Operands(op, l.Type(), r.Type()) then Some(if op.Arithmetic() then BigIntType else BooleanType) else None
  {
  }

  lemma CoerceOne(e: BoundExpr, t: DataType)
    ensures NoneOr(Coerce(e, Some(t)).Type(), t) <==> OneOf(e.Type(), t)
  {
  }

  /** The binder accepts exactly the expressions that have a judgement, gives them that type, and refuses the others
      with the first error. */
  lemma {:induction false} BindJudges(e: Expr, registry: Registry, tables: seq<TableRef>)
    ensures JudgementOf(Bind(e, registry, tables)) == Judge(e, registry, tables)
    decreases e, 1
  {
    hide ResolveColumn, JudgeColumn, CheckBinary, OperandHint, Coerce, NoneOr, LowerCase, TypeNamed, ContainsAggregate,
      HasAggregate, Operands, OneOf;
    match e
    case ColumnRef(qualifier, name) => ColumnJudged(tables, qualifier, name);
    case Paren(arg) => BindJudges(arg, registry, tables);
    case Unary(op, arg) =>
      BindJudges(arg, registry, tables);
      UnaryJudged(op, arg, registry, tables);
    case Binary(op, lhs, rhs) =>
      BindJudges(lhs, registry, tables);
      BindJudges(rhs, registry, tables);
      BinaryJudged(op, lhs, rhs, registry, tables);
    case IsNull(arg, _) => BindJudges(arg, registry, tables);
    case Cast(arg, _) => BindJudges(arg, registry, tables);
    case Call(name, args) =>
      if LowerCase(name) in registry && |args| == |registry[LowerCase(name)].argTypes| {
        BindAllJudges(args, registry[LowerCase(name)].argTypes, registry, tables);
      }
    case Aggregate(func, Some(arg)) =>
      BindJudges(arg, registry, tables);
      AggregateJudged(func, arg, registry, tables);
    case _ =>
  }

  lemma UnaryJudged(op: UnaryOp, arg: Expr, registry: Registry, tables: seq<TableRef>)
    requires JudgementOf(Bind(arg, registry, tables)) == Judge(arg, registry, tables)
    ensures JudgementOf(Bind(Unary(op, arg), registry, tables)) == Judge(Unary(op, arg), registry, tables)
  {
    hide ResolveColumn, LowerCase, TypeNamed, ContainsAggregate, HasAggregate, JudgeColumn;
    var b := Bind(arg, registry, tables);
    if b.Bound? {
      CoerceUnary(op, b.e);
    }
  }

  lemma CoerceUnary(op: UnaryOp, e: BoundExpr)
    ensures var t := if op.Negate? then BigIntType else BooleanType;
      CheckUnary(op, Coerce(e, Some(t)).Type()) == if OneOf(e.Type(), t) then Some(t) else None
  {
  }

  lemma BinaryJudged(op: BinaryOp, lhs: Expr, rhs: Expr, registry: Registry, tables: seq<TableRef>)
    requires JudgementOf(Bind(lhs, registry, tables)) == Judge(lhs, registry, tables)
    requires JudgementOf(Bind(rhs, registry, tables)) == Judge(rhs, registry, tables)
    ensures JudgementOf(Bind(Binary(op, lhs, rhs), registry, tables)) == Judge(Binary(op, lhs, rhs), registry, tables)
  {
    hide ResolveColumn, CheckBinary, OperandHint, Coerce, LowerCase, TypeNamed, ContainsAggregate, HasAggregate,
      Operands, JudgeColumn;
    var l, r := Bind(lhs, registry, tables), Bind(rhs, registry, tables);
    if l.Bound? && r.Bound? {
      CoerceChecks(op, l.e, r.e);
    }
  }

  lemma AggregateJudged(func: AggregateFunc, arg: Expr, registry: Registry, tables: seq<TableRef>)
    requires JudgementOf(Bind(arg, registry, tables)) == Judge(arg, registry, tables)
    ensures var e := Aggregate(func, Some(arg)); JudgementOf(Bind(e, registry, tables)) == Judge(e, registry, tables)
  {
    hide ResolveColumn, LowerCase, TypeNamed, ContainsAggregate, HasAggregate, JudgeColumn;
    var b := Bind(arg, registry, tables);
    if b.Bound? {
      AggregatesKept(arg, registry, tables);
    }
  }

  lemma {:induction false} BindAllJudges(es: seq<Expr>, types: seq<DataType>, registry: Registry, tables: seq<TableRef>)
    requires |es| == |types|
    ensures match BindAll(es, types, registry, tables)
      case AllBound(_) => JudgeAll(es, types, registry, tables) == None
      case OneRefused(error) => JudgeAll(es, types, registry, tables) == Some(error)
    decreases es, 0
  {
    hide Bind, Judge, NoneOr, Coerce, OneOf;
    if es != [] {
      var n := |es| - 1;
      BindAllJudges(es[..n], types[..n], registry, tables);
      BindJudges(es[n], registry, tables);
      var b := Bind(es[n], registry, tables);
      if b.Bound? {
        CoerceOne(b.e, types[n]);
      }
    }
  }

  /** The bound form has the operators, literals and parts of the expression in their places; names are replaced by the
      columns they mean, and function names stand in small letters. */
  ghost predicate Mirrors(b: BoundExpr, e: Expr, tables: seq<TableRef>)
    decreases e
  {
    match e
    case IntLiteral(n) => b == BInt(n)
    case StringLiteral(s) => b == BString(s)
    case BoolLiteral(v) => b == BBool(v)
    case NullLiteral => b == BNull
    case Param(index) => b.BParam? && b.index == index
    case ColumnRef(qualifier, name) => Resolves(tables, qualifier, name, Bound(b))
    case Paren(arg) => b.BParen? && Mirrors(b.arg, arg, tables)
    case Unary(op, arg) => b.BUnary? && b.uop == op && Mirrors(b.arg, arg, tables)
    case Binary(op, lhs, rhs) => b.BBinary? && b.op == op && Mirrors(b.lhs, lhs, tables) && Mirrors(b.rhs, rhs, tables)
    case IsNull(arg, negated) => b.BIsNull? && b.negated == negated && Mirrors(b.arg, arg, tables)
    case Cast(arg, typeName) => b.BCast? && TypeNamed(typeName) == Some(b.dataType) && Mirrors(b.arg, arg, tables)
    case Call(name, args) =>
      && b.BCall? && b.fname == LowerCase(name) && |b.args| == |args|
      && forall i :: 0 <= i < |args| ==> Mirrors(b.args[i], args[i], tables)
    case Aggregate(func, of) =>
      && b.BAggregate? && b.func == func
      && match of
         case None => b.of == None
         case Some(arg) => b.of.Some? && Mirrors(b.of.value, arg, tables)
  }

  lemma CoerceMirrors(b: BoundExpr, hint: Option<DataType>, e: Expr, tables: seq<TableRef>)
    requires Mirrors(b, e, tables)
    ensures Mirrors(Coerce(b, hint), e, tables)
  {
    hide Resolves;
    if b.BParam? && e.ColumnRef? {
      ColumnIsNoParam(b, e.qualifier, e.name, tables);
    }
  }

  lemma ColumnIsNoParam(b: BoundExpr, qualifier: Option<string>, name: string, tables: seq<TableRef>)
    requires Resolves(tables, qualifier, name, Bound(b))
    ensures b.BColumn?
  {
  }

  lemma {:induction false} BindMirrors(e: Expr, registry: Registry, tables: seq<TableRef>)
    requires Bind(e, registry, tables).Bound?
    ensures Mirrors(Bind(e, registry, tables).e, e, tables)
    decreases e, 1
  {
    hide ResolveColumn, Resolves, CheckBinary, CheckUnary, OperandHint, Coerce, AggregateType, ContainsAggregate,
      NoneOr, LowerCase, TypeNamed;
    match e
    case ColumnRef(qualifier, name) => ResolveMeans(tables, qualifier, name);
    case Paren(arg) => BindMirrors(arg, registry, tables);
    case Unary(op, arg) =>
      BindMirrors(arg, registry, tables);
      CoerceMirrors(Bind(arg, registry, tables).e, Some(if op.Negate? then BigIntType else BooleanType), arg, tables);
    case Binary(op, lhs, rhs) =>
      BindMirrors(lhs, registry, tables);
      BindMirrors(rhs, registry, tables);
      var l, r := Bind(lhs, registry, tables).e, Bind(rhs, registry, tables).e;
      CoerceMirrors(l, OperandHint(op, l.Type(), r.Type()), lhs, tables);
      CoerceMirrors(r, OperandHint(op, l.Type(), r.Type()), rhs, tables);
    case IsNull(arg, _) => BindMirrors(arg, registry, tables);
    case Cast(arg, typeName) =>
      BindMirrors(arg, registry, tables);
      CoerceMirrors(Bind(arg, registry, tables).e, TypeNamed(typeName), arg, tables);
    case Call(name, args) => BindAllMirrors(args, registry[LowerCase(name)].argTypes, registry, tables);
    case Aggregate(_, Some(arg)) => BindMirrors(arg, registry, tables);
    case _ =>
  }

  lemma {:induction false} BindAllMirrors(es: seq<Expr>, types: seq<DataType>, registry: Registry,
                                          tables: seq<TableRef>)
    requires |es| == |types| && BindAll(es, types, registry, tables).AllBound?
    ensures var bound := BindAll(es, types, registry, tables).es;
      |bound| == |es| && forall i :: 0 <= i < |es| ==> Mirrors(bound[i], es[i], tables)
    decreases es, 0
  {
    hide Bind, Mirrors, NoneOr, Coerce;
    if es != [] {
      var n := |es| - 1;
      BindAllMirrors(es[..n], types[..n], registry, tables);
      BindMirrors(es[n], registry, tables);
      CoerceMirrors(Bind(es[n], registry, tables).e, Some(types[n]), es[n], tables);
    }
  }

  /** A parameter gets the type its place asks for: that of the operator, or that of the other side of a comparison. */
  lemma ParameterTyped(op: BinaryOp, index: nat, other: Expr, registry: Registry, tables: seq<TableRef>)
    ensures var b := Bind(Binary(op, Param(index), other), registry, tables);
      b.Bound? ==> b.e.BBinary? && b.e.lhs == BParam(index, WantedType(op, Judge(other, registry, tables)))
    ensures var b := Bind(Binary(op, other, Param(index)), registry, tables);
      b.Bound? ==> b.e.BBinary? && b.e.rhs == BParam(index, WantedType(op, Judge(other, registry, tables)))
  {
    hide Judge, CheckBinary, ResolveColumn, LowerCase, TypeNamed, ContainsAggregate;
    BindJudges(other, registry, tables);
    assert Bind(Param(index), registry, tables) == Bound(BParam(index, None));
  }

  /** A parameter under a unary operator or a cast. */
  lemma CastParameterTyped(op: UnaryOp, index: nat, typeName: string, registry: Registry, tables: seq<TableRef>)
    ensures Bind(Unary(op, Param(index)), registry, tables) ==
      var t := if op.Negate? then BigIntType else BooleanType;
      Bound(BUnary(op, BParam(index, Some(t)), t))
    ensures var t := TypeNamed(typeName);
      t.Some? ==> Bind(Cast(Param(index), typeName), registry, tables) == Bound(BCast(BParam(index, t), t.value))
  {
    hide TypeNamed;
    assert Bind(Param(index), registry, tables) == Bound(BParam(index, None));
  }

  function WantedType(op: BinaryOp, other: Judgement): Option<DataType> {
    if op.Arithmetic() then Some(BigIntType)
    else if op.Logical() then Some(BooleanType)
    else if other.Typed? then other.t
    else None
  }
}
