/** What query expressions mean, before and after lowering, and that lowering keeps the meaning.

    The surface interpreter reads operators, field shorthands and bare names directly. The helper interpreter knows
    nothing of them: it only evaluates literals and helper, method, field and list nodes. */
module QueryValues {
  import opened Names
  import opened Tables
  import opened Incan
  import opened Wrappers
  import opened Desugar

  function Operator(eng: Engine, symbol: string, args: Row): Value {
    eng.apply(symbol, [("operator", "")], args)
  }

  function Symbol(op: BinaryOp): string {
    match op
    case Add => "+"
    case Sub => "-"
    case Mul => "*"
    case Div => "/"
    case Mod => "%"
    case Eq => "=="
    case NotEq => "!="
    case Lt => "<"
    case LtEq => "<="
    case Gt => ">"
    case GtEq => ">="
    case And => "and"
    case Or => "or"
    case OtherBinary => ""
  }

  /** The operator a helper name stands for in the public helper table (query_blocks.md, "Expressions"). */
  function OperatorNamed(name: string): Option<string> {
    if name == "add" then Some("+")
    else if name == "sub" then Some("-")
    else if name == "mul" then Some("*")
    else if name == "div" then Some("/")
    else if name == "modulo" then Some("%")
    else if name == "eq" then Some("==")
    else if name == "ne" then Some("!=")
    else if name == "lt" then Some("<")
    else if name == "lte" then Some("<=")
    else if name == "gt" then Some(">")
    else if name == "gte" then Some(">=")
    else if name == "and_" then Some("and")
    else if name == "or_" then Some("or")
    else None
  }

  function Column_(names: seq<string>, row: Row, name: string): Value {
    var i := FirstIndex(names, name);
    if 0 <= i < |row| then row[i] else Null
  }

  /** A helper applied to values: `lit` is transparent, operator helpers are their operators, and `mod` is another
      spelling of `modulo`. */
  function HelperValue(eng: Engine, helper: string, args: Row): Value {
    var name := if helper == "mod" then "modulo" else helper;
    if name == "lit" && |args| == 1 then args[0]
    else if name == "not_" && |args| == 1 then Operator(eng, "not", args)
    else if name == "neg" && |args| == 1 then Operator(eng, "neg", args)
    else if OperatorNamed(name).Some? && |args| == 2 then Operator(eng, OperatorNamed(name).value, args)
    else eng.apply(name, [], args)
  }

  function MethodValue(eng: Engine, receiver: Value, method_: string, args: Row): Value {
    eng.apply(method_, [("method", "")], [receiver] + args)
  }

  function FieldValue(eng: Engine, receiver: Value, field: string): Value {
    eng.apply(field, [("field", "")], [receiver])
  }

  function ListValue(eng: Engine, items: Row): Value {
    eng.apply("", [("list", "")], items)
  }

  /** A written-out `col("name")` call: the only way a helper names a column, so references stay visible in the text. */
  predicate IsColCall(e: Expr) {
    (e.Call? && e.callee == Name("col") && |e.args| == 1 && e.args[0].Str?)
    || (e.ScopedSymbolCall? && e.symbol == "col" && |e.args| == 1 && e.args[0].Str?)
  }

  function ColCallName(e: Expr): string
    requires IsColCall(e)
  {
    e.args[0].text
  }

  /** The column a helper-call tree is a direct reference to. */
  function DirectColumn(e: Expr): Option<string> {
    if e.Call? && e.callee == Helper("col") && |e.args| == 1 && e.args[0].Str? then Some(e.args[0].text) else None
  }

  /** Meaning of a query expression as written. */
  function Surface(eng: Engine, names: seq<string>, row: Row, e: Expr): Value
    decreases e, 1
  {
    if IsColCall(e) then Column_(names, row, ColCallName(e))
    else match e
    case Str(s) => StrValue(s)
    case Int(i) => IntValue(i)
    case Bool(b) => BoolValue(b)
    case Name(n) => Column_(names, row, n)
    case CurrentField(f) => Column_(names, row, f)
    case RelationField(r, f) => Column_(names, row, r + "." + f)
    case ScopedSurface(query, payload) =>
      if query && payload.LeadingDotPath? then Column_(names, row, Joined(payload.segments, ".")) else Null
    case Binary(l, op, r) =>
      Operator(eng, Symbol(op), [Surface(eng, names, row, l), Surface(eng, names, row, r)])
    case Unary(op, v) => Operator(eng, if op == Not then "not" else "neg", [Surface(eng, names, row, v)])
    case Call(callee, args) =>
      if callee.Name? then HelperValue(eng, callee.name, SurfaceAll(eng, names, row, args))
      else if callee.Field? then
        MethodValue(eng, Surface(eng, names, row, callee.object_), callee.field, SurfaceAll(eng, names, row, args))
      else Null
    case ScopedSymbolCall(symbol, args) => HelperValue(eng, symbol, SurfaceAll(eng, names, row, args))
    case Field(o, f) => FieldValue(eng, Surface(eng, names, row, o), f)
    case ListOf(items) => ListValue(eng, SurfaceAll(eng, names, row, items))
    case _ => Null
  }

  function SurfaceAll(eng: Engine, names: seq<string>, row: Row, es: seq<Expr>): (r: Row)
    ensures |r| == |es| && forall k :: 0 <= k < |es| ==> r[k] == Surface(eng, names, row, es[k])
    decreases es, 0
  {
    if es == [] then []
    else [Surface(eng, names, row, es[0])] + SurfaceAll(eng, names, row, es[1..])
  }

  /** Meaning of a helper-call tree. */
  function Lowered(eng: Engine, names: seq<string>, row: Row, e: Expr): Value
    decreases e, 1
  {
    if DirectColumn(e).Some? then Column_(names, row, DirectColumn(e).value)
    else match e
    case Str(s) => StrValue(s)
    case Int(i) => IntValue(i)
    case Bool(b) => BoolValue(b)
    case Call(callee, args) =>
      if callee.Helper? then HelperValue(eng, callee.helper, LoweredAll(eng, names, row, args))
      else if callee.Field? then
        MethodValue(eng, Lowered(eng, names, row, callee.object_), callee.field, LoweredAll(eng, names, row, args))
      else Null
    case Field(o, f) => FieldValue(eng, Lowered(eng, names, row, o), f)
    case ListOf(items) => ListValue(eng, LoweredAll(eng, names, row, items))
    case _ => Null
  }

  function LoweredAll(eng: Engine, names: seq<string>, row: Row, es: seq<Expr>): (r: Row)
    ensures |r| == |es| && forall k :: 0 <= k < |es| ==> r[k] == Lowered(eng, names, row, es[k])
    decreases es, 0
  {
    if es == [] then []
    else [Lowered(eng, names, row, es[0])] + LoweredAll(eng, names, row, es[1..])
  }

  /** Main result on expressions: whatever lowers keeps its value on every row. */
  lemma {:induction false} LoweringPreservesValue(eng: Engine, names: seq<string>, row: Row, e: Expr)
    requires LowerColumn(e).Ok?
    ensures Lowered(eng, names, row, LowerColumn(e).value) == Surface(eng, names, row, e)
    decreases e, 1
  {
    match e {
      case Binary(l, op, r) =>
        OperandPreserved(eng, names, row, l);
        OperandPreserved(eng, names, row, r);
        BinaryPreserved(eng, names, row, op, LowerValue(l).value, LowerValue(r).value);
      case Unary(op, v) =>
        OperandPreserved(eng, names, row, v);
        UnaryPreserved(eng, names, row, op, LowerValue(v).value);
      case Call(callee, args) =>
        OperandsPreserved(eng, names, row, args);
        if callee.Name? {
          NamedCallPreserved(eng, names, row, callee.name, args);
        } else {
          LoweringPreservesValue(eng, names, row, callee.object_);
        }
      case ScopedSymbolCall(symbol, args) =>
        OperandsPreserved(eng, names, row, args);
        HelperCallPreserved(eng, names, row, symbol, args);
      case Field(o, _) => LoweringPreservesValue(eng, names, row, o);
      case ListOf(items) => ColumnsPreserved(eng, names, row, items);
      case ScopedSurface(_, _) => PathPreserved(eng, names, row, e);
      case CurrentField(_) => PathPreserved(eng, names, row, e);
      case RelationField(_, _) => PathPreserved(eng, names, row, e);
      case Name(_) => PathPreserved(eng, names, row, e);
      case Str(_) => LiteralPreserved(eng, names, row, e);
      case Int(_) => LiteralPreserved(eng, names, row, e);
      case Bool(_) => LiteralPreserved(eng, names, row, e);
      case _ =>
    }
  }

  /** Every way to spell a column becomes the one reference to it. */
  lemma PathPreserved(eng: Engine, names: seq<string>, row: Row, e: Expr)
    requires e.ScopedSurface? || e.CurrentField? || e.RelationField? || e.Name?
    requires LowerColumn(e).Ok?
    ensures Lowered(eng, names, row, LowerColumn(e).value) == Surface(eng, names, row, e)
  {
    match e
    case ScopedSurface(_, payload) => ColCallValue(eng, names, row, Joined(payload.segments, "."));
    case CurrentField(f) => ColCallValue(eng, names, row, f);
    case RelationField(r, f) => ColCallValue(eng, names, row, r + "." + f);
    case Name(n) => ColCallValue(eng, names, row, n);
  }

  lemma LiteralPreserved(eng: Engine, names: seq<string>, row: Row, e: Expr)
    requires e.Str? || e.Int? || e.Bool?
    ensures Lowered(eng, names, row, HelperCall("lit", [e])) == Surface(eng, names, row, e)
  {
    assert LoweredAll(eng, names, row, [e]) == [Lowered(eng, names, row, e)];
  }

  lemma NamedCallPreserved(eng: Engine, names: seq<string>, row: Row, name: string, args: seq<Expr>)
    requires LowerValues(args).Ok?
    requires LoweredAll(eng, names, row, LowerValues(args).value) == SurfaceAll(eng, names, row, args)
    ensures Lowered(eng, names, row, HelperCall(HelperName(name), LowerValues(args).value))
         == Surface(eng, names, row, Call(Name(name), args))
  {
    HelperCallPreserved(eng, names, row, HelperName(name), args);
    assert HelperName(name) == "col" <==> name == "col";
  }

  lemma HelperCallPreserved(eng: Engine, names: seq<string>, row: Row, helper: string, args: seq<Expr>)
    requires LowerValues(args).Ok?
    requires LoweredAll(eng, names, row, LowerValues(args).value) == SurfaceAll(eng, names, row, args)
    ensures Lowered(eng, names, row, HelperCall(helper, LowerValues(args).value))
         == if helper == "col" && |args| == 1 && args[0].Str? then Column_(names, row, args[0].text)
            else HelperValue(eng, helper, SurfaceAll(eng, names, row, args))
  {
    CallNames(helper, args);
  }

  lemma ColCallValue(eng: Engine, names: seq<string>, row: Row, name: string)
    ensures Lowered(eng, names, row, ColCall(name)) == Column_(names, row, name)
  {
    assert LoweredAll(eng, names, row, [Str(name)]) == [StrValue(name)];
  }

  /** Each operator's helper is the one the helper table maps back to it, and it is none of the special helpers. */
  lemma OperatorHelpers(op: BinaryOp)
    requires BinaryHelper(op).Ok?
    ensures OperatorNamed(BinaryHelper(op).value) == Some(Symbol(op))
    ensures BinaryHelper(op).value !in {"mod", "col", "lit", "not_", "neg"}
  {
    match op {
      case Add => assert "add"[0] == 'a';
      case Sub => assert "sub"[0] == 's';
      case Mul => assert "mul"[0] == 'm' && "mul"[1] == 'u';
      case Div => assert "div"[0] == 'd';
      case Mod => assert |"modulo"| == 6;
      case Eq => assert |"eq"| == 2 && "eq"[0] == 'e';
      case NotEq => assert |"ne"| == 2 && "ne"[0] == 'n';
      case Lt => assert |"lt"| == 2 && "lt"[0] == 'l' && "lt"[1] == 't';
      case LtEq => assert |"lte"| == 3 && "lte"[0] == 'l' && "lte"[1] == 't';
      case Gt => assert |"gt"| == 2 && "gt"[0] == 'g' && "gt"[1] == 't';
      case GtEq => assert |"gte"| == 3 && "gte"[0] == 'g';
      case And => assert |"and_"| == 4 && "and_"[0] == 'a';
      case Or => assert |"or_"| == 3 && "or_"[0] == 'o';
    }
  }

  lemma BinaryPreserved(eng: Engine, names: seq<string>, row: Row, op: BinaryOp, l: Expr, r: Expr)
    requires BinaryHelper(op).Ok?
    ensures Lowered(eng, names, row, HelperCall(BinaryHelper(op).value, [l, r]))
         == Operator(eng, Symbol(op), [Lowered(eng, names, row, l), Lowered(eng, names, row, r)])
  {
    var args := [Lowered(eng, names, row, l), Lowered(eng, names, row, r)];
    assert LoweredAll(eng, names, row, [l, r]) == args;
    OperatorHelpers(op);
  }

  lemma UnaryPreserved(eng: Engine, names: seq<string>, row: Row, op: UnaryOp, v: Expr)
    requires UnaryHelper(op).Ok?
    ensures Lowered(eng, names, row, HelperCall(UnaryHelper(op).value, [v]))
         == Operator(eng, if op == Not then "not" else "neg", [Lowered(eng, names, row, v)])
  {
    assert LoweredAll(eng, names, row, [v]) == [Lowered(eng, names, row, v)];
    assert "neg"[0] == 'n';
  }

  lemma {:induction false} OperandPreserved(eng: Engine, names: seq<string>, row: Row, e: Expr)
    requires LowerValue(e).Ok?
    ensures Lowered(eng, names, row, LowerValue(e).value) == Surface(eng, names, row, e)
    decreases e, 2
  {
    if !(e.Str? || e.Int? || e.Bool?) {
      LoweringPreservesValue(eng, names, row, e);
    }
  }

  lemma {:induction false} OperandsPreserved(eng: Engine, names: seq<string>, row: Row, es: seq<Expr>)
    requires LowerValues(es).Ok?
    ensures LoweredAll(eng, names, row, LowerValues(es).value) == SurfaceAll(eng, names, row, es)
    decreases es, 0
  {
    if es != [] {
      OperandPreserved(eng, names, row, es[0]);
      OperandsPreserved(eng, names, row, es[1..]);
      assert LowerValues(es).value[1..] == LowerValues(es[1..]).value;
    }
  }

  lemma {:induction false} ColumnsPreserved(eng: Engine, names: seq<string>, row: Row, es: seq<Expr>)
    requires LowerColumns(es).Ok?
    ensures LoweredAll(eng, names, row, LowerColumns(es).value) == SurfaceAll(eng, names, row, es)
    decreases es, 0
  {
    if es != [] {
      LoweringPreservesValue(eng, names, row, es[0]);
      ColumnsPreserved(eng, names, row, es[1..]);
      assert LowerColumns(es).value[1..] == LowerColumns(es[1..]).value;
    }
  }

  // ----- normal form and acceptance -----

  /** Only literals, lists, field reads, and helper or method calls: no field shorthand, path or bare name is left. */
  predicate Normal(e: Expr)
    decreases e
  {
    match e
    case Str(_) => true
    case Int(_) => true
    case Bool(_) => true
    case Call(callee, args) =>
      && (callee.Helper? || (callee.Field? && Normal(callee.object_)))
      && forall k :: 0 <= k < |args| ==> Normal(args[k])
    case Field(o, _) => Normal(o)
    case ListOf(items) => forall k :: 0 <= k < |items| ==> Normal(items[k])
    case _ => false
  }

  /** The expression forms a query block supports. */
  predicate Supported(e: Expr)
    decreases e
  {
    match e
    case Str(_) => true
    case Int(_) => true
    case Bool(_) => true
    case Name(_) => true
    case CurrentField(_) => true
    case RelationField(_, _) => true
    case ScopedSurface(query, payload) => query && payload.LeadingDotPath?
    case Binary(l, op, r) => op != OtherBinary && Supported(l) && Supported(r)
    case Unary(op, v) => op != OtherUnary && Supported(v)
    case Call(callee, args) =>
      && (callee.Name? || (callee.Field? && Supported(callee.object_)))
      && forall k :: 0 <= k < |args| ==> Supported(args[k])
    case ScopedSymbolCall(_, args) => forall k :: 0 <= k < |args| ==> Supported(args[k])
    case Field(o, _) => Supported(o)
    case ListOf(items) => forall k :: 0 <= k < |items| ==> Supported(items[k])
    case _ => false
  }

  /** Lowering accepts exactly the supported forms and always ends in normal form. */
  lemma {:induction false} LowersExactly(e: Expr)
    ensures LowerColumn(e).Ok? <==> Supported(e)
    ensures LowerColumn(e).Ok? ==> Normal(LowerColumn(e).value)
    decreases e, 1
  {
    match e {
      case Binary(l, op, r) =>
        LowersExactly(l);
        LowersExactly(r);
      case Unary(op, v) => LowersExactly(v);
      case Call(callee, args) =>
        ValuesLowerExactly(args);
        if callee.Field? {
          LowersExactly(callee.object_);
        }
        CallLowersExactly(callee, args);
      case ScopedSymbolCall(_, args) => ValuesLowerExactly(args);
      case Field(o, _) => LowersExactly(o);
      case ListOf(items) => ColumnsLowerExactly(items);
      case _ =>
    }
  }

  lemma CallLowersExactly(callee: Expr, args: seq<Expr>)
    requires LowerValues(args).Ok? <==> forall k :: 0 <= k < |args| ==> Supported(args[k])
    requires LowerValues(args).Ok? ==> forall k :: 0 <= k < |args| ==> Normal(LowerValues(args).value[k])
    requires callee.Field? ==> (LowerColumn(callee.object_).Ok? <==> Supported(callee.object_))
    requires callee.Field? && LowerColumn(callee.object_).Ok? ==> Normal(LowerColumn(callee.object_).value)
    ensures LowerColumn(Call(callee, args)).Ok? <==> Supported(Call(callee, args))
    ensures LowerColumn(Call(callee, args)).Ok? ==> Normal(LowerColumn(Call(callee, args)).value)
  {
  }

  lemma {:induction false} ValuesLowerExactly(es: seq<Expr>)
    ensures LowerValues(es).Ok? <==> forall k :: 0 <= k < |es| ==> Supported(es[k])
    ensures LowerValues(es).Ok? ==> forall k :: 0 <= k < |es| ==> Normal(LowerValues(es).value[k])
    decreases es, 0
  {
    if es != [] {
      LowersExactly(es[0]);
      ValuesLowerExactly(es[1..]);
      assert forall k :: 1 <= k < |es| ==> es[k] == es[1..][k - 1];
      assert forall k :: 0 <= k < |es[1..]| ==> es[1..][k] == es[k + 1];
    }
  }

  lemma {:induction false} ColumnsLowerExactly(es: seq<Expr>)
    ensures LowerColumns(es).Ok? <==> forall k :: 0 <= k < |es| ==> Supported(es[k])
    ensures LowerColumns(es).Ok? ==> forall k :: 0 <= k < |es| ==> Normal(LowerColumns(es).value[k])
    decreases es, 0
  {
    if es != [] {
      LowersExactly(es[0]);
      ColumnsLowerExactly(es[1..]);
      assert forall k :: 1 <= k < |es| ==> es[k] == es[1..][k - 1];
      assert forall k :: 0 <= k < |es[1..]| ==> es[1..][k] == es[k + 1];
    }
  }

  // ----- names across the two layers -----

  function ArgumentName(e: Expr): string {
    if DirectColumn(e).Some? then DirectColumn(e).value else "expr"
  }

  /** The library's name for an unaliased measure built from a helper call. */
  function LibraryName(helper: string, args: seq<Expr>): string {
    var kind := if helper == "count_distinct" then "count" else helper;
    if args == [] then kind
    else
      kind + (if helper == "count_distinct" then "_distinct_" else "_")
      + ArgumentName(args[0])
  }

  /** An unaliased aggregate has one name in both layers exactly when its first argument is not a written-out
      `col(...)` call, or that call happens to name the column "expr". */
  lemma AggregateNamesAgree(name: string, args: seq<Expr>)
    requires IsAggregateName(name) && LowerValues(args).Ok?
    requires name == "count_distinct" ==> args != []
    ensures DefaultAggregateName(name, args) == LibraryName(name, LowerValues(args).value)
        <==> args == [] || !IsColCall(args[0]) || ColCallName(args[0]) == "expr"
  {
    if args != [] {
      var lowered := LowerValues(args).value;
      ScalarNamesAgree(args[0]);
      LibraryPrefix(name, lowered);
      PrefixedNames(name + "_", DefaultScalarName(args[0]), ArgumentName(lowered[0]));
    }
  }

  lemma PrefixedNames(prefix: string, a: string, b: string)
    ensures prefix + a == prefix + b <==> a == b
  {
    assert (prefix + a)[|prefix|..] == a && (prefix + b)[|prefix|..] == b;
  }

  lemma LibraryPrefix(name: string, args: seq<Expr>)
    requires args != []
    ensures LibraryName(name, args) == name + "_" + ArgumentName(args[0])
  {
    if name == "count_distinct" {
      assert "count" + "_distinct_" == name + "_";
    }
  }

  lemma ScalarNamesAgree(e: Expr)
    requires LowerValue(e).Ok?
    ensures if IsColCall(e) then DirectColumn(LowerValue(e).value) == Some(ColCallName(e)) && DefaultScalarName(e) == "expr"
            else DefaultScalarName(e) == ArgumentName(LowerValue(e).value)
  {
    match e {
      case Call(callee, args) =>
        if callee.Name? {
          CallNames(HelperName(callee.name), args);
          assert HelperName(callee.name) == "col" <==> callee.name == "col";
        }
      case ScopedSymbolCall(symbol, args) => CallNames(symbol, args);
      case Binary(_, _, _) =>
      case Unary(op, _) => assert op == Neg ==> UnaryHelper(op).value[0] == 'n';
      case _ =>
    }
  }

  /** The lowered call is a direct column reference exactly when `col` was written out over one text literal. */
  lemma CallNames(helper: string, args: seq<Expr>)
    requires LowerValues(args).Ok?
    ensures DirectColumn(HelperCall(helper, LowerValues(args).value))
         == if helper == "col" && |args| == 1 && args[0].Str? then Some(args[0].text) else None
  {
    if |args| == 1 {
      assert LowerValues(args).value[0] == LowerValue(args[0]).value;
      LiteralsStayRaw(args[0]);
    }
  }

  lemma LiteralsStayRaw(e: Expr)
    requires LowerValue(e).Ok?
    ensures e.Str? ==> LowerValue(e).value == e
    ensures LowerValue(e).value.Str? ==> e.Str?
  {
    match e
    case Binary(_, _, _) =>
    case Unary(_, _) =>
    case _ =>
  }
}
