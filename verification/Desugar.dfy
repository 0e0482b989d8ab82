/** Lowering of query-block expressions and clauses (vocab_companion/src/desugar.rs). */
module Desugar {
  import opened Incan
  import opened Wrappers

  // ----- expressions -----

  function HelperName(name: string): string {
    if name == "mod" then "modulo" else name
  }

  function BinaryHelper(op: BinaryOp): Result<string> {
    match op
    case Add => Ok("add")
    case Sub => Ok("sub")
    case Mul => Ok("mul")
    case Div => Ok("div")
    case Mod => Ok("modulo")
    case Eq => Ok("eq")
    case NotEq => Ok("ne")
    case Lt => Ok("lt")
    case LtEq => Ok("lte")
    case Gt => Ok("gt")
    case GtEq => Ok("gte")
    case And => Ok("and_")
    case Or => Ok("or_")
    case OtherBinary => Err(UnsupportedOperator)
  }

  function UnaryHelper(op: UnaryOp): Result<string> {
    match op
    case Not => Ok("not_")
    case Neg => Ok("neg")
    case OtherUnary => Err(UnsupportedOperator)
  }

  function LowerColumn(e: Expr): Result<Expr>
    decreases e, 1
  {
    match e
    case ScopedSurface(query, payload) =>
      if !query then Err(UnsupportedExpression)
      else if payload.LeadingDotPath? then Ok(ColCall(Joined(payload.segments, ".")))
      else Err(NotAPath)
    case CurrentField(field) => Ok(ColCall(field))
    case RelationField(relation, field) => Ok(ColCall(relation + "." + field))
    case Str(_) => Ok(HelperCall("lit", [e]))
    case Int(_) => Ok(HelperCall("lit", [e]))
    case Bool(_) => Ok(HelperCall("lit", [e]))
    case Binary(left, op, right) =>
      var helper :- BinaryHelper(op);
      var l :- LowerValue(left);
      var r :- LowerValue(right);
      Ok(HelperCall(helper, [l, r]))
    case Unary(op, inner) =>
      var helper :- UnaryHelper(op);
      var v :- LowerValue(inner);
      Ok(HelperCall(helper, [v]))
    case Call(callee, args) =>
      if callee.Name? then
        var lowered :- LowerValues(args);
        Ok(HelperCall(HelperName(callee.name), lowered))
      else if callee.Field? then
        var object_ :- LowerColumn(callee.object_);
        var lowered :- LowerValues(args);
        Ok(Call(Field(object_, callee.field), lowered))
      else Err(BadCallee)
    case ScopedSymbolCall(symbol, args) =>
      var lowered :- LowerValues(args);
      Ok(HelperCall(symbol, lowered))
    case Name(name) => Ok(ColCall(name))
    case Field(object_, field) =>
      var lowered :- LowerColumn(object_);
      Ok(Field(lowered, field))
    case ListOf(items) =>
      var lowered :- LowerColumns(items);
      Ok(ListOf(lowered))
    case _ => Err(UnsupportedExpression)
  }

  /** Literals stay raw in argument position. */
  function LowerValue(e: Expr): Result<Expr>
    decreases e, 2
  {
    if e.Str? || e.Int? || e.Bool? then Ok(e) else LowerColumn(e)
  }

  function LowerValues(es: seq<Expr>): (r: Result<seq<Expr>>)
    ensures r.Ok? ==> |r.value| == |es|
    decreases es, 0
  {
    if es == [] then Ok([])
    else
      var first :- LowerValue(es[0]);
      var rest :- LowerValues(es[1..]);
      Ok([first] + rest)
  }

  function LowerColumns(es: seq<Expr>): (r: Result<seq<Expr>>)
    ensures r.Ok? ==> |r.value| == |es|
    decreases es, 0
  {
    if es == [] then Ok([])
    else
      var first :- LowerColumn(es[0]);
      var rest :- LowerColumns(es[1..]);
      Ok([first] + rest)
  }

  // ----- names -----

  predicate IsAggregateName(name: string) {
    name in {"sum", "count", "count_distinct", "avg", "min", "max"}
  }

  predicate IsAggregate(e: Expr) {
    (e.Call? && e.callee.Name? && IsAggregateName(e.callee.name))
    || (e.ScopedSymbolCall? && IsAggregateName(e.symbol))
  }

  predicate AnyAggregate(items: seq<Item>) {
    exists k :: 0 <= k < |items| && IsAggregate(items[k].expr)
  }

  /** The name a column reference spells; anything else is called "expr". */
  function DefaultScalarName(e: Expr): string {
    match e
    case ScopedSurface(query, payload) =>
      if query && payload.LeadingDotPath? then Joined(payload.segments, ".") else "expr"
    case CurrentField(field) => field
    case Name(field) => field
    case RelationField(relation, field) => relation + "." + field
    case _ => "expr"
  }

  function DefaultAggregateName(name: string, args: seq<Expr>): string {
    if args == [] then name else name + "_" + DefaultScalarName(args[0])
  }

  function AggregateItemName(item: Item): Result<string> {
    if item.alias.Some? then Ok(item.alias.value)
    else
      match item.expr
      case Call(callee, args) =>
        if callee.Name? && IsAggregateName(callee.name) then Ok(DefaultAggregateName(callee.name, args))
        else Err(NotAnAggregate)
      case ScopedSymbolCall(symbol, args) =>
        if IsAggregateName(symbol) then Ok(DefaultAggregateName(symbol, args)) else Err(NotAnAggregate)
      case _ => Err(NeedsAlias)
  }

  function SelectItemName(item: Item): Result<string> {
    if item.alias.Some? then Ok(item.alias.value)
    else
      match item.expr
      case ScopedSurface(query, payload) =>
        if !query then Err(NeedsAlias)
        else if payload.LeadingDotPath? then Ok(Joined(payload.segments, "."))
        else Err(NotAPath)
      case CurrentField(field) => Ok(field)
      case Name(field) => Ok(field)
      case RelationField(relation, field) => Ok(relation + "." + field)
      case _ => Err(NeedsAlias)
  }

  // ----- SELECT -----

  function AssignmentCall(name: string, value: Expr): Expr {
    HelperCall("with_column_assignment", [Str(name), value])
  }

  /** One item of an aggregate SELECT: an aggregate becomes a measure plus a reference to it. */
  function LowerAggregateItem(item: Item): Result<(seq<Expr>, Expr)> {
    if IsAggregate(item.expr) then
      var measure :- LowerColumn(item.expr);
      var name :- AggregateItemName(item);
      Ok(([if item.alias.Some? then HelperCall("aggregate_as", [measure, Str(item.alias.value)]) else measure],
          AssignmentCall(name, ColCall(name))))
    else
      var assignment :- LowerPlainItem(item);
      Ok(([], assignment))
  }

  function LowerPlainItem(item: Item): Result<Expr> {
    var name :- SelectItemName(item);
    var value :- LowerColumn(item.expr);
    Ok(AssignmentCall(name, value))
  }

  /** Measures and assignments of an aggregate SELECT, in item order. */
  function LowerAggregateItems(items: seq<Item>): (r: Result<(seq<Expr>, seq<Expr>)>)
    ensures r.Ok? ==> |r.value.1| == |items|
  {
    if items == [] then Ok(([], []))
    else
      var n := |items| - 1;
      var front :- LowerAggregateItems(items[..n]);
      var last :- LowerAggregateItem(items[n]);
      Ok((front.0 + last.0, front.1 + [last.1]))
  }

  function LowerPlainItems(items: seq<Item>): (r: Result<seq<Expr>>)
    ensures r.Ok? ==> |r.value| == |items|
  {
    if items == [] then Ok([])
    else
      var n := |items| - 1;
      var front :- LowerPlainItems(items[..n]);
      var last :- LowerPlainItem(items[n]);
      Ok(front + [last])
  }

  function SelectOutputColumns(items: seq<Item>): (r: Result<seq<Expr>>)
    ensures r.Ok? ==> |r.value| == |items|
  {
    if items == [] then Ok([])
    else
      var n := |items| - 1;
      var front :- SelectOutputColumns(items[..n]);
      var name :- SelectItemName(items[n]);
      Ok(front + [ColCall(name)])
  }

  /** One carrier method call of the lowered chain. */
  datatype Invocation = Invocation(method_: string, args: seq<Expr>)

  function Chain(receiver: Expr, calls: seq<Invocation>): Expr {
    if calls == [] then receiver
    else
      var n := |calls| - 1;
      MethodCall(Chain(receiver, calls[..n]), calls[n].method_, calls[n].args)
  }

  function SelectCalls(items: seq<Item>, distinct: bool): Result<seq<Invocation>> {
    var head :-
      if AnyAggregate(items) then
        var lowered :- LowerAggregateItems(items);
        Ok([Invocation("agg", [ListOf(lowered.0)]), Invocation("select", [ListOf(lowered.1)])])
      else
        var assignments :- LowerPlainItems(items);
        Ok([Invocation("select", [ListOf(assignments)])]);
    if distinct then
      var columns :- SelectOutputColumns(items);
      Ok(head + [Invocation("group_by", [ListOf(columns)])])
    else Ok(head)
  }

  function OnReceiver(receiver: Expr, calls: Result<seq<Invocation>>): Result<Expr> {
    if calls.Ok? then Ok(Chain(receiver, calls.value)) else Err(calls.error)
  }

  lemma ChainOne(receiver: Expr, call: Invocation)
    ensures Chain(receiver, [call]) == MethodCall(receiver, call.method_, call.args)
  {
    assert [call][..0] == [];
  }

  lemma {:induction false} ChainAppend(receiver: Expr, a: seq<Invocation>, b: seq<Invocation>)
    ensures Chain(receiver, a + b) == Chain(Chain(receiver, a), b)
    decreases |b|
  {
    if b == [] {
      assert a + b == a;
    } else {
      var n := |b| - 1;
      assert (a + b)[..|a + b| - 1] == a + b[..n];
      ChainAppend(receiver, a, b[..n]);
    }
  }

  method LowerSelect(source: Expr, items: seq<Item>, distinct: bool) returns (r: Result<Expr>)
    ensures r.Ok? == SelectCalls(items, distinct).Ok?
    ensures r.Ok? ==> r == OnReceiver(source, SelectCalls(items, distinct))
  {
    var current := source;
    if AnyAggregate(items) {
      var measures: seq<Expr> := [];
      var assignments: seq<Expr> := [];
      for k := 0 to |items|
        invariant LowerAggregateItems(items[..k]) == Ok((measures, assignments))
      {
        var item := items[k];
        assert items[..k + 1][..k] == items[..k];
        if LowerAggregateItem(item).Err? {
          AggregatePrefixFails(items, k);
        }
        if IsAggregate(item.expr) {
          var measure :- LowerColumn(item.expr);
          var name :- AggregateItemName(item);
          measures := measures +
            [if item.alias.Some? then HelperCall("aggregate_as", [measure, Str(item.alias.value)]) else measure];
          assignments := assignments + [AssignmentCall(name, ColCall(name))];
        } else {
          var name :- SelectItemName(item);
          var value :- LowerColumn(item.expr);
          assignments := assignments + [AssignmentCall(name, value)];
          assert measures == measures + [];
        }
      }
      assert items[..|items|] == items;
      current := MethodCall(current, "agg", [ListOf(measures)]);
      current := MethodCall(current, "select", [ListOf(assignments)]);
      ChainOne(source, Invocation("agg", [ListOf(measures)]));
      ChainAppend(source, [Invocation("agg", [ListOf(measures)])], [Invocation("select", [ListOf(assignments)])]);
      ChainOne(Chain(source, [Invocation("agg", [ListOf(measures)])]), Invocation("select", [ListOf(assignments)]));
      assert [Invocation("agg", [ListOf(measures)])] + [Invocation("select", [ListOf(assignments)])]
          == [Invocation("agg", [ListOf(measures)]), Invocation("select", [ListOf(assignments)])];
    } else {
      var assignments :- LowerPlainItems(items);
      current := MethodCall(current, "select", [ListOf(assignments)]);
      ChainOne(source, Invocation("select", [ListOf(assignments)]));
    }
    if distinct {
      var columns :- SelectOutputColumns(items);
      ghost var head := SelectCalls(items, false).value;
      ghost var last := Invocation("group_by", [ListOf(columns)]);
      ChainAppend(source, head, [last]);
      ChainOne(current, last);
      current := MethodCall(current, "group_by", [ListOf(columns)]);
    }
    return Ok(current);
  }

  /** One failing item fails the whole list. */
  lemma {:induction false} AggregatePrefixFails(items: seq<Item>, k: nat)
    requires k < |items| && LowerAggregateItem(items[k]).Err?
    ensures LowerAggregateItems(items).Err?
    decreases |items|
  {
    var n := |items| - 1;
    if k < n {
      AggregatePrefixFails(items[..n], k);
    }
  }
}
