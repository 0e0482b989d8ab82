/** Every accepted query block builds a plan, as long as `lit` stands around literals and the joined relations stand in
    the store. */
module QueryBuilds {
  import opened Wrappers
  import opened Incan
  import opened Desugar
  import opened Queries
  import opened QueryShape
  import opened QueryValues
  import opened QueryPlans
  import Chains = ChainMeaning
  import Expressions
  import QueryCorrect

  // ----- expressions -----

  predicate IsRaw(e: Expr) {
    e.Str? || e.Int? || e.Bool?
  }

  predicate LitFits(helper: string, args: seq<Expr>) {
    helper == "lit" && |args| == 1 ==> IsRaw(args[0])
  }

  /** Every written-out `lit` is given a literal, as the type of the helper asks. */
  predicate PlainLits(e: Expr)
    decreases e
  {
    match e
    case Binary(l, _, r) => PlainLits(l) && PlainLits(r)
    case Unary(_, v) => PlainLits(v)
    case Call(callee, args) =>
      && (callee.Name? ==> LitFits(callee.name, args))
      && (callee.Field? ==> PlainLits(callee.object_))
      && forall k :: 0 <= k < |args| ==> PlainLits(args[k])
    case ScopedSymbolCall(symbol, args) =>
      LitFits(symbol, args) && forall k :: 0 <= k < |args| ==> PlainLits(args[k])
    case Field(o, _) => PlainLits(o)
    case ListOf(items) => forall k :: 0 <= k < |items| ==> PlainLits(items[k])
    case _ => true
  }

  predicate AllPlain(es: seq<Expr>) {
    forall k :: 0 <= k < |es| ==> PlainLits(es[k])
  }

  lemma HelperAccepts(helper: string, xs: seq<Expressions.ColumnExpr>)
    requires helper == "lit" && |xs| == 1 ==> IsLiteral(xs[0])
    ensures BuiltHelper(helper, xs).Some?
  {
    assert "modulo"[0] == 'm' && "lit"[0] == 'l';
  }

  lemma CallBuilt(helper: string, args: seq<Expr>)
    requires BuiltAll(args).Some? && BuiltHelper(helper, BuiltAll(args).value).Some?
    ensures Built(HelperCall(helper, args)).Some?
  {
  }

  lemma RawIsLiteral(e: Expr)
    requires IsRaw(e)
    ensures Built(e).Some? && IsLiteral(Built(e).value)
  {
  }

  lemma HelperBuilds(helper: string, args: seq<Expr>)
    requires BuiltAll(args).Some? && LitFits(helper, args)
    ensures Built(HelperCall(helper, args)).Some?
  {
    if helper == "lit" && |args| == 1 {
      BuiltEach(args, 0);
      RawIsLiteral(args[0]);
    }
    HelperAccepts(helper, BuiltAll(args).value);
    CallBuilt(helper, args);
  }

  lemma {:induction false} ColumnBuilds(e: Expr)
    requires LowerColumn(e).Ok? && PlainLits(e)
    ensures Built(LowerColumn(e).value).Some?
    decreases e, 1
  {
    match e {
      case Binary(l, op, r) =>
        ValueBuilds(l);
        ValueBuilds(r);
        OperatorHelpers(op);
        PairBuilds(LowerValue(l).value, LowerValue(r).value);
        HelperBuilds(BinaryHelper(op).value, [LowerValue(l).value, LowerValue(r).value]);
      case Unary(op, v) =>
        ValueBuilds(v);
        OneBuilt(LowerValue(v).value);
        UnaryNotLit(op);
        HelperBuilds(UnaryHelper(op).value, [LowerValue(v).value]);
      case Call(callee, args) =>
        ValuesBuild(args);
        if callee.Name? {
          CalledBuilds(callee.name, HelperName(callee.name), args);
        } else {
          ColumnBuilds(callee.object_);
        }
      case ScopedSymbolCall(symbol, args) =>
        ValuesBuild(args);
        CalledBuilds(symbol, symbol, args);
      case Field(o, _) => ColumnBuilds(o);
      case ListOf(items) => ColumnsBuild(items);
      case Str(_) => RawBuilds(e);
      case Int(_) => RawBuilds(e);
      case Bool(_) => RawBuilds(e);
      case _ =>
    }
  }

  lemma PairBuilds(a: Expr, b: Expr)
    requires Built(a).Some? && Built(b).Some?
    ensures BuiltAll([a, b]).Some?
  {
    OneBuilt(b);
    assert [a, b][1..] == [b];
  }

  lemma UnaryNotLit(op: UnaryOp)
    requires UnaryHelper(op).Ok?
    ensures UnaryHelper(op).value != "lit"
  {
    assert "neg"[0] == 'n' && "not_"[0] == 'n' && "lit"[0] == 'l';
  }

  lemma RawBuilds(e: Expr)
    requires IsRaw(e)
    ensures Built(HelperCall("lit", [e])).Some?
  {
    OneBuilt(e);
    HelperBuilds("lit", [e]);
  }

  /** Literals stay raw in argument position, so a plain `lit` keeps its literal. */
  lemma CalledBuilds(name: string, helper: string, args: seq<Expr>)
    requires LowerValues(args).Ok? && BuiltAll(LowerValues(args).value).Some? && LitFits(name, args)
    requires helper == name || (name == "mod" && helper == "modulo")
    ensures Built(HelperCall(helper, LowerValues(args).value)).Some?
  {
    assert "modulo"[0] == 'm' && "lit"[0] == 'l';
    if |args| == 1 {
      assert LowerValues(args).value[0] == LowerValue(args[0]).value;
    }
    HelperBuilds(helper, LowerValues(args).value);
  }

  lemma {:induction false} ValueBuilds(e: Expr)
    requires LowerValue(e).Ok? && PlainLits(e)
    ensures Built(LowerValue(e).value).Some?
    decreases e, 2
  {
    if !IsRaw(e) {
      ColumnBuilds(e);
    }
  }

  lemma {:induction false} ValuesBuild(es: seq<Expr>)
    requires LowerValues(es).Ok? && AllPlain(es)
    ensures BuiltAll(LowerValues(es).value).Some?
    decreases es, 0
  {
    if es != [] {
      ValueBuilds(es[0]);
      ValuesBuild(es[1..]);
      assert LowerValues(es).value[1..] == LowerValues(es[1..]).value;
    }
  }

  lemma {:induction false} ColumnsBuild(es: seq<Expr>)
    requires LowerColumns(es).Ok? && AllPlain(es)
    ensures BuiltAll(LowerColumns(es).value).Some?
    decreases es, 0
  {
    if es != [] {
      ColumnBuilds(es[0]);
      ColumnsBuild(es[1..]);
      assert LowerColumns(es).value[1..] == LowerColumns(es[1..]).value;
    }
  }

  // ----- SELECT items -----

  predicate PlainItems(items: seq<Item>) {
    forall k :: 0 <= k < |items| ==> PlainLits(items[k].expr)
  }

  lemma AssignmentBuilds(name: string, value: Expr)
    requires Built(value).Some?
    ensures BuiltAssignment(AssignmentCall(name, value)).Some?
  {
  }

  lemma ColBuilds(name: string)
    ensures Built(ColCall(name)).Some?
  {
  }

  lemma PlainItemBuilds(item: Item)
    requires LowerPlainItem(item).Ok? && PlainLits(item.expr)
    ensures BuiltAssignment(LowerPlainItem(item).value).Some?
  {
    ColumnBuilds(item.expr);
    AssignmentBuilds(SelectItemName(item).value, LowerColumn(item.expr).value);
  }

  lemma AssignmentsBuildAppend(front: seq<Expr>, last: Expr)
    requires BuiltAssignments(front).Some? && BuiltAssignment(last).Some?
    ensures BuiltAssignments(front + [last]).Some?
  {
    assert (front + [last])[..|front|] == front;
  }

  lemma {:induction false} PlainItemsBuild(items: seq<Item>)
    requires LowerPlainItems(items).Ok? && PlainItems(items)
    ensures BuiltAssignments(LowerPlainItems(items).value).Some?
  {
    if items != [] {
      var n := |items| - 1;
      PlainItemsBuild(items[..n]);
      PlainItemBuilds(items[n]);
      AssignmentsBuildAppend(LowerPlainItems(items[..n]).value, LowerPlainItem(items[n]).value);
    }
  }

  /** An aggregate lowers to a helper call over built arguments. */
  lemma AggregateBuilds(e: Expr)
    requires IsAggregate(e) && LowerColumn(e).Ok? && PlainLits(e)
    ensures var m := LowerColumn(e).value; Chains.IsHelperCall(m) && BuiltAll(m.args).Some? && !Chains.IsAliased(m)
  {
    ValuesBuild(e.args);
    assert "aggregate_as"[0] == 'a' && "aggregate_as"[1] == 'g' && "avg"[1] == 'v';
  }

  lemma MeasureBuilds(item: Item)
    requires IsAggregate(item.expr) && LowerAggregateItem(item).Ok? && PlainLits(item.expr)
    ensures var lowered := LowerAggregateItem(item).value;
            |lowered.0| == 1 && BuiltMeasure(lowered.0[0]).Some? && BuiltAssignment(lowered.1).Some?
  {
    AggregateBuilds(item.expr);
    ColBuilds(AggregateItemName(item).value);
    AssignmentBuilds(AggregateItemName(item).value, ColCall(AggregateItemName(item).value));
  }

  lemma {:induction false} MeasuresBuildAppend(front: seq<Expr>, last: Expr)
    requires BuiltMeasures(front).Some? && BuiltMeasure(last).Some?
    ensures BuiltMeasures(front + [last]).Some?
  {
    if front == [] {
      assert [] + [last] == [last] && [last][1..] == [];
    } else {
      MeasuresBuildAppend(front[1..], last);
      assert (front + [last])[1..] == front[1..] + [last];
    }
  }

  lemma {:induction false} AggregateItemsBuild(items: seq<Item>)
    requires LowerAggregateItems(items).Ok? && PlainItems(items)
    ensures BuiltMeasures(LowerAggregateItems(items).value.0).Some?
    ensures BuiltAssignments(LowerAggregateItems(items).value.1).Some?
  {
    if items != [] {
      var n := |items| - 1;
      var front, last := LowerAggregateItems(items[..n]).value, LowerAggregateItem(items[n]).value;
      AggregateItemsBuild(items[..n]);
      if IsAggregate(items[n].expr) {
        MeasureBuilds(items[n]);
        assert last.0 == [last.0[0]];
        MeasuresBuildAppend(front.0, last.0[0]);
      } else {
        PlainItemBuilds(items[n]);
        assert front.0 + last.0 == front.0;
      }
      AssignmentsBuildAppend(front.1, last.1);
    }
  }

  lemma {:induction false} OutputColumnsBuild(items: seq<Item>)
    requires SelectOutputColumns(items).Ok?
    ensures BuiltAll(SelectOutputColumns(items).value).Some?
  {
    if items != [] {
      var n := |items| - 1;
      OutputColumnsBuild(items[..n]);
      ColBuilds(SelectItemName(items[n]).value);
      BuildsAppend(SelectOutputColumns(items[..n]).value, ColCall(SelectItemName(items[n]).value));
    }
  }

  lemma {:induction false} BuildsAppend(front: seq<Expr>, last: Expr)
    requires BuiltAll(front).Some? && Built(last).Some?
    ensures BuiltAll(front + [last]).Some?
  {
    if front == [] {
      OneBuilt(last);
      assert [] + [last] == [last];
    } else {
      BuildsAppend(front[1..], last);
      assert (front + [last])[1..] == front[1..] + [last];
    }
  }

  // ----- calls -----

  /** A call that builds a node on any cursor over a store of at least `size` nodes. */
  predicate CallBuilds(size: nat, relations: Relations, number: Expr -> nat, call: Invocation) {
    var m := Chains.MethodNamed(call.method_);
    && m.Some? && AppendedNode(0, relations, number, m.value, call.args).Some?
    && (m.value.Join? || m.value.LeftJoin? ==> relations(call.args[0]).value < size)
  }

  predicate CallsBuild(size: nat, relations: Relations, number: Expr -> nat, calls: seq<Invocation>) {
    forall k :: 0 <= k < |calls| ==> CallBuilds(size, relations, number, calls[k])
  }

  lemma BuildsAnywhere(c: Cursor, size: nat, relations: Relations, number: Expr -> nat, call: Invocation)
    requires CallBuilds(size, relations, number, call) && size <= |c.nodes|
    ensures PlannedCall(c, relations, number, call).Some?
    ensures |PlannedCall(c, relations, number, call).value.nodes| == |c.nodes| + 1
  {
  }

  lemma {:induction false} ChainBuilds(c: Cursor, relations: Relations, number: Expr -> nat, calls: seq<Invocation>)
    requires CallsBuild(|c.nodes|, relations, number, calls)
    ensures Planned(c, relations, number, calls).Some?
    ensures |Planned(c, relations, number, calls).value.nodes| == |c.nodes| + |calls|
    decreases |calls|
  {
    if calls != [] {
      var n := |calls| - 1;
      ChainBuilds(c, relations, number, calls[..n]);
      BuildsAnywhere(Planned(c, relations, number, calls[..n]).value, |c.nodes|, relations, number, calls[n]);
    }
  }

  // ----- clauses -----

  /** Every expression of the clause is plain; the row count of LIMIT is the host's to read. */
  predicate PlainClause(c: Clause) {
    match c.body
    case ExpressionBody(e) => Words(c) == "LIMIT" || PlainLits(e)
    case ListBody(items) => PlainItems(items)
    case FieldsBody(fields) =>
      forall k :: 0 <= k < |fields| && fields[k].defaultValue.Some? ==> PlainLits(fields[k].defaultValue.value)
    case _ => true
  }

  /** A plain step whose joined relation stands among the first `size` nodes. */
  predicate PlainStep(size: nat, relations: Relations, step: Step) {
    match step
    case Single(c) => PlainClause(c)
    case JoinOn(join, on) =>
      && (on.body.ExpressionBody? ==> PlainLits(on.body.expr))
      && (join.body.ExpressionBody? ==>
            relations(join.body.expr).Some? && relations(join.body.expr).value < size)
  }

  lemma ListBuilds(c: Clause)
    requires LowerExpressionList(c).Ok? && PlainClause(c) && Words(c) != "LIMIT"
    ensures BuiltAll(LowerExpressionList(c).value).Some?
  {
    if c.body.ExpressionBody? {
      ColumnBuilds(c.body.expr);
      OneBuilt(LowerColumn(c.body.expr).value);
    } else {
      ColumnsBuild(ItemExprs(c.body.items));
    }
  }

  lemma {:induction false} WindowsBuild(size: nat, relations: Relations, number: Expr -> nat, fields: seq<FieldSpec>)
    requires WindowCalls(fields).Ok?
    requires forall k :: 0 <= k < |fields| && fields[k].defaultValue.Some? ==> PlainLits(fields[k].defaultValue.value)
    ensures CallsBuild(size, relations, number, WindowCalls(fields).value)
  {
    QueryCorrect.MoreMethodNames();
    if fields != [] {
      var n := |fields| - 1;
      WindowsBuild(size, relations, number, fields[..n]);
      ColumnBuilds(fields[n].defaultValue.value);
    }
  }

  lemma AggregateHeadBuilds(size: nat, relations: Relations, number: Expr -> nat, items: seq<Item>)
    requires LowerAggregateItems(items).Ok? && PlainItems(items)
    ensures var lowered := LowerAggregateItems(items).value;
            && CallBuilds(size, relations, number, Invocation("agg", [ListOf(lowered.0)]))
            && CallBuilds(size, relations, number, Invocation("select", [ListOf(lowered.1)]))
  {
    QueryCorrect.MethodNames();
    QueryCorrect.MoreMethodNames();
    AggregateItemsBuild(items);
  }

  lemma PlainHeadBuilds(size: nat, relations: Relations, number: Expr -> nat, items: seq<Item>)
    requires LowerPlainItems(items).Ok? && PlainItems(items)
    ensures CallBuilds(size, relations, number, Invocation("select", [ListOf(LowerPlainItems(items).value)]))
  {
    QueryCorrect.MoreMethodNames();
    PlainItemsBuild(items);
  }

  lemma HeadBuilds(size: nat, relations: Relations, number: Expr -> nat, items: seq<Item>)
    requires SelectCalls(items, false).Ok? && PlainItems(items)
    ensures CallsBuild(size, relations, number, SelectCalls(items, false).value)
  {
    if AnyAggregate(items) {
      AggregateHeadBuilds(size, relations, number, items);
    } else {
      PlainHeadBuilds(size, relations, number, items);
    }
  }

  lemma SelectBuilds(size: nat, relations: Relations, number: Expr -> nat, items: seq<Item>, distinct: bool)
    requires SelectCalls(items, distinct).Ok? && PlainItems(items)
    ensures CallsBuild(size, relations, number, SelectCalls(items, distinct).value)
  {
    HeadBuilds(size, relations, number, items);
    if distinct {
      QueryCorrect.MethodNames();
      OutputColumnsBuild(items);
    }
  }

  /** Dropping a DISTINCT prefix leaves a path. */
  lemma StrippedPlain(items: seq<Item>)
    requires StripDistinct(items).Ok? && PlainItems(items)
    ensures PlainItems(StripDistinct(items).value.0)
  {
  }

  lemma ClauseSelectBuilds(size: nat, relations: Relations, number: Expr -> nat, c: Clause, explicit: bool)
    requires ClauseSelect(c, explicit).Ok? && PlainClause(c)
    ensures CallsBuild(size, relations, number, ClauseSelect(c, explicit).value)
  {
    var items := c.body.items;
    if explicit {
      SelectBuilds(size, relations, number, items, true);
    } else {
      StrippedPlain(items);
      var stripped := StripDistinct(items).value;
      SelectBuilds(size, relations, number, stripped.0, stripped.1);
    }
  }

  lemma NotLimit(c: Clause)
    requires KeywordOf(c) != Limit
    ensures Words(c) != "LIMIT"
  {
    KeywordRead(c);
  }

  lemma WhereBuilds(size: nat, relations: Relations, number: Expr -> nat, c: Clause)
    requires KeywordOf(c) == Where && ClauseCalls(c).Ok? && PlainClause(c)
    ensures CallsBuild(size, relations, number, ClauseCalls(c).value)
  {
    NotLimit(c);
    QueryCorrect.MethodNames();
    ColumnBuilds(c.body.expr);
  }

  lemma GroupByBuilds(size: nat, relations: Relations, number: Expr -> nat, c: Clause)
    requires KeywordOf(c) == GroupBy && ClauseCalls(c).Ok? && PlainClause(c)
    ensures CallsBuild(size, relations, number, ClauseCalls(c).value)
  {
    NotLimit(c);
    QueryCorrect.MethodNames();
    ListBuilds(c);
  }

  lemma OrderByBuilds(size: nat, relations: Relations, number: Expr -> nat, c: Clause)
    requires KeywordOf(c) == OrderBy && ClauseCalls(c).Ok? && PlainClause(c)
    ensures CallsBuild(size, relations, number, ClauseCalls(c).value)
  {
    NotLimit(c);
    QueryCorrect.MoreMethodNames();
    ListBuilds(c);
  }

  lemma ExplodeBuilds(size: nat, relations: Relations, number: Expr -> nat, c: Clause)
    requires KeywordOf(c) == Explode && ClauseCalls(c).Ok? && PlainClause(c)
    ensures CallsBuild(size, relations, number, ClauseCalls(c).value)
  {
    QueryCorrect.MoreMethodNames();
    ColumnBuilds(c.body.items[0].expr);
  }

  lemma LimitBuilds(size: nat, relations: Relations, number: Expr -> nat, c: Clause)
    requires KeywordOf(c) == Limit && ClauseCalls(c).Ok?
    ensures CallsBuild(size, relations, number, ClauseCalls(c).value)
  {
    QueryCorrect.MoreMethodNames();
  }

  lemma ClauseBuilds(size: nat, relations: Relations, number: Expr -> nat, c: Clause)
    requires ClauseCalls(c).Ok? && PlainClause(c)
    ensures CallsBuild(size, relations, number, ClauseCalls(c).value)
  {
    match KeywordOf(c) {
      case Where => WhereBuilds(size, relations, number, c);
      case GroupBy => GroupByBuilds(size, relations, number, c);
      case Explode => ExplodeBuilds(size, relations, number, c);
      case WindowBy => WindowsBuild(size, relations, number, c.body.fields);
      case Select => ClauseSelectBuilds(size, relations, number, c, false);
      case SelectDistinct => ClauseSelectBuilds(size, relations, number, c, true);
      case OrderBy => OrderByBuilds(size, relations, number, c);
      case Limit => LimitBuilds(size, relations, number, c);
      case _ =>
    }
  }

  lemma StepBuilds(size: nat, relations: Relations, number: Expr -> nat, step: Step)
    requires Expand(step).Ok? && PlainStep(size, relations, step)
    ensures CallsBuild(size, relations, number, Expand(step).value)
  {
    if step.Single? {
      ClauseBuilds(size, relations, number, step.clause);
    } else {
      JoinBuilds(size, relations, number, step);
    }
  }

  lemma JoinBuilds(size: nat, relations: Relations, number: Expr -> nat, step: Step)
    requires step.JoinOn? && Expand(step).Ok? && PlainStep(size, relations, step)
    ensures CallsBuild(size, relations, number, Expand(step).value)
  {
    QueryCorrect.MethodNames();
    ColumnBuilds(step.on.body.expr);
  }

  predicate PlainSteps(size: nat, relations: Relations, steps: seq<Step>) {
    forall k :: 0 <= k < |steps| ==> PlainStep(size, relations, steps[k])
  }

  lemma {:induction false} StepsBuild(size: nat, relations: Relations, number: Expr -> nat, steps: seq<Step>)
    requires ExpandAll(steps).Ok? && PlainSteps(size, relations, steps)
    ensures CallsBuild(size, relations, number, ExpandAll(steps).value)
  {
    if steps != [] {
      StepBuilds(size, relations, number, steps[0]);
      StepsBuild(size, relations, number, steps[1..]);
    }
  }
}
