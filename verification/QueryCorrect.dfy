/** The lowered chain of a whole query block means what its clauses mean, one after the other. */
module QueryCorrect {
  import opened Names
  import opened Tables
  import opened Incan
  import opened Wrappers
  import opened Desugar
  import opened Queries
  import opened QueryShape
  import opened QueryValues
  import opened QueryMeaning
  import opened Carriers
  import opened SelectCorrect
  import Chains = ChainMeaning
  import Plans

  // ----- which blocks are faithful -----

  /** How the rows arrive at a clause: ordinary, grouped by GROUP BY, or deduplicated by SELECT DISTINCT. */
  datatype Grouping = Plain | ByKeys(names: seq<string>) | ByDistinct

  function GroupingOf(c: Carrier): Grouping {
    if c.Ordinary? then Plain else ByKeys(c.keyNames)
  }

  function NextGrouping(g: Grouping, step: Step): Grouping {
    if step.JoinOn? then Plain
    else
      var c := step.clause;
      if OpensOn(c) || OpensJoin(c) || !Acts(c) then g
      else if Words(c) == "GROUP BY" then ByKeys(SurfaceKeyNames(Exprs(c)))
      else if Words(c) == "SELECT DISTINCT" then ByDistinct
      else if Words(c) == "SELECT" then if Selected(c).1 then ByDistinct else Plain
      else if Words(c) == "WINDOW BY" then if c.body.FieldsBody? && c.body.fields == [] then g else Plain
      else Plain
  }

  /** A SELECT list names something; DISTINCT output names differ; aggregates do not sit right behind a SELECT DISTINCT
      and their names stay apart. */
  predicate FaithfulStep(g: Grouping, step: Step) {
    SelectStep(step) ==>
      var (items, distinct) := Selected(step.clause);
      && items != []
      && (distinct ==> Distinct(ItemNames(items)))
      && (AnyAggregate(items) ==>
            !g.ByDistinct? && AggregatesApart(if g.ByKeys? then g.names else [], items))
  }

  predicate Faithful(g: Grouping, steps: seq<Step>)
    decreases |steps|
  {
    steps == [] || (FaithfulStep(g, steps[0]) && Faithful(NextGrouping(g, steps[0]), steps[1..]))
  }

  /** Clause-side and chain-side carriers agree; right after a DISTINCT only their visible rows do. */
  predicate Alike(s: Carrier, t: Carrier, g: Grouping) {
    && Flat(s) == Flat(t)
    && (!g.ByDistinct? ==> s == t && GroupingOf(s) == g)
  }

  // ----- one carrier method -----

  lemma MethodNames()
    ensures Chains.MethodNamed("filter") == Some(Chains.Filter)
    ensures Chains.MethodNamed("join") == Some(Chains.Join)
    ensures Chains.MethodNamed("left_join") == Some(Chains.LeftJoin)
    ensures Chains.MethodNamed("group_by") == Some(Chains.GroupBy)
    ensures Chains.MethodNamed("agg") == Some(Chains.Agg)
  {
    assert |"filter"| == 6 && |"join"| == 4 && |"left_join"| == 9 && |"group_by"| == 8 && |"agg"| == 3;
  }

  lemma MoreMethodNames()
    ensures Chains.MethodNamed("select") == Some(Chains.Select)
    ensures Chains.MethodNamed("generate") == Some(Chains.Generate)
    ensures Chains.MethodNamed("with_window_column") == Some(Chains.WithWindowColumn)
    ensures Chains.MethodNamed("order_by") == Some(Chains.OrderBy)
    ensures Chains.MethodNamed("limit") == Some(Chains.Limit)
  {
    assert "select"[0] == 's' && "generate"[0] == 'g' && "generate"[1] == 'e' && "order_by"[0] == 'o';
    assert |"with_window_column"| == 18 && |"limit"| == 5;
  }

  lemma MethodMeaning(eng: Engine, host: Host, receiver: Expr, name: string, m: Chains.Method, args: seq<Expr>)
    requires Chains.MethodNamed(name) == Some(m) && !m.Join? && !m.LeftJoin?
    ensures Chains.CarrierOf(eng, host, Chain(receiver, [Invocation(name, args)]))
         == Chains.Called(eng, host, Chains.CarrierOf(eng, host, receiver), m, args)
  {
    ChainOne(receiver, Invocation(name, args));
  }

  lemma JoinMeaning(
      eng: Engine, host: Host, receiver: Expr, outer: bool, source: string, on: Expr, relation: string)
    ensures Chains.CarrierOf(eng, host,
              Chain(receiver, [Invocation(if outer then "left_join" else "join", [Name(source), on, Str(relation)])]))
         == Chains.JoinCarrier(eng, Chains.CarrierOf(eng, host, receiver), host.relation(Name(source)), on, relation, outer)
  {
    ChainOne(receiver, Invocation(if outer then "left_join" else "join", [Name(source), on, Str(relation)]));
    MethodNames();
  }

  // ----- one clause -----

  lemma SelectPreserved(eng: Engine, host: Host, receiver: Expr, items: seq<Item>, distinct: bool)
    requires SelectCalls(items, distinct).Ok? && items != []
    requires distinct ==> Distinct(ItemNames(items))
    requires var c := Chains.CarrierOf(eng, host, receiver);
             AnyAggregate(items) ==> AggregatesApart(KeyNames(c), items)
    ensures var c := Chains.CarrierOf(eng, host, receiver);
            var r := Chains.CarrierOf(eng, host, Chain(receiver, SelectCalls(items, distinct).value));
            if distinct then Flat(r) == Selection(eng, c, items, true) else r == Ordinary(Selection(eng, c, items, false))
  {
    HeadPreserved(eng, host, receiver, items);
    if distinct {
      DistinctCalls(eng, host, receiver, items);
      DistinctPreserved(eng, Projection(eng, Chains.CarrierOf(eng, host, receiver), items), items);
    }
  }

  /** SELECT DISTINCT groups the projected rows by all output columns. */
  lemma DistinctCalls(eng: Engine, host: Host, receiver: Expr, items: seq<Item>)
    requires SelectCalls(items, true).Ok?
    ensures Chains.CarrierOf(eng, host, Chain(receiver, SelectCalls(items, true).value))
         == Chains.Called(eng, host, Chains.CarrierOf(eng, host, Chain(receiver, SelectCalls(items, false).value)),
                          Chains.GroupBy, [ListOf(SelectOutputColumns(items).value)])
  {
    var head := SelectCalls(items, false).value;
    var last := Invocation("group_by", [ListOf(SelectOutputColumns(items).value)]);
    MethodNames();
    ChainAppend(receiver, head, [last]);
    MethodMeaning(eng, host, Chain(receiver, head), "group_by", Chains.GroupBy, last.args);
  }

  lemma HeadPreserved(eng: Engine, host: Host, receiver: Expr, items: seq<Item>)
    requires SelectCalls(items, false).Ok? && items != []
    requires var c := Chains.CarrierOf(eng, host, receiver);
             AnyAggregate(items) ==> AggregatesApart(KeyNames(c), items)
    ensures Chains.CarrierOf(eng, host, Chain(receiver, SelectCalls(items, false).value))
         == Ordinary(Projection(eng, Chains.CarrierOf(eng, host, receiver), items))
  {
    var c := Chains.CarrierOf(eng, host, receiver);
    if AnyAggregate(items) {
      var lowered := LowerAggregateItems(items).value;
      AggSelectMeaning(eng, host, receiver, lowered.0, lowered.1);
      AggregateProjectionPreserved(eng, c, items);
    } else {
      MoreMethodNames();
      MethodMeaning(eng, host, receiver, "select", Chains.Select, [ListOf(LowerPlainItems(items).value)]);
      PlainProjectionPreserved(eng, c, items);
    }
  }

  lemma AggSelectMeaning(eng: Engine, host: Host, receiver: Expr, measures: seq<Expr>, assignments: seq<Expr>)
    ensures var calls := [Invocation("agg", [ListOf(measures)]), Invocation("select", [ListOf(assignments)])];
            var c := Chains.CarrierOf(eng, host, receiver);
            Chains.CarrierOf(eng, host, Chain(receiver, calls))
              == Chains.SelectCarrier(eng, Chains.AggCarrier(eng, c, measures), assignments)
  {
    var agg, sel := Invocation("agg", [ListOf(measures)]), Invocation("select", [ListOf(assignments)]);
    MethodNames();
    MoreMethodNames();
    assert [agg, sel] == [agg] + [sel];
    ChainAppend(receiver, [agg], [sel]);
    MethodMeaning(eng, host, receiver, "agg", Chains.Agg, agg.args);
    MethodMeaning(eng, host, Chain(receiver, [agg]), "select", Chains.Select, sel.args);
  }

  lemma {:induction false} WindowPreserved(eng: Engine, host: Host, receiver: Expr, fields: seq<FieldSpec>)
    requires WindowCalls(fields).Ok?
    ensures var c := Chains.CarrierOf(eng, host, receiver);
            var r := Chains.CarrierOf(eng, host, Chain(receiver, WindowCalls(fields).value));
            && Flat(r) == WindowMeaning(eng, Flat(c), fields)
            && (if fields == [] then r == c else r.Ordinary?)
    decreases |fields|
  {
    if fields != [] {
      var n := |fields| - 1;
      var front := WindowCalls(fields[..n]).value;
      var e := fields[n].defaultValue.value;
      var args := [Str(fields[n].name), LowerColumn(e).value];
      WindowPreserved(eng, host, receiver, fields[..n]);
      ChainAppend(receiver, front, [Invocation("with_window_column", args)]);
      MoreMethodNames();
      MethodMeaning(eng, host, Chain(receiver, front), "with_window_column", Chains.WithWindowColumn, args);
      OneRowPreserved(eng, Flat(Chains.CarrierOf(eng, host, Chain(receiver, front))), e);
    }
  }

  /** What the proof keeps at every clause. */
  predicate StepKept(eng: Engine, host: Host, s: Carrier, receiver: Expr, g: Grouping, step: Step)
    requires Expand(step).Ok?
  {
    Alike(StepMeaning(eng, host, s, step), Chains.CarrierOf(eng, host, Chain(receiver, Expand(step).value)),
          NextGrouping(g, step))
  }

  lemma JoinKept(eng: Engine, host: Host, s: Carrier, receiver: Expr, g: Grouping, step: Step)
    requires step.JoinOn? && Expand(step).Ok? && Alike(s, Chains.CarrierOf(eng, host, receiver), g)
    ensures StepKept(eng, host, s, receiver, g, step)
  {
    var join, on := step.join, step.on;
    var source, e := join.body.expr, on.body.expr;
    var right := Flat(host.relation(source));
    KeywordRead(join);
    var outer := KeywordOf(join) == LeftJoin;
    JoinMeaning(eng, host, receiver, outer, source.name, LowerColumn(e).value, source.name);
    HitsPreserved(eng, Flat(s).names + Plans.Qualify(right.names, source.name), Flat(s).table, right.table, e);
  }

  lemma WhereKept(eng: Engine, host: Host, s: Carrier, receiver: Expr, g: Grouping, c: Clause)
    requires KeywordOf(c) == Where && Expand(Single(c)).Ok? && Alike(s, Chains.CarrierOf(eng, host, receiver), g)
    ensures StepKept(eng, host, s, receiver, g, Single(c))
  {
    KeywordRead(c);
    MethodNames();
    MethodMeaning(eng, host, receiver, "filter", Chains.Filter, [LowerColumn(c.body.expr).value]);
    ColumnPreserved(eng, Flat(s), c.body.expr);
  }

  lemma ListLowers(c: Clause)
    requires LowerExpressionList(c).Ok?
    ensures LowerExpressionList(c) == LowerColumns(Exprs(c))
  {
    if c.body.ExpressionBody? {
      assert [c.body.expr][1..] == [];
      assert LowerColumns([c.body.expr][1..]) == Ok([]);
      assert [LowerColumn(c.body.expr).value] + [] == [LowerColumn(c.body.expr).value];
    }
  }

  lemma GroupByKept(eng: Engine, host: Host, s: Carrier, receiver: Expr, g: Grouping, c: Clause)
    requires KeywordOf(c) == GroupBy && Expand(Single(c)).Ok? && Alike(s, Chains.CarrierOf(eng, host, receiver), g)
    ensures StepKept(eng, host, s, receiver, g, Single(c))
  {
    KeywordRead(c);
    MethodNames();
    ListLowers(c);
    MethodMeaning(eng, host, receiver, "group_by", Chains.GroupBy, [ListOf(LowerExpressionList(c).value)]);
    ColumnsPreservedOn(eng, Flat(s), Exprs(c));
    KeyNamesPreserved(Exprs(c));
  }

  lemma OrderByMeans(eng: Engine, host: Host, s: Carrier, g: Grouping, c: Clause)
    requires KeywordOf(c) == OrderBy
    ensures StepMeaning(eng, host, s, Single(c)) == Ordinary(OrderedBy(eng, Flat(s), SurfaceRows(eng, Flat(s), Exprs(c))))
    ensures NextGrouping(g, Single(c)) == Plain
  {
    KeywordRead(c);
  }

  lemma OrderByKept(eng: Engine, host: Host, s: Carrier, receiver: Expr, g: Grouping, c: Clause)
    requires KeywordOf(c) == OrderBy && Expand(Single(c)).Ok? && Alike(s, Chains.CarrierOf(eng, host, receiver), g)
    ensures StepKept(eng, host, s, receiver, g, Single(c))
  {
    OrderByMeans(eng, host, s, g, c);
    MoreMethodNames();
    ListLowers(c);
    MethodMeaning(eng, host, receiver, "order_by", Chains.OrderBy, [ListOf(LowerExpressionList(c).value)]);
    RowsPreserved(eng, Flat(s), Exprs(c));
  }

  lemma ExplodeKept(eng: Engine, host: Host, s: Carrier, receiver: Expr, g: Grouping, c: Clause)
    requires KeywordOf(c) == Explode && Expand(Single(c)).Ok? && Alike(s, Chains.CarrierOf(eng, host, receiver), g)
    ensures StepKept(eng, host, s, receiver, g, Single(c))
  {
    KeywordRead(c);
    var item, g_ := c.body.items[0], LowerExplode(c).value;
    GenerateMeaning(eng, host, receiver, g_);
    OneRowPreserved(eng, Flat(s), item.expr);
    ExplodeGenerates(eng, Chains.CarrierOf(eng, host, receiver), LowerColumn(item.expr).value, item.alias.value);
  }

  lemma GenerateMeaning(eng: Engine, host: Host, receiver: Expr, g: Expr)
    ensures Chains.CarrierOf(eng, host, Chain(receiver, [Invocation("generate", [g])]))
         == Chains.GenerateCarrier(eng, Chains.CarrierOf(eng, host, receiver), g)
  {
    MoreMethodNames();
    MethodMeaning(eng, host, receiver, "generate", Chains.Generate, [g]);
  }

  lemma ExplodeGenerates(eng: Engine, c: Carrier, e: Expr, name: string)
    ensures Chains.GenerateCarrier(eng, c, HelperCall("explode", [e, Str(name)]))
         == Ordinary(Exploded(eng, Flat(c), name, Chains.LoweredRows(eng, Flat(c), [e])))
  {
  }

  lemma LimitMeans(eng: Engine, host: Host, s: Carrier, g: Grouping, c: Clause)
    requires KeywordOf(c) == Limit && c.body.ExpressionBody?
    ensures StepMeaning(eng, host, s, Single(c)) == Ordinary(Limited(Flat(s), host.number(c.body.expr)))
    ensures NextGrouping(g, Single(c)) == Plain
  {
    KeywordRead(c);
  }

  lemma LimitKept(eng: Engine, host: Host, s: Carrier, receiver: Expr, g: Grouping, c: Clause)
    requires KeywordOf(c) == Limit && Expand(Single(c)).Ok? && Alike(s, Chains.CarrierOf(eng, host, receiver), g)
    ensures StepKept(eng, host, s, receiver, g, Single(c))
  {
    LimitMeans(eng, host, s, g, c);
    MoreMethodNames();
    MethodMeaning(eng, host, receiver, "limit", Chains.Limit, [c.body.expr]);
    KeptWhen(eng, host, receiver, g, Single(c), s, [Invocation("limit", [c.body.expr])], Plain);
  }

  lemma WindowByKept(eng: Engine, host: Host, s: Carrier, receiver: Expr, g: Grouping, c: Clause)
    requires KeywordOf(c) == WindowBy && Expand(Single(c)).Ok? && Alike(s, Chains.CarrierOf(eng, host, receiver), g)
    ensures StepKept(eng, host, s, receiver, g, Single(c))
  {
    WindowByMeans(eng, host, s, g, c);
    WindowPreserved(eng, host, receiver, c.body.fields);
    KeptWhen(eng, host, receiver, g, Single(c), s, WindowCalls(c.body.fields).value,
             if c.body.fields == [] then g else Plain);
  }

  lemma WindowByMeans(eng: Engine, host: Host, s: Carrier, g: Grouping, c: Clause)
    requires KeywordOf(c) == WindowBy && c.body.FieldsBody?
    ensures StepMeaning(eng, host, s, Single(c))
         == if c.body.fields == [] then s else Ordinary(WindowMeaning(eng, Flat(s), c.body.fields))
    ensures NextGrouping(g, Single(c)) == if c.body.fields == [] then g else Plain
  {
    KeywordRead(c);
  }

  lemma SelectKept(eng: Engine, host: Host, s: Carrier, receiver: Expr, g: Grouping, c: Clause)
    requires Selects(KeywordOf(c)) && Expand(Single(c)).Ok? && FaithfulStep(g, Single(c))
    requires Alike(s, Chains.CarrierOf(eng, host, receiver), g)
    ensures StepKept(eng, host, s, receiver, g, Single(c))
  {
    KeywordRead(c);
    var items, distinct := Selected(c).0, Selected(c).1;
    assert SelectStep(Single(c));
    SelectedCalls(c);
    SelectionKept(eng, host, s, receiver, g, items, distinct);
    SelectMeaning(eng, host, s, g, c);
  }

  lemma SelectMeaning(eng: Engine, host: Host, s: Carrier, g: Grouping, c: Clause)
    requires Selects(KeywordOf(c)) && ClauseCalls(c).Ok?
    ensures StepMeaning(eng, host, s, Single(c)) == Ordinary(Selection(eng, s, Selected(c).0, Selected(c).1))
    ensures NextGrouping(g, Single(c)) == if Selected(c).1 then ByDistinct else Plain
  {
    KeywordRead(c);
  }

  lemma SelectionKept(
      eng: Engine, host: Host, s: Carrier, receiver: Expr, g: Grouping, items: seq<Item>, distinct: bool)
    requires SelectCalls(items, distinct).Ok? && items != [] && (distinct ==> Distinct(ItemNames(items)))
    requires AnyAggregate(items) ==> !g.ByDistinct? && AggregatesApart(if g.ByKeys? then g.names else [], items)
    requires Alike(s, Chains.CarrierOf(eng, host, receiver), g)
    ensures Alike(Ordinary(Selection(eng, s, items, distinct)),
                  Chains.CarrierOf(eng, host, Chain(receiver, SelectCalls(items, distinct).value)),
                  if distinct then ByDistinct else Plain)
  {
    SelectPreserved(eng, host, receiver, items, distinct);
    SameProjection(eng, s, Chains.CarrierOf(eng, host, receiver), g, items);
  }

  lemma SelectedCalls(c: Clause)
    requires Selects(KeywordOf(c)) && ClauseCalls(c).Ok?
    ensures ClauseCalls(c) == SelectCalls(Selected(c).0, Selected(c).1)
  {
    KeywordRead(c);
  }

  /** Carriers that are alike project alike, unless an aggregate list follows a DISTINCT. */
  lemma SameProjection(eng: Engine, s: Carrier, t: Carrier, g: Grouping, items: seq<Item>)
    requires Alike(s, t, g) && (AnyAggregate(items) ==> !g.ByDistinct?)
    ensures Projection(eng, s, items) == Projection(eng, t, items)
  {
    if !AnyAggregate(items) {
      PlainIgnoresGrouping(eng, s, t, Flat(s), items);
    }
  }

  /** A list without aggregates only reads the visible rows. */
  lemma {:induction false} PlainIgnoresGrouping(eng: Engine, s: Carrier, t: Carrier, f: Frame, items: seq<Item>)
    requires !AnyAggregate(items)
    ensures Scope(eng, s, f, items) == Scope(eng, t, f, items)
    ensures Outputs(eng, s, f, items) == Outputs(eng, t, f, items)
    decreases |items|
  {
    if items != [] {
      PlainFront(items);
      PlainIgnoresGrouping(eng, s, t, f, items[..|items| - 1]);
    }
  }

  lemma StepPreserved(eng: Engine, host: Host, s: Carrier, receiver: Expr, g: Grouping, step: Step)
    requires Expand(step).Ok? && FaithfulStep(g, step) && Alike(s, Chains.CarrierOf(eng, host, receiver), g)
    ensures StepKept(eng, host, s, receiver, g, step)
  {
    if step.JoinOn? {
      JoinKept(eng, host, s, receiver, g, step);
    } else {
      ClauseKept(eng, host, s, receiver, g, step.clause);
    }
  }

  lemma KeptWhen(
      eng: Engine, host: Host, receiver: Expr, g: Grouping, step: Step, s: Carrier, calls: seq<Invocation>, next: Grouping)
    requires Expand(step) == Ok(calls) && NextGrouping(g, step) == next
    requires Alike(StepMeaning(eng, host, s, step), Chains.CarrierOf(eng, host, Chain(receiver, calls)), next)
    ensures StepKept(eng, host, s, receiver, g, step)
  {
  }

  /** Any other clause leaves the rows alone. */
  lemma IdleKept(eng: Engine, host: Host, s: Carrier, receiver: Expr, g: Grouping, c: Clause)
    requires KeywordOf(c) in {From, Join, LeftJoin, On, Unknown} && Alike(s, Chains.CarrierOf(eng, host, receiver), g)
    ensures Expand(Single(c)) == Ok([]) && StepKept(eng, host, s, receiver, g, Single(c))
  {
    IdleMeans(eng, host, s, g, c);
    assert Chain(receiver, []) == receiver;
    KeptWhen(eng, host, receiver, g, Single(c), s, [], g);
  }

  lemma IdleMeans(eng: Engine, host: Host, s: Carrier, g: Grouping, c: Clause)
    requires KeywordOf(c) in {From, Join, LeftJoin, On, Unknown}
    ensures StepMeaning(eng, host, s, Single(c)) == s
    ensures NextGrouping(g, Single(c)) == g
  {
    KeywordRead(c);
  }

  lemma ClauseKept(eng: Engine, host: Host, s: Carrier, receiver: Expr, g: Grouping, c: Clause)
    requires Expand(Single(c)).Ok? && FaithfulStep(g, Single(c)) && Alike(s, Chains.CarrierOf(eng, host, receiver), g)
    ensures StepKept(eng, host, s, receiver, g, Single(c))
  {
    match KeywordOf(c) {
      case Where => WhereKept(eng, host, s, receiver, g, c);
      case GroupBy => GroupByKept(eng, host, s, receiver, g, c);
      case Explode => ExplodeKept(eng, host, s, receiver, g, c);
      case WindowBy => WindowByKept(eng, host, s, receiver, g, c);
      case Select => SelectKept(eng, host, s, receiver, g, c);
      case SelectDistinct => SelectKept(eng, host, s, receiver, g, c);
      case OrderBy => OrderByKept(eng, host, s, receiver, g, c);
      case Limit => LimitKept(eng, host, s, receiver, g, c);
      case _ => IdleKept(eng, host, s, receiver, g, c);
    }
  }

  // ----- whole blocks -----

  lemma {:induction false} StepsPreserved(
      eng: Engine, host: Host, s: Carrier, receiver: Expr, g: Grouping, steps: seq<Step>)
    requires ExpandAll(steps).Ok? && Faithful(g, steps) && Alike(s, Chains.CarrierOf(eng, host, receiver), g)
    ensures Flat(Run(eng, host, s, steps))
         == Flat(Chains.CarrierOf(eng, host, Chain(receiver, ExpandAll(steps).value)))
    decreases |steps|
  {
    if steps != [] {
      var first, rest := Expand(steps[0]).value, ExpandAll(steps[1..]).value;
      StepPreserved(eng, host, s, receiver, g, steps[0]);
      StepsPreserved(eng, host, StepMeaning(eng, host, s, steps[0]), Chain(receiver, first),
                     NextGrouping(g, steps[0]), steps[1..]);
      ChainAppend(receiver, first, rest);
    }
  }

  /** A block that lowers has a FROM expression and parses into steps. */
  function SourceOf(body: seq<BodyItem>): Expr
    requires LowerQuery(body).Ok?
  {
    AcceptedExactly(body);
    FromClause(body).value.body.expr
  }

  function StepsOf(body: seq<BodyItem>): seq<Step>
    requires LowerQuery(body).Ok?
  {
    AcceptedExactly(body);
    Parse(Recognised(body)).value
  }

  /** Main result. Whatever block lowers, its chain and its clauses yield the same named table, on every database and
      for every engine. */
  lemma QueryPreserved(eng: Engine, host: Host, body: seq<BodyItem>)
    requires LowerQuery(body).Ok?
    requires Faithful(GroupingOf(Chains.CarrierOf(eng, host, SourceOf(body))), StepsOf(body))
    ensures Flat(Chains.CarrierOf(eng, host, LowerQuery(body).value))
         == Flat(Run(eng, host, Chains.CarrierOf(eng, host, SourceOf(body)), StepsOf(body)))
  {
    AcceptedExactly(body);
    var start := Chains.CarrierOf(eng, host, SourceOf(body));
    StepsPreserved(eng, host, start, SourceOf(body), GroupingOf(start), StepsOf(body));
  }
}
