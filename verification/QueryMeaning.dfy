/** What a query block means clause by clause, in its own terms: no helper name, carrier method or measure name occurs
    here. Column references, operators and aggregates are read as written. */
module QueryMeaning {
  import opened Names
  import opened Tables
  import opened Incan
  import opened Wrappers
  import opened Desugar
  import opened Queries
  import opened QueryShape
  import opened QueryValues
  import opened Carriers
  import Plans

  /** What the surrounding program supplies: relations by expression, and row limits. */
  datatype Host = Host(relation: Expr -> Carrier, number: Expr -> nat)

  // ----- expressions over a frame -----

  function SurfaceColumn(eng: Engine, f: Frame, e: Expr): (c: Column)
    ensures |c| == f.table.count
  {
    seq(f.table.count, j requires 0 <= j < f.table.count => Surface(eng, f.names, RowAt(f.table, j), e))
  }

  function SurfaceColumns(eng: Engine, f: Frame, es: seq<Expr>): (cs: seq<Column>)
    ensures |cs| == |es| && forall k :: 0 <= k < |cs| ==> |cs[k]| == f.table.count
  {
    seq(|es|, k requires 0 <= k < |es| => SurfaceColumn(eng, f, es[k]))
  }

  function SurfaceRows(eng: Engine, f: Frame, es: seq<Expr>): (rows: seq<Row>)
    ensures |rows| == f.table.count
  {
    seq(f.table.count, j requires 0 <= j < f.table.count => SurfaceAll(eng, f.names, RowAt(f.table, j), es))
  }

  function SurfaceHits(eng: Engine, names: seq<string>, l: Table, r: Table, on: Expr): (hits: seq<seq<bool>>)
    ensures |hits| == l.count && forall i :: 0 <= i < |hits| ==> |hits[i]| == r.count
  {
    seq(l.count, i requires 0 <= i < l.count =>
      seq(r.count, j requires 0 <= j < r.count => Holds(Surface(eng, names, RowAt(l, i) + RowAt(r, j), on))))
  }

  /** The column an expression is a direct reference to. */
  function SurfaceDirect(e: Expr): Option<string> {
    if IsColCall(e) then Some(ColCallName(e))
    else if e.Name? || e.CurrentField? || e.RelationField? || (e.ScopedSurface? && e.query && e.payload.LeadingDotPath?)
    then Some(DefaultScalarName(e))
    else None
  }

  function KeyName(e: Expr, k: nat): string {
    if SurfaceDirect(e).Some? then SurfaceDirect(e).value else "group_" + Plans.Digits(k)
  }

  function SurfaceKeyNames(es: seq<Expr>): (r: seq<string>)
    ensures |r| == |es|
  {
    seq(|es|, k requires 0 <= k < |es| => KeyName(es[k], k))
  }

  // ----- SELECT -----

  function AggregateSymbol(e: Expr): string
    requires IsAggregate(e)
  {
    if e.Call? then e.callee.name else e.symbol
  }

  /** The kind an aggregate helper computes, and whether over distinct arguments. */
  function MeasureKind(symbol: string): (string, bool) {
    if symbol == "count_distinct" then ("count", true) else (symbol, false)
  }

  function ItemName(item: Item): string {
    var name := if IsAggregate(item.expr) then AggregateItemName(item) else SelectItemName(item);
    if name.Ok? then name.value else ""
  }

  /** A plain item without an alias needs a path, and keeps the name of the column it reads. */
  lemma PlainNameExactly(item: Item)
    requires item.alias.None?
    ensures SelectItemName(item).Ok? <==> SurfaceDirect(item.expr).Some? && !IsColCall(item.expr)
    ensures SelectItemName(item).Ok? ==> SurfaceDirect(item.expr) == Some(SelectItemName(item).value)
  {
  }

  function ItemNames(items: seq<Item>): (r: seq<string>)
    ensures |r| == |items|
  {
    seq(|items|, k requires 0 <= k < |items| => ItemName(items[k]))
  }

  /** Aggregates are read over each group's source rows. */
  function AggregateColumn(eng: Engine, c: Carrier, e: Expr): (col: Column)
    requires IsAggregate(e)
    ensures |col| == |MembersOf(c)|
  {
    var (kind, distinct) := MeasureKind(AggregateSymbol(e));
    Aggregated(eng, c, kind, distinct, SurfaceRows(eng, Source(c), e.args))
  }

  predicate Fits(c: Carrier, f: Frame, items: seq<Item>) {
    AnyAggregate(items) ==> f.table.count == |MembersOf(c)|
  }

  lemma FitsFront(c: Carrier, f: Frame, items: seq<Item>)
    requires items != [] && Fits(c, f, items)
    ensures Fits(c, f, items[..|items| - 1])
    ensures IsAggregate(items[|items| - 1].expr) ==> f.table.count == |MembersOf(c)|
  {
    var front := items[..|items| - 1];
    if AnyAggregate(front) {
      var k :| 0 <= k < |front| && IsAggregate(front[k].expr);
      assert IsAggregate(items[k].expr);
    }
  }

  /** One item's column, given the columns bound so far. */
  function ItemColumn(eng: Engine, c: Carrier, f: Frame, item: Item): (col: Column)
    requires IsAggregate(item.expr) ==> f.table.count == |MembersOf(c)|
    ensures |col| == f.table.count
  {
    if IsAggregate(item.expr) then AggregateColumn(eng, c, item.expr) else SurfaceColumn(eng, f, item.expr)
  }

  /** The columns in scope after a list of items: each item's name is visible to the items behind it. */
  function Scope(eng: Engine, c: Carrier, f: Frame, items: seq<Item>): (s: Frame)
    requires Fits(c, f, items)
    ensures s.table.count == f.table.count
    decreases |items|
  {
    if items == [] then f
    else
      var n := |items| - 1;
      FitsFront(c, f, items);
      var s := Scope(eng, c, f, items[..n]);
      Bound(s, ItemName(items[n]), ItemColumn(eng, c, s, items[n]))
  }

  function Outputs(eng: Engine, c: Carrier, f: Frame, items: seq<Item>): (cols: seq<Column>)
    requires Fits(c, f, items)
    ensures |cols| == |items| && forall k :: 0 <= k < |cols| ==> |cols[k]| == f.table.count
    decreases |items|
  {
    if items == [] then []
    else
      var n := |items| - 1;
      FitsFront(c, f, items);
      Outputs(eng, c, f, items[..n]) + [ItemColumn(eng, c, Scope(eng, c, f, items[..n]), items[n])]
  }

  /** A SELECT list with an aggregate yields one row per group, any other one row per input row. */
  function Projection(eng: Engine, c: Carrier, items: seq<Item>): Frame {
    var f := if AnyAggregate(items) then Heads(c) else Flat(c);
    RawFrame(ItemNames(items), RawTable(f.table.count, Outputs(eng, c, f, items)))
  }

  function Selection(eng: Engine, c: Carrier, items: seq<Item>, distinct: bool): Frame {
    var p := Projection(eng, c, items);
    if distinct then RawFrame(p.names, Dedupe(p.table)) else p
  }

  // ----- clauses -----

  function Exprs(c: Clause): seq<Expr> {
    if c.body.ListBody? then ItemExprs(c.body.items) else if c.body.ExpressionBody? then [c.body.expr] else []
  }

  function WindowMeaning(eng: Engine, f: Frame, fields: seq<FieldSpec>): Frame {
    if fields == [] then f
    else
      var n := |fields| - 1;
      var w := WindowMeaning(eng, f, fields[..n]);
      if fields[n].defaultValue.None? then w
      else Windowed(eng, w, fields[n].name, SurfaceRows(eng, w, [fields[n].defaultValue.value]))
  }

  /** The items of a SELECT clause and whether it asks for distinct rows. */
  function Selected(c: Clause): (seq<Item>, bool) {
    if !c.body.ListBody? then ([], false)
    else if Words(c) == "SELECT DISTINCT" then (c.body.items, true)
    else if StripDistinct(c.body.items).Ok? then StripDistinct(c.body.items).value
    else ([], false)
  }

  /** What a clause asks for, by the words it opens with. */
  function ClauseMeaning(eng: Engine, host: Host, c: Carrier, clause: Clause): Carrier {
    var words := Words(clause);
    if words == "WHERE" then
      if !clause.body.ExpressionBody? then c
      else Ordinary(Filtered(Flat(c), SurfaceColumn(eng, Flat(c), clause.body.expr)))
    else if words == "GROUP BY" then
      Grouped(Flat(c), SurfaceKeyNames(Exprs(clause)), SurfaceColumns(eng, Flat(c), Exprs(clause)))
    else if words == "EXPLODE" then
      if !clause.body.ListBody? || |clause.body.items| != 1 || clause.body.items[0].alias.None? then c
      else
        var item := clause.body.items[0];
        Ordinary(Exploded(eng, Flat(c), item.alias.value, SurfaceRows(eng, Flat(c), [item.expr])))
    else if words == "WINDOW BY" then
      if !clause.body.FieldsBody? || clause.body.fields == [] then c
      else Ordinary(WindowMeaning(eng, Flat(c), clause.body.fields))
    else if words == "SELECT" || words == "SELECT DISTINCT" then
      Ordinary(Selection(eng, c, Selected(clause).0, Selected(clause).1))
    else if words == "ORDER BY" then
      Ordinary(OrderedBy(eng, Flat(c), SurfaceRows(eng, Flat(c), Exprs(clause))))
    else if words == "LIMIT" then
      if !clause.body.ExpressionBody? then c else Ordinary(Limited(Flat(c), host.number(clause.body.expr)))
    else c
  }

  function StepMeaning(eng: Engine, host: Host, c: Carrier, step: Step): Carrier {
    match step
    case Single(clause) => ClauseMeaning(eng, host, c, clause)
    case JoinOn(join, on) =>
      if !join.body.ExpressionBody? || !join.body.expr.Name? || !on.body.ExpressionBody? then c
      else
        var right := Flat(host.relation(join.body.expr));
        var names := Flat(c).names + Plans.Qualify(right.names, join.body.expr.name);
        var hits := SurfaceHits(eng, names, Flat(c).table, right.table, on.body.expr);
        Ordinary(Carriers.Joined(Flat(c), right, join.body.expr.name, hits, Words(join) == "LEFT JOIN"))
  }

  /** Running the clauses of a block one after the other. */
  function Run(eng: Engine, host: Host, c: Carrier, steps: seq<Step>): Carrier
    decreases |steps|
  {
    if steps == [] then c else Run(eng, host, StepMeaning(eng, host, c, steps[0]), steps[1..])
  }
}

/** What a chain of carrier method calls means. It reads only helper calls and literals. */
module ChainMeaning {
  import opened Names
  import opened Tables
  import opened Incan
  import opened Wrappers
  import opened QueryValues
  import opened Carriers
  import QueryMeaning
  import Plans

  function LoweredColumn(eng: Engine, f: Frame, e: Expr): (c: Column)
    ensures |c| == f.table.count
  {
    seq(f.table.count, j requires 0 <= j < f.table.count => Lowered(eng, f.names, RowAt(f.table, j), e))
  }

  function LoweredColumns(eng: Engine, f: Frame, es: seq<Expr>): (cs: seq<Column>)
    ensures |cs| == |es| && forall k :: 0 <= k < |cs| ==> |cs[k]| == f.table.count
  {
    seq(|es|, k requires 0 <= k < |es| => LoweredColumn(eng, f, es[k]))
  }

  function LoweredRows(eng: Engine, f: Frame, es: seq<Expr>): (rows: seq<Row>)
    ensures |rows| == f.table.count
  {
    seq(f.table.count, j requires 0 <= j < f.table.count => LoweredAll(eng, f.names, RowAt(f.table, j), es))
  }

  function LoweredHits(eng: Engine, names: seq<string>, l: Table, r: Table, on: Expr): (hits: seq<seq<bool>>)
    ensures |hits| == l.count && forall i :: 0 <= i < |hits| ==> |hits[i]| == r.count
  {
    seq(l.count, i requires 0 <= i < l.count =>
      seq(r.count, j requires 0 <= j < r.count => Holds(Lowered(eng, names, RowAt(l, i) + RowAt(r, j), on))))
  }

  function GroupColumnNames(es: seq<Expr>): (r: seq<string>)
    ensures |r| == |es|
  {
    seq(|es|, k requires 0 <= k < |es| =>
      if DirectColumn(es[k]).Some? then DirectColumn(es[k]).value else "group_" + Plans.Digits(k))
  }

  predicate IsHelperCall(e: Expr) {
    e.Call? && e.callee.Helper?
  }

  // ----- assignments -----

  predicate IsAssignment(e: Expr) {
    IsHelperCall(e) && e.callee.helper == "with_column_assignment" && |e.args| == 2 && e.args[0].Str?
  }

  function AssignedName(e: Expr): string {
    if IsAssignment(e) then e.args[0].text else ""
  }

  function AssignedColumn(eng: Engine, f: Frame, e: Expr): (c: Column)
    ensures |c| == f.table.count
  {
    if IsAssignment(e) then LoweredColumn(eng, f, e.args[1]) else seq(f.table.count, _ => Null)
  }

  function AssignedNames(es: seq<Expr>): (r: seq<string>)
    ensures |r| == |es|
  {
    seq(|es|, k requires 0 <= k < |es| => AssignedName(es[k]))
  }

  /** Each assignment sees the ones before it. */
  function Bindings(eng: Engine, f: Frame, es: seq<Expr>): (b: Frame)
    ensures b.table.count == f.table.count
    decreases |es|
  {
    if es == [] then f
    else
      var n := |es| - 1;
      var b := Bindings(eng, f, es[..n]);
      Bound(b, AssignedName(es[n]), AssignedColumn(eng, b, es[n]))
  }

  function Assigned(eng: Engine, f: Frame, es: seq<Expr>): (cols: seq<Column>)
    ensures |cols| == |es| && forall k :: 0 <= k < |cols| ==> |cols[k]| == f.table.count
    decreases |es|
  {
    if es == [] then []
    else
      var n := |es| - 1;
      Assigned(eng, f, es[..n]) + [AssignedColumn(eng, Bindings(eng, f, es[..n]), es[n])]
  }

  /** `select([])` keeps every column. */
  function SelectCarrier(eng: Engine, c: Carrier, es: seq<Expr>): Carrier {
    if es == [] then Ordinary(Flat(c))
    else Ordinary(RawFrame(AssignedNames(es), RawTable(Flat(c).table.count, Assigned(eng, Flat(c), es))))
  }

  // ----- measures -----

  predicate IsAliased(e: Expr) {
    IsHelperCall(e) && e.callee.helper == "aggregate_as" && |e.args| == 2 && e.args[1].Str?
  }

  function BareMeasure(e: Expr): Expr {
    if IsAliased(e) then e.args[0] else e
  }

  /** The measure's output column name, as the aggregate builders choose it. */
  function MeasureName(e: Expr): string {
    if IsAliased(e) then e.args[1].text
    else if IsHelperCall(e) then LibraryName(e.callee.helper, e.args)
    else ""
  }

  function MeasureColumn(eng: Engine, c: Carrier, e: Expr): (col: Column)
    ensures |col| == |MembersOf(c)|
  {
    var m := BareMeasure(e);
    if !IsHelperCall(m) then seq(|MembersOf(c)|, _ => Null)
    else
      var (kind, distinct) := QueryMeaning.MeasureKind(m.callee.helper);
      Aggregated(eng, c, kind, distinct, LoweredRows(eng, Source(c), m.args))
  }

  function MeasureNames(ms: seq<Expr>): (r: seq<string>)
    ensures |r| == |ms|
  {
    seq(|ms|, k requires 0 <= k < |ms| => MeasureName(ms[k]))
  }

  function MeasureColumns(eng: Engine, c: Carrier, ms: seq<Expr>): (cols: seq<Column>)
    ensures |cols| == |ms| && forall k :: 0 <= k < |cols| ==> |cols[k]| == |MembersOf(c)|
  {
    seq(|ms|, k requires 0 <= k < |ms| => MeasureColumn(eng, c, ms[k]))
  }

  /** Key columns, then measures. */
  function AggCarrier(eng: Engine, c: Carrier, ms: seq<Expr>): Carrier {
    Ordinary(RawFrame(KeyNames(c) + MeasureNames(ms), WithColumns(Heads(c).table, MeasureColumns(eng, c, ms))))
  }

  // ----- methods -----

  datatype Method =
    | Filter | Join | LeftJoin | GroupBy | Agg | Select | Generate | WithWindowColumn | OrderBy | Limit

  function MethodNamed(name: string): Option<Method> {
    if name == "filter" then Some(Filter)
    else if name == "join" then Some(Join)
    else if name == "left_join" then Some(LeftJoin)
    else if name == "group_by" then Some(GroupBy)
    else if name == "agg" then Some(Agg)
    else if name == "select" then Some(Select)
    else if name == "generate" then Some(Generate)
    else if name == "with_window_column" then Some(WithWindowColumn)
    else if name == "order_by" then Some(OrderBy)
    else if name == "limit" then Some(Limit)
    else None
  }

  predicate IsMethodCall(e: Expr) {
    e.Call? && e.callee.Field? && MethodNamed(e.callee.field).Some?
  }

  /** A carrier method applied to its receiver; a call of the wrong shape leaves the receiver alone. */
  function Called(eng: Engine, host: QueryMeaning.Host, c: Carrier, m: Method, args: seq<Expr>): Carrier
    requires !m.Join? && !m.LeftJoin?
  {
    if m.Filter? && |args| == 1 then Ordinary(Filtered(Flat(c), LoweredColumn(eng, Flat(c), args[0])))
    else if m.GroupBy? && |args| == 1 && args[0].ListOf? then
      Grouped(Flat(c), GroupColumnNames(args[0].items), LoweredColumns(eng, Flat(c), args[0].items))
    else if m.Agg? && |args| == 1 && args[0].ListOf? then AggCarrier(eng, c, args[0].items)
    else if m.Select? && |args| == 1 && args[0].ListOf? then SelectCarrier(eng, c, args[0].items)
    else if m.Generate? && |args| == 1 then GenerateCarrier(eng, c, args[0])
    else if m.WithWindowColumn? && |args| == 2 && args[0].Str? then
      Ordinary(Windowed(eng, Flat(c), args[0].text, LoweredRows(eng, Flat(c), [args[1]])))
    else if m.OrderBy? && |args| == 1 && args[0].ListOf? then
      Ordinary(OrderedBy(eng, Flat(c), LoweredRows(eng, Flat(c), args[0].items)))
    else if m.Limit? && |args| == 1 then Ordinary(Limited(Flat(c), host.number(args[0])))
    else c
  }

  function GenerateCarrier(eng: Engine, c: Carrier, g: Expr): Carrier {
    if IsHelperCall(g) && g.callee.helper == "explode" && |g.args| == 2 && g.args[1].Str? then
      Ordinary(Exploded(eng, Flat(c), g.args[1].text, LoweredRows(eng, Flat(c), [g.args[0]])))
    else c
  }

  function JoinCarrier(
      eng: Engine, c: Carrier, right: Carrier, on: Expr, relation: string, outer: bool): Carrier
  {
    var names := Flat(c).names + Plans.Qualify(Flat(right).names, relation);
    var hits := LoweredHits(eng, names, Flat(c).table, Flat(right).table, on);
    Ordinary(Carriers.Joined(Flat(c), Flat(right), relation, hits, outer))
  }

  /** The carrier an expression denotes: carrier methods are applied, anything else is the host's. */
  function CarrierOf(eng: Engine, host: QueryMeaning.Host, e: Expr): Carrier
    decreases e
  {
    if !IsMethodCall(e) then host.relation(e)
    else
      var c := CarrierOf(eng, host, e.callee.object_);
      var m := MethodNamed(e.callee.field).value;
      if !m.Join? && !m.LeftJoin? then Called(eng, host, c, m, e.args)
      else if |e.args| == 3 && e.args[2].Str? then
        JoinCarrier(eng, c, CarrierOf(eng, host, e.args[0]), e.args[1], e.args[2].text, m.LeftJoin?)
      else c
  }
}
