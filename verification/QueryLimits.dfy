/** Where the chain leaves the written meaning: for every condition in `Faithful`, exactly what happens without it, and
    an input. */
module QueryLimits {
  import opened Names
  import opened Tables
  import opened Incan
  import opened Wrappers
  import opened Desugar
  import opened Queries
  import opened QueryShape
  import opened QueryValues
  import opened QueryMeaning
  import opened Carriers
  import opened SelectCorrect
  import opened QueryCorrect
  import Chains = ChainMeaning

  // ----- one SELECT list -----

  /** A SELECT list without DISTINCT means what it says exactly when: an empty list meets no columns, and in a list with
      aggregates no item is disturbed by the measures in view. */
  lemma SelectExactly(eng: Engine, host: Host, receiver: Expr, items: seq<Item>)
    requires SelectCalls(items, false).Ok?
    ensures var c := Chains.CarrierOf(eng, host, receiver);
            Chains.CarrierOf(eng, host, Chain(receiver, SelectCalls(items, false).value))
              == Ordinary(Selection(eng, c, items, false))
            <==> (items == [] ==> Flat(c).names == [])
                 && (AnyAggregate(items) ==> NoneDisturbed(eng, c, items, |items|))
  {
    var c := Chains.CarrierOf(eng, host, receiver);
    if AnyAggregate(items) {
      var lowered := LowerAggregateItems(items).value;
      AggSelectMeaning(eng, host, receiver, lowered.0, lowered.1);
      AggregateProjectionExactly(eng, c, items);
    } else {
      MoreMethodNames();
      MethodMeaning(eng, host, receiver, "select", Chains.Select, [ListOf(LowerPlainItems(items).value)]);
      if items == [] {
        EmptyProjection(eng, c);
      } else {
        PlainProjectionPreserved(eng, c, items);
      }
    }
  }

  /** `select([])` keeps every column; the written empty list asks for none. */
  lemma EmptyProjection(eng: Engine, c: Carrier)
    ensures Chains.SelectCarrier(eng, c, []) == Ordinary(Projection(eng, c, [])) <==> Flat(c).names == []
  {
    assert Projection(eng, c, []) == RawFrame([], RawTable(Flat(c).table.count, []));
    if Flat(c).names == [] {
      assert Flat(c).table == RawTable(Flat(c).table.count, []);
    }
  }

  /** An aggregate under the name of a group key or of an earlier item is undisturbed exactly when the column it is
      looked up as happens to be its own. */
  lemma CapturedExactly(eng: Engine, c: Carrier, items: seq<Item>, k: nat)
    requires LowerAggregateItems(items).Ok? && k < |items| && IsAggregate(items[k].expr)
    requires ItemName(items[k]) in KeyNames(c) || exists p :: 0 <= p < k && ItemName(items[p]) == ItemName(items[k])
    ensures Undisturbed(eng, c, items, k)
        <==> ColumnOf(Scope(eng, c, Heads(c), items[..k]), ItemName(items[k])) == AggregateColumn(eng, c, items[k].expr)
  {
    ScopeNames(eng, c, items, k, ItemName(items[k]));
    BehindColumn(eng, c, Scope(eng, c, Heads(c), items[..k]), LowerAggregateItems(items).value.0, ItemName(items[k]));
  }

  /** An aggregate the layers name differently, under a name nothing else has, is undisturbed exactly when it is null in
      every group. */
  lemma MisnamedExactly(eng: Engine, c: Carrier, items: seq<Item>, k: nat)
    requires LowerAggregateItems(items).Ok? && k < |items| && IsAggregate(items[k].expr)
    requires ItemName(items[k]) !in KeyNames(c) && forall p :: 0 <= p < k ==> ItemName(items[p]) != ItemName(items[k])
    requires ItemName(items[k]) !in Chains.MeasureNames(LowerAggregateItems(items).value.0)
    ensures Undisturbed(eng, c, items, k)
        <==> AggregateColumn(eng, c, items[k].expr) == seq(|MembersOf(c)|, _ => Null)
  {
    var s, name := Scope(eng, c, Heads(c), items[..k]), ItemName(items[k]);
    ScopeNames(eng, c, items, k, name);
    BehindColumn(eng, c, s, LowerAggregateItems(items).value.0, name);
    assert name !in s.names;
    assert ColumnOf(s, name) == seq(|MembersOf(c)|, _ => Null);
  }

  /** A reference to an aggregate that is still to come is undisturbed exactly when the measure under that name is null
      in every group. */
  lemma MentionedExactly(eng: Engine, c: Carrier, items: seq<Item>, k: nat, name: string)
    requires LowerAggregateItems(items).Ok? && k < |items| && items[k].expr == CurrentField(name)
    requires name !in KeyNames(c) && forall p :: 0 <= p < k ==> ItemName(items[p]) != name
    requires name in Chains.MeasureNames(LowerAggregateItems(items).value.0)
    ensures var ms := LowerAggregateItems(items).value.0;
            Undisturbed(eng, c, items, k)
            <==> Chains.MeasureColumns(eng, c, ms)[FirstIndex(Chains.MeasureNames(ms), name)]
                   == seq(|MembersOf(c)|, _ => Null)
  {
    var s, ms := Scope(eng, c, Heads(c), items[..k]), LowerAggregateItems(items).value.0;
    ScopeNames(eng, c, items, k, name);
    BehindColumn(eng, c, s, ms, name);
    FieldColumn(eng, s, name);
    FieldColumn(eng, WithMeasures(eng, c, s, ms), name);
  }

  lemma FieldColumn(eng: Engine, f: Frame, name: string)
    ensures SurfaceColumn(eng, f, CurrentField(name)) == ColumnOf(f, name)
  {
    forall j | 0 <= j < f.table.count
      ensures Surface(eng, f.names, RowAt(f.table, j), CurrentField(name)) == ColumnOf(f, name)[j]
    {
    }
  }

  // ----- a SELECT behind a SELECT DISTINCT -----

  /** The two clauses one after the other, and the chain they lower to. */
  function BothMeaning(eng: Engine, c: Carrier, items: seq<Item>, later: seq<Item>): Frame {
    Selection(eng, Ordinary(Selection(eng, c, items, true)), later, false)
  }

  function BothCalls(items: seq<Item>, later: seq<Item>): seq<Invocation>
    requires SelectCalls(items, true).Ok? && SelectCalls(later, false).Ok?
  {
    SelectCalls(items, true).value + SelectCalls(later, false).value
  }

  /** The carrier behind SELECT DISTINCT is still grouped. */
  lemma DistinctGroups(eng: Engine, host: Host, receiver: Expr, items: seq<Item>)
    requires SelectCalls(items, true).Ok?
    ensures Chains.CarrierOf(eng, host, Chain(receiver, SelectCalls(items, true).value)).Grouped?
  {
    var head, es := SelectCalls(items, false).value, SelectOutputColumns(items).value;
    ChainAppend(receiver, head, [Invocation("group_by", [ListOf(es)])]);
    MethodNames();
    MethodMeaning(eng, host, Chain(receiver, head), "group_by", Chains.GroupBy, [ListOf(es)]);
  }

  /** A list without aggregates reads the distinct rows. */
  lemma PlainAfterDistinct(eng: Engine, host: Host, receiver: Expr, items: seq<Item>, later: seq<Item>)
    requires SelectCalls(items, true).Ok? && items != [] && Distinct(ItemNames(items))
    requires SelectCalls(later, false).Ok? && later != [] && !AnyAggregate(later)
    requires var c := Chains.CarrierOf(eng, host, receiver);
             AnyAggregate(items) ==> AggregatesApart(KeyNames(c), items)
    ensures Flat(Chains.CarrierOf(eng, host, Chain(receiver, BothCalls(items, later))))
         == BothMeaning(eng, Chains.CarrierOf(eng, host, receiver), items, later)
  {
    var c, between := Chains.CarrierOf(eng, host, receiver), Chain(receiver, SelectCalls(items, true).value);
    ChainAppend(receiver, SelectCalls(items, true).value, SelectCalls(later, false).value);
    SelectPreserved(eng, host, receiver, items, true);
    SelectPreserved(eng, host, between, later, false);
    PlainIgnoresGrouping(eng, Chains.CarrierOf(eng, host, between), Ordinary(Selection(eng, c, items, true)),
                         Selection(eng, c, items, true), later);
  }

  /** A list with aggregates still sees the grouping that removed the duplicates: the chain yields one row per distinct
      row, the clauses yield one row in all. The counts agree exactly when one distinct row is left. */
  lemma AggregateAfterDistinct(eng: Engine, host: Host, receiver: Expr, items: seq<Item>, later: seq<Item>)
    requires SelectCalls(items, true).Ok? && items != [] && Distinct(ItemNames(items))
    requires SelectCalls(later, false).Ok? && AnyAggregate(later)
    requires var c := Chains.CarrierOf(eng, host, receiver);
             AnyAggregate(items) ==> AggregatesApart(KeyNames(c), items)
    ensures var c := Chains.CarrierOf(eng, host, receiver);
            var chained := Flat(Chains.CarrierOf(eng, host, Chain(receiver, BothCalls(items, later))));
            var distinct := Selection(eng, c, items, true);
            && chained.table.count == distinct.table.count
            && BothMeaning(eng, c, items, later).table.count == 1
            && (chained.table.count == BothMeaning(eng, c, items, later).table.count <==> distinct.table.count == 1)
  {
    var c, between := Chains.CarrierOf(eng, host, receiver), Chain(receiver, SelectCalls(items, true).value);
    var lowered := LowerAggregateItems(later).value;
    ChainAppend(receiver, SelectCalls(items, true).value, SelectCalls(later, false).value);
    SelectPreserved(eng, host, receiver, items, true);
    DistinctGroups(eng, host, receiver, items);
    AggSelectMeaning(eng, host, between, lowered.0, lowered.1);
    ChainProjection(eng, Chains.CarrierOf(eng, host, between), later);
  }

  /** Chain and clauses agree on every database and backend. */
  ghost predicate AlwaysBoth(receiver: Expr, items: seq<Item>, later: seq<Item>)
    requires SelectCalls(items, true).Ok? && SelectCalls(later, false).Ok?
  {
    forall eng: Engine, host: Host :: BothAgree(eng, host, receiver, items, later)
  }

  predicate BothAgree(eng: Engine, host: Host, receiver: Expr, items: seq<Item>, later: seq<Item>)
    requires SelectCalls(items, true).Ok? && SelectCalls(later, false).Ok?
  {
    Flat(Chains.CarrierOf(eng, host, Chain(receiver, BothCalls(items, later))))
      == BothMeaning(eng, Chains.CarrierOf(eng, host, receiver), items, later)
  }

  /** Behind a plain SELECT DISTINCT over a relation, a list means what it says everywhere exactly when it has no
      aggregate. */
  lemma AfterDistinctExactly(receiver: Expr, items: seq<Item>, later: seq<Item>)
    requires !Chains.IsMethodCall(receiver) && SelectCalls(items, true).Ok? && SelectCalls(later, false).Ok?
    requires items != [] && later != [] && Distinct(ItemNames(items)) && !AnyAggregate(items)
    ensures AlwaysBoth(receiver, items, later) <==> !AnyAggregate(later)
  {
    if AnyAggregate(later) {
      NoRowsDiffer(receiver, items, later);
    } else {
      forall eng: Engine, host: Host ensures BothAgree(eng, host, receiver, items, later) {
        PlainAfterDistinct(eng, host, receiver, items, later);
      }
    }
  }

  /** Every relation is empty. */
  function Nothing(): Host {
    Host((e: Expr) => Ordinary(RawFrame([], RawTable(0, []))), (e: Expr) => 0)
  }

  lemma NoRowsDiffer(receiver: Expr, items: seq<Item>, later: seq<Item>)
    requires !Chains.IsMethodCall(receiver) && SelectCalls(items, true).Ok? && SelectCalls(later, false).Ok?
    requires items != [] && Distinct(ItemNames(items)) && !AnyAggregate(items) && AnyAggregate(later)
    ensures !BothAgree(Counting(), Nothing(), receiver, items, later)
  {
    AggregateAfterDistinct(Counting(), Nothing(), receiver, items, later);
    var c := Chains.CarrierOf(Counting(), Nothing(), receiver);
    assert Flat(c).table.count == 0;
    assert Projection(Counting(), c, items).table.count == 0;
    assert Dedupe(Projection(Counting(), c, items).table).count == 0;
  }

  // ----- every backend, every database -----

  /** Numbers add up whatever is applied to them, and every aggregate is one. */
  function Summing(): Engine {
    Engine(
      (name: string, options: seq<(string, string)>, args: Row) => IntValue(Total(args)),
      (name: string, distinct: bool, args: seq<Row>, ordering: seq<Row>) => IntValue(1),
      (name: string, n: nat, args: Row) => [],
      (shape: WindowShape, rows: seq<Row>, j: nat) => Null,
      (keys: seq<Row>) => [])
  }

  function Amount(v: Value): int {
    if v.IntValue? then v.i else 0
  }

  function Total(row: Row): int {
    if row == [] then 0 else Amount(row[0]) + Total(row[1..])
  }

  /** A row in which every mentioned column amounts to at least as much. */
  ghost predicate Grows(names1: seq<string>, row1: Row, names2: seq<string>, row2: Row) {
    forall x :: Amount(Column_(names1, row1, x)) <= Amount(Column_(names2, row2, x))
  }

  lemma HelperSums(helper: string, args: Row)
    ensures Amount(HelperValue(Summing(), helper, args)) == Total(args)
  {
    if |args| == 1 {
      assert args[1..] == [];
    }
  }

  /** An expression amounts to more when a column it mentions does. */
  lemma {:induction false} SurfaceGrows(
      names1: seq<string>, row1: Row, names2: seq<string>, row2: Row, e: Expr, x: string)
    requires LowerValue(e).Ok? && Grows(names1, row1, names2, row2)
    requires Amount(Column_(names1, row1, x)) < Amount(Column_(names2, row2, x))
    ensures var a, b := Amount(Surface(Summing(), names1, row1, e)), Amount(Surface(Summing(), names2, row2, e));
            a <= b && (x in Mentions(e) ==> a < b)
    decreases e, 1
  {
    if SurfaceDirect(e).Some? {
    } else {
      match e {
        case Binary(l, _, r) =>
          SurfaceGrows(names1, row1, names2, row2, l, x);
          SurfaceGrows(names1, row1, names2, row2, r, x);
          PairTotal(Surface(Summing(), names1, row1, l), Surface(Summing(), names1, row1, r));
          PairTotal(Surface(Summing(), names2, row2, l), Surface(Summing(), names2, row2, r));
        case Unary(_, v) =>
          SurfaceGrows(names1, row1, names2, row2, v, x);
          OneTotal(Surface(Summing(), names1, row1, v));
          OneTotal(Surface(Summing(), names2, row2, v));
        case Call(callee, args) => CallGrows(names1, row1, names2, row2, e, x);
        case ScopedSymbolCall(symbol, args) =>
          SurfaceAllGrows(names1, row1, names2, row2, args, x);
          HelperSums(symbol, SurfaceAll(Summing(), names1, row1, args));
          HelperSums(symbol, SurfaceAll(Summing(), names2, row2, args));
        case Field(o, _) =>
          SurfaceGrows(names1, row1, names2, row2, o, x);
          OneTotal(Surface(Summing(), names1, row1, o));
          OneTotal(Surface(Summing(), names2, row2, o));
        case ListOf(items) =>
          ColumnsAreValues(items);
          SurfaceAllGrows(names1, row1, names2, row2, items, x);
        case _ =>
      }
    }
  }

  lemma {:induction false} CallGrows(
      names1: seq<string>, row1: Row, names2: seq<string>, row2: Row, e: Expr, x: string)
    requires e.Call? && SurfaceDirect(e).None? && LowerValue(e).Ok? && Grows(names1, row1, names2, row2)
    requires Amount(Column_(names1, row1, x)) < Amount(Column_(names2, row2, x))
    ensures var a, b := Amount(Surface(Summing(), names1, row1, e)), Amount(Surface(Summing(), names2, row2, e));
            a <= b && (x in Mentions(e) ==> a < b)
    decreases e, 0
  {
    var callee, args := e.callee, e.args;
    var args1, args2 := SurfaceAll(Summing(), names1, row1, args), SurfaceAll(Summing(), names2, row2, args);
    SurfaceAllGrows(names1, row1, names2, row2, args, x);
    if callee.Name? {
      HelperSums(callee.name, args1);
      HelperSums(callee.name, args2);
    } else {
      SurfaceGrows(names1, row1, names2, row2, callee.object_, x);
      assert ([Surface(Summing(), names1, row1, callee.object_)] + args1)[1..] == args1;
      assert ([Surface(Summing(), names2, row2, callee.object_)] + args2)[1..] == args2;
    }
  }

  lemma OneTotal(v: Value)
    ensures Total([v]) == Amount(v)
  {
    assert [v][1..] == [];
  }

  lemma PairTotal(v: Value, w: Value)
    ensures Total([v, w]) == Amount(v) + Amount(w)
  {
    assert [v, w][1..] == [w];
    OneTotal(w);
  }

  lemma {:induction false} ColumnsAreValues(es: seq<Expr>)
    requires LowerColumns(es).Ok?
    ensures LowerValues(es).Ok?
  {
    if es != [] {
      ColumnsAreValues(es[1..]);
    }
  }

  lemma {:induction false} SurfaceAllGrows(
      names1: seq<string>, row1: Row, names2: seq<string>, row2: Row, es: seq<Expr>, x: string)
    requires LowerValues(es).Ok? && Grows(names1, row1, names2, row2)
    requires Amount(Column_(names1, row1, x)) < Amount(Column_(names2, row2, x))
    ensures var a, b := Total(SurfaceAll(Summing(), names1, row1, es)), Total(SurfaceAll(Summing(), names2, row2, es));
            a <= b && (x in MentionsAll(es) ==> a < b)
    decreases es, 0
  {
    if es != [] {
      SurfaceGrows(names1, row1, names2, row2, es[0], x);
      SurfaceAllGrows(names1, row1, names2, row2, es[1..], x);
      assert SurfaceAll(Summing(), names1, row1, es)[1..] == SurfaceAll(Summing(), names1, row1, es[1..]);
      assert SurfaceAll(Summing(), names2, row2, es)[1..] == SurfaceAll(Summing(), names2, row2, es[1..]);
    }
  }

  /** One row without values under the given keys. */
  function KeyedRow(keys: seq<string>): Carrier {
    Grouped(OneRow(Null), keys, seq(|keys|, _ => [Null]))
  }

  lemma KeyedGroup(keys: seq<string>)
    ensures MembersOf(KeyedRow(keys)) == [[0]]
    ensures forall x :: ColumnOf(Heads(KeyedRow(keys)), x) == [Null]
  {
    var cols := KeyCols(KeyedRow(keys));
    if keys == [] {
      assert Iota(1) == [0];
      assert seq(1, _ => Null) == [Null];
    } else {
      var rows := Rows(cols, 1);
      assert Representatives(rows) == [0] by {
        var first := seq(|rows|, j requires 0 <= j < |rows| => FirstAt(rows, j));
        assert first == [true] && [true][..0] == [];
      }
      assert Members(rows, 0) == [0] by {
        assert seq(1, j requires 0 <= j < 1 => rows[j] == rows[0]) == [true];
        assert [true][..0] == [];
      }
      assert forall k :: 0 <= k < |cols| ==> Pick(cols[k], [0]) == [Null];
      assert seq(1, _ => Null) == [Null];
    }
  }

  lemma AggregateIsOne(keys: seq<string>, e: Expr)
    requires IsAggregate(e)
    ensures AggregateColumn(Summing(), KeyedRow(keys), e) == [IntValue(1)]
  {
    KeyedGroup(keys);
    var args := SurfaceRows(Summing(), Source(KeyedRow(keys)), e.args);
    var (kind, distinct) := MeasureKind(AggregateSymbol(e));
    assert Aggregated(Summing(), KeyedRow(keys), kind, distinct, args)[0] == IntValue(1);
  }

  lemma {:induction false} AggregatesAreOne(keys: seq<string>, items: seq<Item>)
    ensures forall i :: 0 <= i < |AggregateNames(items)| ==>
      AggregateColumns(Summing(), KeyedRow(keys), items)[i] == [IntValue(1)]
  {
    if items != [] {
      var n := |items| - 1;
      AggregatesAreOne(keys, items[..n]);
      if IsAggregate(items[n].expr) {
        AggregateIsOne(keys, items[n].expr);
      }
    }
  }

  /** Binding other names leaves a column alone. */
  lemma {:induction false} ScopeKeeps(eng: Engine, c: Carrier, items: seq<Item>, k: nat, name: string)
    requires k <= |items| && forall p :: 0 <= p < k ==> ItemName(items[p]) != name
    ensures ColumnOf(Scope(eng, c, Heads(c), items[..k]), name) == ColumnOf(Heads(c), name)
    decreases k
  {
    if k > 0 {
      ScopeKeeps(eng, c, items, k - 1, name);
      ScopeNext(eng, c, items, k - 1);
      var s := Scope(eng, c, Heads(c), items[..k - 1]);
      BoundColumn(s, ItemName(items[k - 1]), ItemColumn(eng, c, s, items[k - 1]), name);
    } else {
      assert items[..0] == [];
    }
  }

  /** An aggregate under the name of a key is disturbed. */
  lemma {:induction false} KeyDisturbs(keys: seq<string>, items: seq<Item>, k: nat)
    requires LowerAggregateItems(items).Ok? && Distinct(ItemNames(items))
    requires k < |items| && IsAggregate(items[k].expr) && ItemName(items[k]) in keys
    ensures !Undisturbed(Summing(), KeyedRow(keys), items, k)
  {
    CapturedExactly(Summing(), KeyedRow(keys), items, k);
    EarlierNamesDiffer(items, k);
    ScopeKeeps(Summing(), KeyedRow(keys), items, k, ItemName(items[k]));
    KeyedGroup(keys);
    AggregateIsOne(keys, items[k].expr);
    assert [Null][0] != [IntValue(1)][0];
  }

  lemma {:induction false} EarlierNamesDiffer(items: seq<Item>, k: nat)
    requires Distinct(ItemNames(items)) && k < |items|
    ensures forall p :: 0 <= p < k ==> ItemName(items[p]) != ItemName(items[k])
  {
    forall p | 0 <= p < k ensures ItemName(items[p]) != ItemName(items[k]) {
      assert ItemNames(items)[p] != ItemNames(items)[k];
    }
  }

  lemma CellOf(f: Frame, x: string, j: nat)
    requires j < f.table.count
    ensures Column_(f.names, RowAt(f.table, j), x) == ColumnOf(f, x)[j]
  {
  }

  /** A plain item that mentions an aggregate still to come is disturbed. */
  lemma {:induction false} MentionDisturbs(keys: seq<string>, items: seq<Item>, k: nat, x: string)
    requires LowerAggregateItems(items).Ok? && LayersAgree(items)
    requires k < |items| && !IsAggregate(items[k].expr) && x in Mentions(items[k].expr)
    requires x in AggregateNames(items) && x !in keys && forall p :: 0 <= p < k ==> ItemName(items[p]) != x
    ensures !Undisturbed(Summing(), KeyedRow(keys), items, k)
  {
    var c := KeyedRow(keys);
    var s, t := Scope(Summing(), c, Heads(c), items[..k]), InView(Summing(), c, items, k);
    KeyedGroup(keys);
    ViewGrows(keys, items, k, x);
    LoweredItemAt(items, k);
    SurfaceGrows(s.names, RowAt(s.table, 0), t.names, RowAt(t.table, 0), items[k].expr, x);
    assert SurfaceColumn(Summing(), s, items[k].expr)[0] != SurfaceColumn(Summing(), t, items[k].expr)[0];
  }

  /** With the measures in view every column amounts to at least as much, and a coming measure to more. */
  lemma {:induction false} ViewGrows(keys: seq<string>, items: seq<Item>, k: nat, x: string)
    requires LowerAggregateItems(items).Ok? && LayersAgree(items) && k < |items|
    requires x in AggregateNames(items) && x !in keys && forall p :: 0 <= p < k ==> ItemName(items[p]) != x
    ensures var c := KeyedRow(keys);
            var s, t := Scope(Summing(), c, Heads(c), items[..k]), InView(Summing(), c, items, k);
            && s.table.count == 1 == t.table.count
            && Grows(s.names, RowAt(s.table, 0), t.names, RowAt(t.table, 0))
            && Amount(Column_(s.names, RowAt(s.table, 0), x)) < Amount(Column_(t.names, RowAt(t.table, 0), x))
  {
    var c, ms := KeyedRow(keys), LowerAggregateItems(items).value.0;
    var s, t := Scope(Summing(), c, Heads(c), items[..k]), InView(Summing(), c, items, k);
    KeyedGroup(keys);
    MeasuresPreserved(Summing(), c, items);
    AggregatesAreOne(keys, items);
    forall y ensures Amount(Column_(s.names, RowAt(s.table, 0), y)) <= Amount(Column_(t.names, RowAt(t.table, 0), y)) {
      CellOf(s, y, 0);
      CellOf(t, y, 0);
      BehindColumn(Summing(), c, s, ms, y);
    }
    ScopeNames(Summing(), c, items, k, x);
    CellOf(s, x, 0);
    CellOf(t, x, 0);
    BehindColumn(Summing(), c, s, ms, x);
  }

  /** The chain of an aggregate list yields the written list. */
  predicate Selects(eng: Engine, c: Carrier, items: seq<Item>)
    requires LowerAggregateItems(items).Ok? && AnyAggregate(items)
  {
    var lowered := LowerAggregateItems(items).value;
    Chains.SelectCarrier(eng, Chains.AggCarrier(eng, c, lowered.0), lowered.1) == Ordinary(Projection(eng, c, items))
  }

  /** It does so on every backend, for all rows under the given keys. */
  ghost predicate AlwaysSelects(keys: seq<string>, items: seq<Item>)
    requires LowerAggregateItems(items).Ok? && AnyAggregate(items)
  {
    forall eng: Engine, c: Carrier {:trigger Selects(eng, c, items)} :: KeyNames(c) == keys ==> Selects(eng, c, items)
  }

  /** Main result on names: a list whose output names differ and are the same in both layers is yielded on every backend
      and database exactly when no aggregate has the name of a key and no item mentions an aggregate behind it. */
  lemma {:induction false} SelectAlwaysExactly(keys: seq<string>, items: seq<Item>)
    requires LowerAggregateItems(items).Ok? && AnyAggregate(items)
    requires Distinct(ItemNames(items)) && LayersAgree(items)
    ensures AlwaysSelects(keys, items) <==> AggregatesApart(keys, items)
  {
    if AggregatesApart(keys, items) {
      forall eng: Engine, c: Carrier | KeyNames(c) == keys ensures Selects(eng, c, items) {
        AggregateProjectionPreserved(eng, c, items);
      }
    }
    if AlwaysSelects(keys, items) {
      assert Selects(Summing(), KeyedRow(keys), items);
      AggregateProjectionExactly(Summing(), KeyedRow(keys), items);
      UndisturbedApart(keys, items);
    }
  }

  lemma {:induction false} UndisturbedApart(keys: seq<string>, items: seq<Item>)
    requires LowerAggregateItems(items).Ok? && Distinct(ItemNames(items)) && LayersAgree(items)
    requires NoneDisturbed(Summing(), KeyedRow(keys), items, |items|)
    ensures AggregatesApart(keys, items)
  {
    forall j | 0 <= j < |items| ensures AggregateFits(keys, items[j]) {
      assert AggregateFits([], items[j]) && Undisturbed(Summing(), KeyedRow(keys), items, j);
      if IsAggregate(items[j].expr) && ItemName(items[j]) in keys {
        KeyDisturbs(keys, items, j);
      }
    }
    forall i, j | 0 <= i < j < |items| && IsAggregate(items[j].expr) ensures KeepsClear(items[i], ItemName(items[j])) {
      ClearOf(keys, items, i, j);
    }
  }

  lemma {:induction false} ClearOf(keys: seq<string>, items: seq<Item>, i: nat, j: nat)
    requires LowerAggregateItems(items).Ok? && Distinct(ItemNames(items)) && LayersAgree(items)
    requires i < j < |items| && IsAggregate(items[j].expr) && AggregateFits(keys, items[j])
    requires Undisturbed(Summing(), KeyedRow(keys), items, i)
    ensures KeepsClear(items[i], ItemName(items[j]))
  {
    EarlierNamesDiffer(items, j);
    AggregateNamesKnown(items, ItemName(items[j]));
    if !IsAggregate(items[i].expr) && ItemName(items[j]) in Mentions(items[i].expr) {
      MentionDisturbs(keys, items, i, ItemName(items[j]));
    }
  }

  // ----- an input for every condition -----

  /** A backend that counts the rows an aggregate is given. */
  function Counting(): Engine {
    Engine(
      (name: string, options: seq<(string, string)>, args: Row) => Null,
      (name: string, distinct: bool, args: seq<Row>, ordering: seq<Row>) => IntValue(|args|),
      (name: string, n: nat, args: Row) => [],
      (shape: WindowShape, rows: seq<Row>, j: nat) => Null,
      (keys: seq<Row>) => [])
  }

  function CountAs(name: string): Item {
    Item(Call(Name("count"), []), Some(name))
  }

  function FieldAs(field: string, name: string): Item {
    Item(CurrentField(field), Some(name))
  }

  lemma {:induction false} LowersEach(items: seq<Item>)
    requires forall k :: 0 <= k < |items| ==> LowerAggregateItem(items[k]).Ok?
    ensures LowerAggregateItems(items).Ok?
    decreases |items|
  {
    if items != [] {
      LowersEach(items[..|items| - 1]);
    }
  }

  lemma CountLowers(name: string)
    ensures IsAggregate(CountAs(name).expr) && LowerAggregateItem(CountAs(name)).Ok? && SameLayerName(CountAs(name))
  {
    var e := CountAs(name).expr;
    LowersExactly(e);
    assert LowerValues([]) == Ok([]);
    assert IsAggregateName("count");
  }

  lemma FieldLowers(field: string, name: string)
    ensures !IsAggregate(FieldAs(field, name).expr) && LowerAggregateItem(FieldAs(field, name)).Ok?
  {
  }

  /** One row of one column under one key, or under none. */
  function OneRow(v: Value): Frame {
    RawFrame(["k"], RawTable(1, [[v]]))
  }

  lemma CountsOne(c: Carrier, name: string)
    requires Source(c).table.count == 1 && MembersOf(c) == [[0]]
    ensures IsAggregate(CountAs(name).expr)
    ensures AggregateColumn(Counting(), c, CountAs(name).expr) == [IntValue(1)]
  {
    CountLowers(name);
    AggregatesOne(c, CountAs(name).expr);
  }

  lemma OneGroup(v: Value)
    ensures MembersOf(Ordinary(OneRow(v))) == [[0]]
    ensures MembersOf(Grouped(OneRow(v), ["n"], [[v]])) == [[0]]
  {
    assert Iota(1) == [0];
    var keys := Rows([[v]], 1);
    assert keys[0] == [v] && keys == [[v]];
    assert Members(keys, 0) == [0] by {
      assert seq(1, j requires 0 <= j < 1 => keys[j] == keys[0]) == [true];
      assert [true][..0] == [];
    }
    assert Representatives(keys) == [0] by {
      var first := seq(|keys|, j requires 0 <= j < |keys| => FirstAt(keys, j));
      assert first == [true] && [true][..0] == [];
    }
  }

  /** `SELECT .k as n, count() as n`: the aggregate comes out as the plain item. */
  lemma CapturedInput(v: Value)
    ensures var items := [FieldAs("k", "n"), CountAs("n")];
            LowerAggregateItems(items).Ok? && !Undisturbed(Counting(), Ordinary(OneRow(v)), items, 1)
  {
    var items, c := [FieldAs("k", "n"), CountAs("n")], Ordinary(OneRow(v));
    CountLowers("n");
    FieldLowers("k", "n");
    LowersEach(items);
    OneGroup(v);
    CountsOne(c, "n");
    assert ItemName(items[0]) == "n" == ItemName(items[1]);
    CapturedExactly(Counting(), c, items, 1);
    ScopeNext(Counting(), c, items, 0);
    assert items[..0] == [];
    BoundColumn(Heads(c), "n", ItemColumn(Counting(), c, Heads(c), items[0]), "n");
    FieldColumn(Counting(), Heads(c), "k");
    assert ColumnOf(Heads(c), "k") == [Null];
  }

  /** `GROUP BY n SELECT count() as n`: the aggregate comes out as the key. */
  lemma KeyInput(v: Value)
    requires v != IntValue(1)
    ensures var items := [CountAs("n")];
            LowerAggregateItems(items).Ok? && !Undisturbed(Counting(), Grouped(OneRow(v), ["n"], [[v]]), items, 0)
  {
    var items, c := [CountAs("n")], Grouped(OneRow(v), ["n"], [[v]]);
    CountLowers("n");
    LowersEach(items);
    OneGroup(v);
    CountsOne(c, "n");
    assert ItemName(items[0]) == "n" && KeyNames(c) == ["n"];
    CapturedExactly(Counting(), c, items, 0);
    assert items[..0] == [];
    assert GroupKeys([[v]], 1).cols[0] == [v] by {
      var first := seq(1, j requires 0 <= j < 1 => FirstAt(Rows([[v]], 1), j));
      assert first == [true] && [true][..0] == [];
    }
    assert ColumnOf(Heads(c), "n") == [v];
  }

  /** `SELECT .n as z, count() as n`: the chain reads the measure before it is selected. */
  lemma MentionedInput(v: Value)
    ensures var items := [FieldAs("n", "z"), CountAs("n")];
            LowerAggregateItems(items).Ok? && !Undisturbed(Counting(), Ordinary(OneRow(v)), items, 0)
  {
    var items, c := [FieldAs("n", "z"), CountAs("n")], Ordinary(OneRow(v));
    CountLowers("n");
    FieldLowers("n", "z");
    LowersEach(items);
    OneGroup(v);
    CountsOne(c, "n");
    MeasurePreserved(Counting(), c, items[1]);
    MeasuresOfPair(Counting(), c, items[0], items[1]);
    assert FirstIndex(["n"], "n") == 0;
    assert seq(1, _ => Null)[0] == Null != [IntValue(1)][0];
    MentionedExactly(Counting(), c, items, 0, "n");
  }

  lemma MeasuresOfPair(eng: Engine, c: Carrier, plain: Item, measure: Item)
    requires !IsAggregate(plain.expr) && IsAggregate(measure.expr) && SameLayerName(measure)
    requires LowerAggregateItems([plain, measure]).Ok? && LowerAggregateItem(measure).Ok?
    ensures var ms := LowerAggregateItems([plain, measure]).value.0;
            Chains.MeasureNames(ms) == [ItemName(measure)]
            && Chains.MeasureColumns(eng, c, ms) == [AggregateColumn(eng, c, measure.expr)]
  {
    var items := [plain, measure];
    LoweredItemAt(items, 0);
    assert items[..1] == [plain] && [plain][..0] == [];
    assert LowerAggregateItems(items[..1]).value.0 == [];
    MeasurePreserved(eng, c, measure);
    var ms := LowerAggregateItem(measure).value.0;
    assert LowerAggregateItems(items).value.0 == [] + ms == ms;
    assert ms == [ms[0]];
  }

  function SumOfCol(): Item {
    Item(Call(Name("sum"), [Call(Name("col"), [Str("x")])]), None)
  }

  /** The library's name of the one measure is not the name the chain looks for. */
  lemma SumMisnamed(item: Item)
    requires item == SumOfCol() && LowerAggregateItems([item]).Ok? && LowerAggregateItem(item).Ok?
    ensures ItemName(item) !in Chains.MeasureNames(LowerAggregateItems([item]).value.0)
  {
    var arg := Call(Name("col"), [Str("x")]);
    assert [item][..0] == [];
    var ms := LowerAggregateItem(item).value.0;
    assert LowerAggregateItems([item]).value.0 == [] + ms == ms;
    AggregateLowers(item.expr);
    AggregateNamesAgree("sum", [arg]);
    assert Chains.MeasureNames(ms) == [Chains.MeasureName(ms[0])];
  }

  /** `SELECT sum(col("x"))`: the chain looks for `sum_expr`, the library calls the measure `sum_x`. */
  lemma MisnamedInput(v: Value)
    ensures var items := [SumOfCol()];
            LowerAggregateItems(items).Ok? && !Undisturbed(Counting(), Ordinary(OneRow(v)), items, 0)
  {
    var item, c := SumOfCol(), Ordinary(OneRow(v));
    SumLowers(item);
    LowersEach([item]);
    OneGroup(v);
    SumMisnamed(item);
    AggregatesOne(c, item.expr);
    assert seq(1, _ => Null)[0] == Null != [IntValue(1)][0];
    MisnamedExactly(Counting(), c, [item], 0);
  }

  lemma SumLowers(item: Item)
    requires item == SumOfCol()
    ensures IsAggregate(item.expr) && LowerAggregateItem(item).Ok?
  {
    assert IsAggregateName("sum");
    LowersExactly(item.expr);
    LowersExactly(Call(Name("col"), [Str("x")]));
    LowersExactly(Str("x"));
  }

  lemma AggregatesOne(c: Carrier, e: Expr)
    requires IsAggregate(e) && Source(c).table.count == 1 && MembersOf(c) == [[0]]
    ensures AggregateColumn(Counting(), c, e) == [IntValue(1)]
  {
    var args := SurfaceRows(Counting(), Source(c), e.args);
    var (kind, distinct) := MeasureKind(AggregateSymbol(e));
    assert |PickRows(args, [0])| == 1;
    assert Aggregated(Counting(), c, kind, distinct, args)[0] == IntValue(1);
    assert AggregateColumn(Counting(), c, e) == Aggregated(Counting(), c, kind, distinct, args);
  }

  /** `SELECT DISTINCT .a as x, .b as x`: both columns come out as the first. */
  lemma DuplicateInput(a: Value, b: Value)
    requires a != b
    ensures var items := [FieldAs("a", "x"), FieldAs("b", "x")];
            var p := RawFrame(["x", "x"], RawTable(1, [[a], [b]]));
            SelectOutputColumns(items).Ok? && p.names == ItemNames(items)
            && Flat(Regrouped(Counting(), p, items)) != RawFrame(p.names, Dedupe(p.table))
  {
    var items, p := [FieldAs("a", "x"), FieldAs("b", "x")], RawFrame(["x", "x"], RawTable(1, [[a], [b]]));
    assert items[..1] == [items[0]] && [items[0]][..0] == [];
    assert SelectOutputColumns([items[0]]).Ok?;
    assert ItemNames(items) == ["x", "x"];
    DistinctExactly(Counting(), p, items);
    assert ColumnOf(p, p.names[1]) == [a] != p.table.cols[1];
  }

  /** `SELECT` of nothing over one column: the chain keeps the column. */
  lemma EmptyInput(v: Value)
    ensures Chains.SelectCarrier(Counting(), Ordinary(OneRow(v)), [])
         != Ordinary(Projection(Counting(), Ordinary(OneRow(v)), []))
  {
    EmptyProjection(Counting(), Ordinary(OneRow(v)));
  }
}
