/** Lowered expressions and SELECT lists compute the columns the written ones mean. The hard case is an aggregate list:
    it is written as one list per group, but lowered to all measures first and a projection of them second. */
module SelectCorrect {
  import opened Names
  import opened Tables
  import opened Incan
  import opened Wrappers
  import opened Desugar
  import opened Queries
  import opened QueryShape
  import opened QueryValues
  import opened QueryMeaning
  import opened Carriers
  import Chains = ChainMeaning
  import Plans

  // ----- expressions over frames -----

  lemma ColumnPreserved(eng: Engine, f: Frame, e: Expr)
    requires LowerColumn(e).Ok?
    ensures Chains.LoweredColumn(eng, f, LowerColumn(e).value) == SurfaceColumn(eng, f, e)
  {
    forall j | 0 <= j < f.table.count
      ensures Lowered(eng, f.names, RowAt(f.table, j), LowerColumn(e).value)
           == Surface(eng, f.names, RowAt(f.table, j), e)
    {
      LoweringPreservesValue(eng, f.names, RowAt(f.table, j), e);
    }
  }

  lemma ColumnsPreservedOn(eng: Engine, f: Frame, es: seq<Expr>)
    requires LowerColumns(es).Ok?
    ensures Chains.LoweredColumns(eng, f, LowerColumns(es).value) == SurfaceColumns(eng, f, es)
  {
    forall k | 0 <= k < |es|
      ensures Chains.LoweredColumn(eng, f, LowerColumns(es).value[k]) == SurfaceColumn(eng, f, es[k])
    {
      ColumnAt(es, k);
      ColumnPreserved(eng, f, es[k]);
    }
  }

  lemma {:induction false} ColumnAt(es: seq<Expr>, k: nat)
    requires LowerColumns(es).Ok? && k < |es|
    ensures LowerColumn(es[k]) == Ok(LowerColumns(es).value[k])
  {
    if k > 0 {
      ColumnAt(es[1..], k - 1);
    }
  }

  lemma RowsPreserved(eng: Engine, f: Frame, es: seq<Expr>)
    requires LowerColumns(es).Ok?
    ensures Chains.LoweredRows(eng, f, LowerColumns(es).value) == SurfaceRows(eng, f, es)
  {
    forall j | 0 <= j < f.table.count
      ensures LoweredAll(eng, f.names, RowAt(f.table, j), LowerColumns(es).value)
           == SurfaceAll(eng, f.names, RowAt(f.table, j), es)
    {
      ColumnsPreserved(eng, f.names, RowAt(f.table, j), es);
    }
  }

  lemma ArgumentRowsPreserved(eng: Engine, f: Frame, es: seq<Expr>)
    requires LowerValues(es).Ok?
    ensures Chains.LoweredRows(eng, f, LowerValues(es).value) == SurfaceRows(eng, f, es)
  {
    forall j | 0 <= j < f.table.count
      ensures LoweredAll(eng, f.names, RowAt(f.table, j), LowerValues(es).value)
           == SurfaceAll(eng, f.names, RowAt(f.table, j), es)
    {
      OperandsPreserved(eng, f.names, RowAt(f.table, j), es);
    }
  }

  lemma OneRowPreserved(eng: Engine, f: Frame, e: Expr)
    requires LowerColumn(e).Ok?
    ensures Chains.LoweredRows(eng, f, [LowerColumn(e).value]) == SurfaceRows(eng, f, [e])
  {
    assert [e][1..] == [];
    assert LowerColumns([e][1..]) == Ok([]);
    assert [LowerColumn(e).value] + [] == [LowerColumn(e).value];
    RowsPreserved(eng, f, [e]);
  }

  lemma HitsPreserved(eng: Engine, names: seq<string>, l: Table, r: Table, on: Expr)
    requires LowerColumn(on).Ok?
    ensures Chains.LoweredHits(eng, names, l, r, LowerColumn(on).value) == SurfaceHits(eng, names, l, r, on)
  {
    forall i, j | 0 <= i < l.count && 0 <= j < r.count
      ensures Lowered(eng, names, RowAt(l, i) + RowAt(r, j), LowerColumn(on).value)
           == Surface(eng, names, RowAt(l, i) + RowAt(r, j), on)
    {
      LoweringPreservesValue(eng, names, RowAt(l, i) + RowAt(r, j), on);
    }
    var a, b := Chains.LoweredHits(eng, names, l, r, LowerColumn(on).value), SurfaceHits(eng, names, l, r, on);
    forall i | 0 <= i < l.count ensures a[i] == b[i] {
      assert forall j :: 0 <= j < r.count ==> a[i][j] == b[i][j];
    }
  }

  /** Direct references survive lowering, and nothing else becomes one. */
  lemma DirectPreserved(e: Expr)
    requires LowerColumn(e).Ok?
    ensures DirectColumn(LowerColumn(e).value) == SurfaceDirect(e)
  {
    match e {
      case Call(callee, args) =>
        if callee.Name? {
          CallNames(HelperName(callee.name), args);
          assert HelperName(callee.name) == "col" <==> callee.name == "col";
        }
      case ScopedSymbolCall(symbol, args) => CallNames(symbol, args);
      case Binary(_, _, _) =>
      case Unary(op, _) => assert op == Neg ==> UnaryHelper(op).value[0] == 'n';
      case _ =>
    }
  }

  lemma KeyNamesPreserved(es: seq<Expr>)
    requires LowerColumns(es).Ok?
    ensures Chains.GroupColumnNames(LowerColumns(es).value) == SurfaceKeyNames(es)
  {
    forall k | 0 <= k < |es| ensures Chains.GroupColumnNames(LowerColumns(es).value)[k] == SurfaceKeyNames(es)[k] {
      ColumnAt(es, k);
      DirectPreserved(es[k]);
    }
  }

  // ----- a value depends only on the columns it mentions -----

  function Mentions(e: Expr): set<string>
    decreases e, 1
  {
    if SurfaceDirect(e).Some? then {SurfaceDirect(e).value}
    else
      match e
      case Binary(l, _, r) => Mentions(l) + Mentions(r)
      case Unary(_, v) => Mentions(v)
      case Call(callee, args) => (if callee.Field? then Mentions(callee.object_) else {}) + MentionsAll(args)
      case ScopedSymbolCall(_, args) => MentionsAll(args)
      case Field(o, _) => Mentions(o)
      case ListOf(items) => MentionsAll(items)
      case _ => {}
  }

  function MentionsAll(es: seq<Expr>): set<string>
    decreases es, 0
  {
    if es == [] then {} else Mentions(es[0]) + MentionsAll(es[1..])
  }

  predicate SameValues(names1: seq<string>, row1: Row, names2: seq<string>, row2: Row, on: set<string>) {
    forall x :: x in on ==> Column_(names1, row1, x) == Column_(names2, row2, x)
  }

  lemma {:induction false} SurfaceDepends(
      eng: Engine, names1: seq<string>, row1: Row, names2: seq<string>, row2: Row, e: Expr)
    requires SameValues(names1, row1, names2, row2, Mentions(e))
    ensures Surface(eng, names1, row1, e) == Surface(eng, names2, row2, e)
    decreases e, 1
  {
    if SurfaceDirect(e).Some? {
      assert SurfaceDirect(e).value in Mentions(e);
    } else {
      match e {
        case Binary(l, _, r) =>
          SurfaceDepends(eng, names1, row1, names2, row2, l);
          SurfaceDepends(eng, names1, row1, names2, row2, r);
        case Unary(_, v) => SurfaceDepends(eng, names1, row1, names2, row2, v);
        case Call(callee, args) =>
          if callee.Field? {
            SurfaceDepends(eng, names1, row1, names2, row2, callee.object_);
          }
          SurfaceAllDepends(eng, names1, row1, names2, row2, args);
        case ScopedSymbolCall(_, args) => SurfaceAllDepends(eng, names1, row1, names2, row2, args);
        case Field(o, _) => SurfaceDepends(eng, names1, row1, names2, row2, o);
        case ListOf(items) => SurfaceAllDepends(eng, names1, row1, names2, row2, items);
        case _ =>
      }
    }
  }

  lemma {:induction false} SurfaceAllDepends(
      eng: Engine, names1: seq<string>, row1: Row, names2: seq<string>, row2: Row, es: seq<Expr>)
    requires SameValues(names1, row1, names2, row2, MentionsAll(es))
    ensures SurfaceAll(eng, names1, row1, es) == SurfaceAll(eng, names2, row2, es)
    decreases es, 0
  {
    if es != [] {
      SurfaceDepends(eng, names1, row1, names2, row2, es[0]);
      SurfaceAllDepends(eng, names1, row1, names2, row2, es[1..]);
    }
  }

  /** Frames that agree on the mentioned columns give an expression the same column. */
  lemma ColumnDepends(eng: Engine, f: Frame, g: Frame, e: Expr)
    requires f.table.count == g.table.count
    requires forall x :: x in Mentions(e) ==> ColumnOf(f, x) == ColumnOf(g, x)
    ensures SurfaceColumn(eng, f, e) == SurfaceColumn(eng, g, e)
  {
    forall j | 0 <= j < f.table.count
      ensures Surface(eng, f.names, RowAt(f.table, j), e) == Surface(eng, g.names, RowAt(g.table, j), e)
    {
      forall x | x in Mentions(e)
        ensures Column_(f.names, RowAt(f.table, j), x) == Column_(g.names, RowAt(g.table, j), x)
      {
        assert ColumnOf(f, x)[j] == ColumnOf(g, x)[j];
      }
      SurfaceDepends(eng, f.names, RowAt(f.table, j), g.names, RowAt(g.table, j), e);
    }
  }

  // ----- plain SELECT lists -----

  lemma AssignmentPreserved(eng: Engine, f: Frame, item: Item)
    requires !IsAggregate(item.expr) && LowerPlainItem(item).Ok?
    ensures Chains.AssignedName(LowerPlainItem(item).value) == ItemName(item)
    ensures Chains.AssignedColumn(eng, f, LowerPlainItem(item).value) == SurfaceColumn(eng, f, item.expr)
  {
    ColumnPreserved(eng, f, item.expr);
  }

  lemma BindingsAppend(eng: Engine, f: Frame, front: seq<Expr>, last: Expr)
    ensures var b := Chains.Bindings(eng, f, front);
            && Chains.Bindings(eng, f, front + [last])
                 == Bound(b, Chains.AssignedName(last), Chains.AssignedColumn(eng, b, last))
            && Chains.Assigned(eng, f, front + [last])
                 == Chains.Assigned(eng, f, front) + [Chains.AssignedColumn(eng, b, last)]
  {
    assert (front + [last])[..|front + [last]| - 1] == front;
  }

  lemma NamesAppend(items: seq<Item>, front: seq<Expr>, last: Expr)
    requires items != [] && Chains.AssignedNames(front) == ItemNames(items[..|items| - 1])
    requires Chains.AssignedName(last) == ItemName(items[|items| - 1])
    ensures Chains.AssignedNames(front + [last]) == ItemNames(items)
  {
    assert Chains.AssignedNames(front + [last]) == Chains.AssignedNames(front) + [Chains.AssignedName(last)];
    assert ItemNames(items) == ItemNames(items[..|items| - 1]) + [ItemName(items[|items| - 1])];
  }

  lemma {:induction false} PlainItemsPreserved(eng: Engine, c: Carrier, f: Frame, items: seq<Item>)
    requires !AnyAggregate(items) && LowerPlainItems(items).Ok?
    ensures var lowered := LowerPlainItems(items).value;
            && Chains.AssignedNames(lowered) == ItemNames(items)
            && Chains.Bindings(eng, f, lowered) == Scope(eng, c, f, items)
            && Chains.Assigned(eng, f, lowered) == Outputs(eng, c, f, items)
    decreases |items|
  {
    if items != [] {
      var n := |items| - 1;
      var front, last := LowerPlainItems(items[..n]).value, LowerPlainItem(items[n]).value;
      PlainFront(items);
      PlainItemsPreserved(eng, c, f, items[..n]);
      AssignmentPreserved(eng, Scope(eng, c, f, items[..n]), items[n]);
      BindingsAppend(eng, f, front, last);
      NamesAppend(items, front, last);
    }
  }

  lemma PlainFront(items: seq<Item>)
    requires items != [] && !AnyAggregate(items)
    ensures !AnyAggregate(items[..|items| - 1]) && !IsAggregate(items[|items| - 1].expr)
  {
    var front := items[..|items| - 1];
    assert forall k :: 0 <= k < |front| ==> front[k] == items[k];
  }

  // ----- aggregate SELECT lists -----

  function AggregateArgs(e: Expr): seq<Expr>
    requires IsAggregate(e)
  {
    e.args
  }

  /** An unaliased aggregate the two layers give one name. */
  predicate SameLayerName(item: Item)
    requires IsAggregate(item.expr)
  {
    var args := AggregateArgs(item.expr);
    item.alias.Some?
    || (if args == [] then AggregateSymbol(item.expr) != "count_distinct"
        else !IsColCall(args[0]) || ColCallName(args[0]) == "expr")
  }

  lemma AggregateLowers(e: Expr)
    requires IsAggregate(e) && LowerColumn(e).Ok?
    ensures LowerValues(AggregateArgs(e)).Ok?
    ensures LowerColumn(e).value == HelperCall(AggregateSymbol(e), LowerValues(AggregateArgs(e)).value)
  {
    assert |"mod"| == 3 && "mod"[1] == 'o';
    if e.Call? {
      assert HelperName(e.callee.name) == e.callee.name;
    }
  }

  lemma MeasurePreserved(eng: Engine, c: Carrier, item: Item)
    requires IsAggregate(item.expr) && LowerAggregateItem(item).Ok? && SameLayerName(item)
    ensures var measures := LowerAggregateItem(item).value.0;
            && |measures| == 1
            && Chains.MeasureName(measures[0]) == ItemName(item)
            && Chains.MeasureColumn(eng, c, measures[0]) == AggregateColumn(eng, c, item.expr)
  {
    var symbol, args := AggregateSymbol(item.expr), AggregateArgs(item.expr);
    AggregateLowers(item.expr);
    assert symbol != "aggregate_as" by { assert |"aggregate_as"| == 12 && |"count_distinct"| == 14; }
    ArgumentRowsPreserved(eng, Source(c), args);
    if item.alias.None? && (args != [] || symbol != "count_distinct") {
      AggregateNamesAgree(symbol, args);
    }
  }

  /** Names and columns of the aggregates of a list, in order. */
  function AggregateNames(items: seq<Item>): seq<string> {
    if items == [] then []
    else
      var n := |items| - 1;
      AggregateNames(items[..n]) + if IsAggregate(items[n].expr) then [ItemName(items[n])] else []
  }

  function AggregateColumns(eng: Engine, c: Carrier, items: seq<Item>): (cols: seq<Column>)
    ensures |cols| == |AggregateNames(items)| && forall k :: 0 <= k < |cols| ==> |cols[k]| == |MembersOf(c)|
  {
    if items == [] then []
    else
      var n := |items| - 1;
      AggregateColumns(eng, c, items[..n])
      + if IsAggregate(items[n].expr) then [AggregateColumn(eng, c, items[n].expr)] else []
  }

  /** An aggregate's name differs from the key names and from every earlier item's name, no earlier plain item
      mentions it, and both layers agree on it. */
  predicate AggregatesApart(keys: seq<string>, items: seq<Item>) {
    && (forall j {:trigger AggregateFits(keys, items[j])} :: 0 <= j < |items| ==> AggregateFits(keys, items[j]))
    && (forall i, j {:trigger KeepsClear(items[i], ItemName(items[j]))} ::
          0 <= i < j < |items| && IsAggregate(items[j].expr) ==> KeepsClear(items[i], ItemName(items[j])))
  }

  predicate AggregateFits(keys: seq<string>, item: Item) {
    IsAggregate(item.expr) ==> ItemName(item) !in keys && SameLayerName(item)
  }

  predicate KeepsClear(item: Item, name: string) {
    ItemName(item) != name && (!IsAggregate(item.expr) ==> name !in Mentions(item.expr))
  }

  /** Both layers agree on the names of the list's aggregates. */
  predicate LayersAgree(items: seq<Item>) {
    forall j {:trigger AggregateFits([], items[j])} :: 0 <= j < |items| ==> AggregateFits([], items[j])
  }

  lemma {:induction false} MeasuresPreserved(eng: Engine, c: Carrier, items: seq<Item>)
    requires LowerAggregateItems(items).Ok? && LayersAgree(items)
    ensures Chains.MeasureNames(LowerAggregateItems(items).value.0) == AggregateNames(items)
    ensures Chains.MeasureColumns(eng, c, LowerAggregateItems(items).value.0) == AggregateColumns(eng, c, items)
    decreases |items|
  {
    if items != [] {
      var n := |items| - 1;
      var front, last := LowerAggregateItems(items[..n]).value.0, LowerAggregateItem(items[n]).value.0;
      LayersFront(items);
      MeasuresPreserved(eng, c, items[..n]);
      if IsAggregate(items[n].expr) {
        assert AggregateFits([], items[n]);
        MeasurePreserved(eng, c, items[n]);
        assert last == [last[0]];
        MeasureAppend(eng, c, front, last[0]);
      } else {
        assert front + last == front;
      }
    }
  }

  lemma LayersFront(items: seq<Item>)
    requires items != [] && LayersAgree(items)
    ensures LayersAgree(items[..|items| - 1])
  {
    var front := items[..|items| - 1];
    forall j | 0 <= j < |front| ensures AggregateFits([], front[j]) {
      assert AggregateFits([], items[j]);
    }
  }

  lemma ApartLayers(keys: seq<string>, items: seq<Item>)
    requires AggregatesApart(keys, items)
    ensures LayersAgree(items)
  {
    forall j | 0 <= j < |items| ensures AggregateFits([], items[j]) {
      assert AggregateFits(keys, items[j]);
    }
  }

  lemma MeasureAppend(eng: Engine, c: Carrier, front: seq<Expr>, last: Expr)
    ensures Chains.MeasureNames(front + [last]) == Chains.MeasureNames(front) + [Chains.MeasureName(last)]
    ensures Chains.MeasureColumns(eng, c, front + [last])
         == Chains.MeasureColumns(eng, c, front) + [Chains.MeasureColumn(eng, c, last)]
  {
  }

  lemma ApartFront(keys: seq<string>, items: seq<Item>)
    requires items != [] && AggregatesApart(keys, items)
    ensures AggregatesApart(keys, items[..|items| - 1])
  {
    var front := items[..|items| - 1];
    forall j | 0 <= j < |front| ensures AggregateFits(keys, front[j]) {
      assert AggregateFits(keys, items[j]);
    }
    forall i, j | 0 <= i < j < |front| && IsAggregate(front[j].expr) ensures KeepsClear(front[i], ItemName(front[j])) {
      assert KeepsClear(items[i], ItemName(items[j]));
    }
  }

  /** The last item's aggregate name is new to the keys and to all earlier aggregates. */
  lemma LastIsNew(keys: seq<string>, items: seq<Item>)
    requires items != [] && AggregatesApart(keys, items) && IsAggregate(items[|items| - 1].expr)
    ensures ItemName(items[|items| - 1]) !in keys + AggregateNames(items[..|items| - 1])
  {
    var n := |items| - 1;
    assert AggregateFits(keys, items[n]);
    AggregateNamesKnown(items[..n], ItemName(items[n]));
    forall i | 0 <= i < n ensures ItemName(items[..n][i]) != ItemName(items[n]) {
      assert KeepsClear(items[i], ItemName(items[n]));
    }
  }

  /** How many aggregates stand in front of item j. */
  function AggregatePosition(items: seq<Item>, j: nat): (p: nat)
    requires j < |items| && IsAggregate(items[j].expr)
    ensures p < |AggregateNames(items)|
    decreases |items|
  {
    var n := |items| - 1;
    if j < n then AggregatePosition(items[..n], j) else |AggregateNames(items[..n])|
  }

  /** Every aggregate's name is first found at its own position behind the keys. */
  lemma {:induction false} AggregateIndex(keys: seq<string>, items: seq<Item>, j: nat)
    requires AggregatesApart(keys, items) && j < |items| && IsAggregate(items[j].expr)
    ensures FirstIndex(keys + AggregateNames(items), ItemName(items[j])) == |keys| + AggregatePosition(items, j)
    decreases |items|
  {
    var n := |items| - 1;
    if j < n {
      ApartFront(keys, items);
      AggregateIndex(keys, items[..n], j);
      IndexStays(keys, AggregateNames(items[..n]), if IsAggregate(items[n].expr) then [ItemName(items[n])] else [],
                 ItemName(items[j]));
    } else {
      LastIsNew(keys, items);
      IndexOfLast(keys, AggregateNames(items[..n]), ItemName(items[n]));
    }
  }

  lemma {:induction false} AggregateColumnAt(eng: Engine, c: Carrier, items: seq<Item>, j: nat)
    requires j < |items| && IsAggregate(items[j].expr)
    ensures AggregateColumns(eng, c, items)[AggregatePosition(items, j)] == AggregateColumn(eng, c, items[j].expr)
    decreases |items|
  {
    var n := |items| - 1;
    if j < n {
      AggregateColumnAt(eng, c, items[..n], j);
    }
  }

  lemma IndexStays(keys: seq<string>, front: seq<string>, last: seq<string>, name: string)
    requires FirstIndex(keys + front, name) >= 0
    ensures FirstIndex(keys + (front + last), name) == FirstIndex(keys + front, name)
  {
    assert keys + (front + last) == (keys + front) + last;
    FirstIndexAppend(keys + front, last, name);
  }

  lemma IndexOfLast(keys: seq<string>, front: seq<string>, name: string)
    requires name !in keys + front
    ensures FirstIndex(keys + (front + [name]), name) == |keys| + |front|
  {
    assert keys + (front + [name]) == (keys + front) + [name];
    FirstIndexIs(keys + (front + [name]), name, |keys| + |front|);
  }

  /** `x` is the name of one of the aggregates. */
  predicate NamesAggregate(items: seq<Item>, x: string) {
    exists j :: 0 <= j < |items| && IsAggregate(items[j].expr) && ItemName(items[j]) == x
  }

  lemma {:induction false} AggregateNamesKnown(items: seq<Item>, x: string)
    ensures x in AggregateNames(items) <==> NamesAggregate(items, x)
    decreases |items|
  {
    if items != [] {
      var n := |items| - 1;
      AggregateNamesKnown(items[..n], x);
      if NamesAggregate(items[..n], x) {
        var j :| 0 <= j < n && IsAggregate(items[..n][j].expr) && ItemName(items[..n][j]) == x;
        assert IsAggregate(items[j].expr);
      }
      if NamesAggregate(items, x) {
        var j :| 0 <= j < |items| && IsAggregate(items[j].expr) && ItemName(items[j]) == x;
        assert j < n ==> items[..n][j] == items[j];
      }
    }
  }

  // ----- what the chain finds for an item -----

  lemma BoundColumn(f: Frame, name: string, col: Column, x: string)
    requires |col| == f.table.count
    ensures ColumnOf(Bound(f, name, col), x) == if x == name then col else ColumnOf(f, x)
  {
    if name !in f.names {
      FirstIndexAppend(f.names, [name], x);
    }
  }

  /** The columns the chain's measures put behind a frame. */
  function WithMeasures(eng: Engine, c: Carrier, f: Frame, ms: seq<Expr>): Frame
    requires f.table.count == |MembersOf(c)|
  {
    RawFrame(f.names + Chains.MeasureNames(ms), WithColumns(f.table, Chains.MeasureColumns(eng, c, ms)))
  }

  /** The clause's scope in front of item k, with every measure of the list in view behind it. */
  function InView(eng: Engine, c: Carrier, items: seq<Item>, k: nat): Frame
    requires LowerAggregateItems(items).Ok? && k <= |items|
  {
    WithMeasures(eng, c, Scope(eng, c, Heads(c), items[..k]), LowerAggregateItems(items).value.0)
  }

  /** An item's column as the chain reads it: an aggregate is looked up by its name. */
  function ChainColumn(eng: Engine, t: Frame, item: Item): (c: Column)
    ensures |c| == t.table.count
  {
    if IsAggregate(item.expr) then ColumnOf(t, ItemName(item)) else SurfaceColumn(eng, t, item.expr)
  }

  /** With the measures in view, item k still gets the column the clause gives it. */
  predicate Undisturbed(eng: Engine, c: Carrier, items: seq<Item>, k: nat)
    requires LowerAggregateItems(items).Ok? && k < |items|
  {
    ChainColumn(eng, InView(eng, c, items, k), items[k])
      == ItemColumn(eng, c, Scope(eng, c, Heads(c), items[..k]), items[k])
  }

  /** No item in front of k is disturbed. */
  predicate NoneDisturbed(eng: Engine, c: Carrier, items: seq<Item>, k: nat)
    requires LowerAggregateItems(items).Ok? && k <= |items|
  {
    forall n {:trigger Undisturbed(eng, c, items, n)} :: 0 <= n < k ==> Undisturbed(eng, c, items, n)
  }

  lemma NoneDisturbedNext(eng: Engine, c: Carrier, items: seq<Item>, k: nat)
    requires LowerAggregateItems(items).Ok? && k < |items|
    ensures NoneDisturbed(eng, c, items, k + 1) <==> NoneDisturbed(eng, c, items, k) && Undisturbed(eng, c, items, k)
  {
  }

  ghost predicate SameColumns(s: Frame, t: Frame) {
    s.table.count == t.table.count && forall x :: ColumnOf(s, x) == ColumnOf(t, x)
  }

  lemma SameChainColumn(eng: Engine, s: Frame, t: Frame, item: Item)
    requires SameColumns(s, t)
    ensures ChainColumn(eng, s, item) == ChainColumn(eng, t, item)
  {
    if !IsAggregate(item.expr) {
      ColumnDepends(eng, s, t, item.expr);
    }
  }

  lemma BehindColumn(eng: Engine, c: Carrier, f: Frame, ms: seq<Expr>, x: string)
    requires f.table.count == |MembersOf(c)|
    ensures x in f.names ==> ColumnOf(WithMeasures(eng, c, f, ms), x) == ColumnOf(f, x)
    ensures x !in f.names && x !in Chains.MeasureNames(ms) ==> ColumnOf(WithMeasures(eng, c, f, ms), x) == ColumnOf(f, x)
    ensures x !in f.names && x in Chains.MeasureNames(ms) ==>
      var i := FirstIndex(Chains.MeasureNames(ms), x);
      ColumnOf(WithMeasures(eng, c, f, ms), x) == Chains.MeasureColumns(eng, c, ms)[i]
  {
    FirstIndexAppend(f.names, Chains.MeasureNames(ms), x);
  }

  /** Binding a name in front of the measures is binding it with them in view. */
  lemma BindInView(eng: Engine, c: Carrier, s: Frame, t: Frame, ms: seq<Expr>, name: string, col: Column)
    requires s.table.count == |MembersOf(c)| == |col| && SameColumns(t, WithMeasures(eng, c, s, ms))
    ensures SameColumns(Bound(t, name, col), WithMeasures(eng, c, Bound(s, name, col), ms))
  {
    var next := Bound(s, name, col);
    forall x ensures ColumnOf(Bound(t, name, col), x) == ColumnOf(WithMeasures(eng, c, next, ms), x) {
      BoundColumn(t, name, col, x);
      BoundColumn(s, name, col, x);
      BehindColumn(eng, c, s, ms, x);
      BehindColumn(eng, c, next, ms, x);
    }
  }

  // ----- the chain's bindings, item by item -----

  lemma ColCallColumn(eng: Engine, f: Frame, name: string)
    ensures Chains.LoweredColumn(eng, f, ColCall(name)) == ColumnOf(f, name)
  {
    forall j | 0 <= j < f.table.count
      ensures Lowered(eng, f.names, RowAt(f.table, j), ColCall(name)) == ColumnOf(f, name)[j]
    {
      ColCallValue(eng, f.names, RowAt(f.table, j), name);
    }
  }

  lemma {:induction false} LoweredItemAt(items: seq<Item>, k: nat)
    requires LowerAggregateItems(items).Ok? && k < |items|
    ensures LowerAggregateItem(items[k]).Ok?
    ensures LowerAggregateItems(items).value.1[k] == LowerAggregateItem(items[k]).value.1
    decreases |items|
  {
    var n := |items| - 1;
    if k < n {
      LoweredItemAt(items[..n], k);
    }
  }

  lemma ScopeNext(eng: Engine, c: Carrier, items: seq<Item>, k: nat)
    requires k < |items|
    ensures var s := Scope(eng, c, Heads(c), items[..k]);
            var col := ItemColumn(eng, c, s, items[k]);
            && Scope(eng, c, Heads(c), items[..k + 1]) == Bound(s, ItemName(items[k]), col)
            && Outputs(eng, c, Heads(c), items[..k + 1]) == Outputs(eng, c, Heads(c), items[..k]) + [col]
  {
    assert items[..k + 1][..k] == items[..k];
  }

  /** A lowered item assigns its name the column the chain reads. */
  lemma LoweredColumnIs(eng: Engine, t: Frame, item: Item)
    requires LowerAggregateItem(item).Ok?
    ensures var lowered := LowerAggregateItem(item).value.1;
            && Chains.AssignedName(lowered) == ItemName(item)
            && Chains.AssignedColumn(eng, t, lowered) == ChainColumn(eng, t, item)
  {
    if IsAggregate(item.expr) {
      ColCallColumn(eng, t, ItemName(item));
    } else {
      AssignmentPreserved(eng, t, item);
    }
  }

  lemma AssignedNext(eng: Engine, t: Frame, lowered: seq<Expr>, n: nat)
    requires n < |lowered|
    ensures var b := Chains.Bindings(eng, t, lowered[..n]);
            var col := Chains.AssignedColumn(eng, b, lowered[n]);
            && Chains.Bindings(eng, t, lowered[..n + 1]) == Bound(b, Chains.AssignedName(lowered[n]), col)
            && Chains.Assigned(eng, t, lowered[..n + 1]) == Chains.Assigned(eng, t, lowered[..n]) + [col]
  {
    assert lowered[..n + 1] == lowered[..n] + [lowered[n]];
    BindingsAppend(eng, t, lowered[..n], lowered[n]);
  }

  /** The frame an `agg` of the list's measures leaves: their names and columns behind the group keys. */
  function Aggregates(eng: Engine, c: Carrier, items: seq<Item>): Frame
    requires LowerAggregateItems(items).Ok?
  {
    WithMeasures(eng, c, Heads(c), LowerAggregateItems(items).value.0)
  }

  function LoweredAssignments(items: seq<Item>): seq<Expr>
    requires LowerAggregateItems(items).Ok?
  {
    LowerAggregateItems(items).value.1
  }

  /** While nothing is disturbed, the chain's bindings are the clause's scope with the measures in view. */
  lemma {:induction false} BindingsInView(eng: Engine, c: Carrier, items: seq<Item>, k: nat)
    requires LowerAggregateItems(items).Ok? && k <= |items| && NoneDisturbed(eng, c, items, k)
    ensures SameColumns(Chains.Bindings(eng, Aggregates(eng, c, items), LoweredAssignments(items)[..k]),
                        InView(eng, c, items, k))
    decreases k
  {
    if k > 0 {
      NoneDisturbedNext(eng, c, items, k - 1);
      BindingsInView(eng, c, items, k - 1);
      BindingNext(eng, c, items, k - 1);
    }
  }

  /** An undisturbed item keeps them in view. */
  lemma {:induction false} BindingNext(eng: Engine, c: Carrier, items: seq<Item>, k: nat)
    requires LowerAggregateItems(items).Ok? && k < |items| && Undisturbed(eng, c, items, k)
    requires SameColumns(Chains.Bindings(eng, Aggregates(eng, c, items), LoweredAssignments(items)[..k]),
                         InView(eng, c, items, k))
    ensures SameColumns(Chains.Bindings(eng, Aggregates(eng, c, items), LoweredAssignments(items)[..k + 1]),
                        InView(eng, c, items, k + 1))
  {
    ReadInView(eng, c, items, k);
    AssignedNext(eng, Aggregates(eng, c, items), LoweredAssignments(items), k);
    ScopeNext(eng, c, items, k);
    BindInView(eng, c, Scope(eng, c, Heads(c), items[..k]),
               Chains.Bindings(eng, Aggregates(eng, c, items), LoweredAssignments(items)[..k]),
               LowerAggregateItems(items).value.0, ItemName(items[k]),
               ItemColumn(eng, c, Scope(eng, c, Heads(c), items[..k]), items[k]));
  }

  /** What the chain reads for item k while its bindings are in view. */
  lemma ReadInView(eng: Engine, c: Carrier, items: seq<Item>, k: nat)
    requires LowerAggregateItems(items).Ok? && k < |items|
    requires SameColumns(Chains.Bindings(eng, Aggregates(eng, c, items), LoweredAssignments(items)[..k]),
                         InView(eng, c, items, k))
    ensures var lowered := LoweredAssignments(items);
            var b := Chains.Bindings(eng, Aggregates(eng, c, items), lowered[..k]);
            && Chains.AssignedName(lowered[k]) == ItemName(items[k])
            && Chains.AssignedColumn(eng, b, lowered[k]) == ChainColumn(eng, InView(eng, c, items, k), items[k])
  {
    var b := Chains.Bindings(eng, Aggregates(eng, c, items), LoweredAssignments(items)[..k]);
    LoweredItemAt(items, k);
    LoweredColumnIs(eng, b, items[k]);
    SameChainColumn(eng, b, InView(eng, c, items, k), items[k]);
  }

  lemma NamesAgree(items: seq<Item>)
    requires LowerAggregateItems(items).Ok?
    ensures Chains.AssignedNames(LoweredAssignments(items)) == ItemNames(items)
  {
    forall n | 0 <= n < |items| ensures Chains.AssignedName(LoweredAssignments(items)[n]) == ItemName(items[n]) {
      LoweredItemAt(items, n);
    }
  }

  // ----- the columns that come out -----

  /** One entry is put behind the first j. */
  predicate Grows(lists: seq<seq<Column>>, entries: seq<Column>, j: nat)
    requires j < |entries| && |lists| == |entries| + 1
  {
    |lists[j]| == j && lists[j + 1] == lists[j] + [entries[j]]
  }

  lemma {:induction false} GrownAt(lists: seq<seq<Column>>, entries: seq<Column>, n: nat, k: nat)
    requires |lists| == |entries| + 1 && n < k <= |entries|
    requires forall j {:trigger Grows(lists, entries, j)} :: 0 <= j < |entries| ==> Grows(lists, entries, j)
    ensures |lists[k]| == k && lists[k][n] == entries[n]
    decreases k
  {
    assert Grows(lists, entries, k - 1);
    if n < k - 1 {
      GrownAt(lists, entries, n, k - 1);
    }
  }

  lemma AssignedAt(eng: Engine, t: Frame, lowered: seq<Expr>, n: nat)
    requires n < |lowered|
    ensures Chains.Assigned(eng, t, lowered)[n]
         == Chains.AssignedColumn(eng, Chains.Bindings(eng, t, lowered[..n]), lowered[n])
  {
    var lists := seq(|lowered| + 1, j requires 0 <= j <= |lowered| => Chains.Assigned(eng, t, lowered[..j]));
    var entries := seq(|lowered|, j requires 0 <= j < |lowered| =>
      Chains.AssignedColumn(eng, Chains.Bindings(eng, t, lowered[..j]), lowered[j]));
    forall j | 0 <= j < |lowered| ensures Grows(lists, entries, j) {
      AssignedNext(eng, t, lowered, j);
    }
    GrownAt(lists, entries, n, |lowered|);
    assert lowered[..|lowered|] == lowered;
  }

  lemma OutputAt(eng: Engine, c: Carrier, items: seq<Item>, n: nat)
    requires n < |items|
    ensures Outputs(eng, c, Heads(c), items)[n]
         == ItemColumn(eng, c, Scope(eng, c, Heads(c), items[..n]), items[n])
  {
    var lists := seq(|items| + 1, j requires 0 <= j <= |items| => Outputs(eng, c, Heads(c), items[..j]));
    var entries := seq(|items|, j requires 0 <= j < |items| =>
      ItemColumn(eng, c, Scope(eng, c, Heads(c), items[..j]), items[j]));
    forall j | 0 <= j < |items| ensures Grows(lists, entries, j) {
      ScopeNext(eng, c, items, j);
    }
    GrownAt(lists, entries, n, |items|);
    assert items[..|items|] == items;
  }

  /** While nothing before it is disturbed, item n comes out as written exactly when it is not disturbed either. */
  lemma ColumnDecides(eng: Engine, c: Carrier, items: seq<Item>, n: nat)
    requires LowerAggregateItems(items).Ok? && n < |items| && NoneDisturbed(eng, c, items, n)
    ensures Chains.Assigned(eng, Aggregates(eng, c, items), LoweredAssignments(items))[n]
              == Outputs(eng, c, Heads(c), items)[n]
        <==> Undisturbed(eng, c, items, n)
  {
    AssignedAt(eng, Aggregates(eng, c, items), LoweredAssignments(items), n);
    OutputAt(eng, c, items, n);
    BindingsInView(eng, c, items, n);
    ReadInView(eng, c, items, n);
  }

  predicate AllBefore(passes: seq<bool>, k: nat)
    requires k <= |passes|
  {
    forall m :: 0 <= m < k ==> passes[m]
  }

  /** With everything before n passing, the lists agree at n exactly when n passes. */
  predicate Decides(a: seq<Column>, b: seq<Column>, passes: seq<bool>, n: nat)
    requires n < |a| == |b| == |passes|
  {
    AllBefore(passes, n) ==> (a[n] == b[n] <==> passes[n])
  }

  /** Two lists decided entry by entry are equal exactly when everything passes. */
  lemma {:induction false} PassesDecide(a: seq<Column>, b: seq<Column>, passes: seq<bool>, k: nat)
    requires |a| == |b| == |passes| && k <= |a|
    requires forall n {:trigger Decides(a, b, passes, n)} :: 0 <= n < |a| ==> Decides(a, b, passes, n)
    ensures a[..k] == b[..k] <==> AllBefore(passes, k)
    decreases k
  {
    if k > 0 {
      PassesDecide(a, b, passes, k - 1);
      assert Decides(a, b, passes, k - 1);
      assert a[..k] == a[..k - 1] + [a[k - 1]] && b[..k] == b[..k - 1] + [b[k - 1]];
      LastDecides(a[..k - 1], b[..k - 1], a[k - 1], b[k - 1]);
    }
  }

  lemma LastDecides(a: seq<Column>, b: seq<Column>, x: Column, y: Column)
    requires |a| == |b|
    ensures a + [x] == b + [y] <==> a == b && x == y
  {
    if a + [x] == b + [y] {
      assert (a + [x])[..|a|] == a && (b + [y])[..|b|] == b;
      assert (a + [x])[|a|] == x && (b + [y])[|b|] == y;
    }
  }

  function Passes(eng: Engine, c: Carrier, items: seq<Item>): (passes: seq<bool>)
    requires LowerAggregateItems(items).Ok?
    ensures |passes| == |items|
    ensures forall n {:trigger passes[n]} :: 0 <= n < |items| ==> passes[n] == Undisturbed(eng, c, items, n)
  {
    seq(|items|, n requires 0 <= n < |items| => Undisturbed(eng, c, items, n))
  }

  /** The chain's columns are the clause's exactly when nothing is disturbed. */
  lemma OutputsAgreeExactly(eng: Engine, c: Carrier, items: seq<Item>)
    requires LowerAggregateItems(items).Ok?
    ensures Chains.Assigned(eng, Aggregates(eng, c, items), LoweredAssignments(items)) == Outputs(eng, c, Heads(c), items)
        <==> NoneDisturbed(eng, c, items, |items|)
  {
    var a, b := Chains.Assigned(eng, Aggregates(eng, c, items), LoweredAssignments(items)), Outputs(eng, c, Heads(c), items);
    var passes := Passes(eng, c, items);
    forall n | 0 <= n < |items| ensures Decides(a, b, passes, n) {
      PassesBefore(eng, c, items, n);
      if NoneDisturbed(eng, c, items, n) {
        ColumnDecides(eng, c, items, n);
      }
    }
    PassesDecide(a, b, passes, |items|);
    PassesBefore(eng, c, items, |items|);
    assert a[..|items|] == a && b[..|items|] == b;
  }

  lemma PassesBefore(eng: Engine, c: Carrier, items: seq<Item>, k: nat)
    requires LowerAggregateItems(items).Ok? && k <= |items|
    ensures AllBefore(Passes(eng, c, items), k) <==> NoneDisturbed(eng, c, items, k)
  {
    var passes := Passes(eng, c, items);
    if AllBefore(passes, k) {
      forall n | 0 <= n < k ensures Undisturbed(eng, c, items, n) {
        assert passes[n];
      }
    }
  }

  // ----- SELECT as one carrier operation -----

  /** Main result on aggregate lists: the measures-first chain yields the written list exactly when no item is disturbed,
      each one still getting its own column with the measures in view behind the names bound before it. */
  lemma AggregateProjectionExactly(eng: Engine, c: Carrier, items: seq<Item>)
    requires LowerAggregateItems(items).Ok? && AnyAggregate(items)
    ensures var lowered := LowerAggregateItems(items).value;
            Chains.SelectCarrier(eng, Chains.AggCarrier(eng, c, lowered.0), lowered.1)
              == Ordinary(Projection(eng, c, items))
            <==> NoneDisturbed(eng, c, items, |items|)
  {
    ChainProjection(eng, c, items);
    OutputsAgreeExactly(eng, c, items);
  }

  lemma ChainProjection(eng: Engine, c: Carrier, items: seq<Item>)
    requires LowerAggregateItems(items).Ok? && AnyAggregate(items)
    ensures var lowered := LowerAggregateItems(items).value;
            Chains.SelectCarrier(eng, Chains.AggCarrier(eng, c, lowered.0), lowered.1)
              == Ordinary(RawFrame(ItemNames(items),
                   RawTable(Heads(c).table.count, Chains.Assigned(eng, Aggregates(eng, c, items), lowered.1))))
  {
    var lowered := LowerAggregateItems(items).value;
    assert Chains.AggCarrier(eng, c, lowered.0) == Ordinary(Aggregates(eng, c, items));
    NamesAgree(items);
    assert |lowered.1| == |ItemNames(items)|;
  }

  /** Binding a list of items adds its names. */
  lemma {:induction false} ScopeInserts(eng: Engine, c: Carrier, f: Frame, items: seq<Item>)
    requires QueryMeaning.Fits(c, f, items)
    ensures Scope(eng, c, f, items).names == InsertAll(f.names, ItemNames(items))
    decreases |items|
  {
    if items != [] {
      var n := |items| - 1;
      FitsFront(c, f, items);
      ScopeInserts(eng, c, f, items[..n]);
      ItemNamesInsert(f.names, items);
    }
  }

  lemma ItemNamesInsert(names: seq<string>, items: seq<Item>)
    requires items != []
    ensures var n := |items| - 1;
            InsertAll(names, ItemNames(items)) == Insert(InsertAll(names, ItemNames(items[..n])), ItemName(items[n]))
  {
    var n := |items| - 1;
    var front := ItemNames(items[..n]);
    assert ItemNames(items) == front + [ItemName(items[n])];
    InsertAllAppend(names, front, [ItemName(items[n])]);
    InsertAllOne(InsertAll(names, front), ItemName(items[n]));
  }

  /** The names in front of item k: the group keys and the items before it. */
  lemma ScopeNames(eng: Engine, c: Carrier, items: seq<Item>, k: nat, x: string)
    requires k <= |items|
    ensures x in Scope(eng, c, Heads(c), items[..k]).names
        <==> x in KeyNames(c) || exists p :: 0 <= p < k && ItemName(items[p]) == x
  {
    var names := ItemNames(items[..k]);
    ScopeInserts(eng, c, Heads(c), items[..k]);
    InsertAllFacts(KeyNames(c), names);
    forall p | 0 <= p < k ensures names[p] == ItemName(items[p]) {
    }
  }

  lemma AggregateUndisturbed(eng: Engine, c: Carrier, items: seq<Item>, k: nat)
    requires LowerAggregateItems(items).Ok? && AggregatesApart(KeyNames(c), items)
    requires k < |items| && IsAggregate(items[k].expr)
    ensures Undisturbed(eng, c, items, k)
  {
    var s, name := Scope(eng, c, Heads(c), items[..k]), ItemName(items[k]);
    var ms := LowerAggregateItems(items).value.0;
    ApartLayers(KeyNames(c), items);
    MeasuresPreserved(eng, c, items);
    ScopeNames(eng, c, items, k, name);
    assert AggregateFits(KeyNames(c), items[k]);
    forall p | 0 <= p < k ensures ItemName(items[p]) != name {
      assert KeepsClear(items[p], ItemName(items[k]));
    }
    MeasureFound(eng, c, items, k);
    BehindColumn(eng, c, s, ms, name);
  }

  /** Among the measures, an aggregate is found under its own name. */
  lemma MeasureFound(eng: Engine, c: Carrier, items: seq<Item>, k: nat)
    requires AggregatesApart(KeyNames(c), items) && k < |items| && IsAggregate(items[k].expr)
    ensures ItemName(items[k]) in AggregateNames(items)
    ensures AggregateColumns(eng, c, items)[FirstIndex(AggregateNames(items), ItemName(items[k]))]
         == AggregateColumn(eng, c, items[k].expr)
  {
    var name := ItemName(items[k]);
    AggregateNamesKnown(items, name);
    assert AggregateFits(KeyNames(c), items[k]);
    AggregateIndex(KeyNames(c), items, k);
    FirstIndexAppend(KeyNames(c), AggregateNames(items), name);
    AggregateColumnAt(eng, c, items, k);
  }

  lemma ClearBefore(keys: seq<string>, items: seq<Item>, k: nat, j: nat)
    requires AggregatesApart(keys, items) && k < j < |items| && IsAggregate(items[j].expr)
    requires !IsAggregate(items[k].expr)
    ensures ItemName(items[j]) !in Mentions(items[k].expr)
  {
    assert KeepsClear(items[k], ItemName(items[j]));
  }

  /** An aggregate's name that a plain item mentions is bound in front of it. */
  lemma MentionClear(eng: Engine, c: Carrier, items: seq<Item>, k: nat, x: string)
    requires LowerAggregateItems(items).Ok? && AggregatesApart(KeyNames(c), items)
    requires k < |items| && !IsAggregate(items[k].expr) && x in Mentions(items[k].expr) && NamesAggregate(items, x)
    ensures x in Scope(eng, c, Heads(c), items[..k]).names
  {
    ScopeNames(eng, c, items, k, x);
    forall j | k < j < |items| && IsAggregate(items[j].expr)
      ensures ItemName(items[j]) !in Mentions(items[k].expr)
    {
      ClearBefore(KeyNames(c), items, k, j);
    }
  }

  lemma MentionInView(eng: Engine, c: Carrier, items: seq<Item>, k: nat, x: string)
    requires LowerAggregateItems(items).Ok? && AggregatesApart(KeyNames(c), items)
    requires k < |items| && !IsAggregate(items[k].expr) && x in Mentions(items[k].expr)
    ensures ColumnOf(InView(eng, c, items, k), x) == ColumnOf(Scope(eng, c, Heads(c), items[..k]), x)
  {
    var s, ms := Scope(eng, c, Heads(c), items[..k]), LowerAggregateItems(items).value.0;
    ApartLayers(KeyNames(c), items);
    MeasuresPreserved(eng, c, items);
    AggregateNamesKnown(items, x);
    BehindColumn(eng, c, s, ms, x);
    if NamesAggregate(items, x) {
      MentionClear(eng, c, items, k, x);
    }
  }

  lemma PlainUndisturbed(eng: Engine, c: Carrier, items: seq<Item>, k: nat)
    requires LowerAggregateItems(items).Ok? && AggregatesApart(KeyNames(c), items)
    requires k < |items| && !IsAggregate(items[k].expr)
    ensures Undisturbed(eng, c, items, k)
  {
    var s, t := Scope(eng, c, Heads(c), items[..k]), InView(eng, c, items, k);
    forall x | x in Mentions(items[k].expr) ensures ColumnOf(t, x) == ColumnOf(s, x) {
      MentionInView(eng, c, items, k, x);
    }
    ColumnDepends(eng, t, s, items[k].expr);
  }

  /** Where the aggregates' names stay apart nothing is disturbed. */
  lemma AggregateProjectionPreserved(eng: Engine, c: Carrier, items: seq<Item>)
    requires LowerAggregateItems(items).Ok? && AnyAggregate(items) && AggregatesApart(KeyNames(c), items)
    ensures var lowered := LowerAggregateItems(items).value;
            Chains.SelectCarrier(eng, Chains.AggCarrier(eng, c, lowered.0), lowered.1)
              == Ordinary(Projection(eng, c, items))
  {
    forall k | 0 <= k < |items| ensures Undisturbed(eng, c, items, k) {
      if IsAggregate(items[k].expr) {
        AggregateUndisturbed(eng, c, items, k);
      } else {
        PlainUndisturbed(eng, c, items, k);
      }
    }
    AggregateProjectionExactly(eng, c, items);
  }

  lemma PlainProjectionPreserved(eng: Engine, c: Carrier, items: seq<Item>)
    requires LowerPlainItems(items).Ok? && !AnyAggregate(items) && items != []
    ensures Chains.SelectCarrier(eng, c, LowerPlainItems(items).value) == Ordinary(Projection(eng, c, items))
  {
    PlainItemsPreserved(eng, c, Flat(c), items);
  }

  lemma {:induction false} OutputColumnAt(items: seq<Item>, k: nat)
    requires SelectOutputColumns(items).Ok? && k < |items|
    requires forall j :: 0 <= j < |items| && IsAggregate(items[j].expr) ==> items[j].alias.Some?
    ensures SelectOutputColumns(items).value[k] == ColCall(ItemName(items[k]))
    decreases |items|
  {
    var n := |items| - 1;
    if k < n {
      OutputColumnAt(items[..n], k);
    }
  }

  lemma {:induction false} OutputAliased(items: seq<Item>, k: nat)
    requires SelectOutputColumns(items).Ok? && k < |items| && IsAggregate(items[k].expr)
    ensures items[k].alias.Some?
    decreases |items|
  {
    var n := |items| - 1;
    if k < n {
      OutputAliased(items[..n], k);
    }
  }

  /** The frame a DISTINCT list leaves: grouped by its output columns, looked up by name. */
  function Regrouped(eng: Engine, p: Frame, items: seq<Item>): Carrier
    requires SelectOutputColumns(items).Ok?
  {
    var es := SelectOutputColumns(items).value;
    Grouped(p, Chains.GroupColumnNames(es), Chains.LoweredColumns(eng, p, es))
  }

  /** Every column is the first one of its name. */
  predicate FirstOfTheirNames(p: Frame) {
    forall k :: 0 <= k < |p.names| ==> ColumnOf(p, p.names[k]) == p.table.cols[k]
  }

  lemma RegroupedKeys(eng: Engine, p: Frame, items: seq<Item>)
    requires SelectOutputColumns(items).Ok? && p.names == ItemNames(items)
    ensures KeyNames(Regrouped(eng, p, items)) == p.names
    ensures KeyCols(Regrouped(eng, p, items)) == seq(|p.names|, k requires 0 <= k < |p.names| => ColumnOf(p, p.names[k]))
  {
    var es := SelectOutputColumns(items).value;
    forall k | 0 <= k < |items| && IsAggregate(items[k].expr) ensures items[k].alias.Some? {
      OutputAliased(items, k);
    }
    forall k | 0 <= k < |items|
      ensures Chains.GroupColumnNames(es)[k] == p.names[k]
      ensures Chains.LoweredColumns(eng, p, es)[k] == ColumnOf(p, p.names[k])
    {
      OutputColumnAt(items, k);
      ColCallColumn(eng, p, p.names[k]);
    }
  }

  /** Grouping by all output columns leaves one row per distinct row exactly when every column is the first of its
      name. */
  lemma DistinctExactly(eng: Engine, p: Frame, items: seq<Item>)
    requires SelectOutputColumns(items).Ok? && items != [] && p.names == ItemNames(items)
    ensures Flat(Regrouped(eng, p, items)) == RawFrame(p.names, Dedupe(p.table)) <==> FirstOfTheirNames(p)
  {
    RegroupedKeys(eng, p, items);
    if FirstOfTheirNames(p) {
      assert KeyCols(Regrouped(eng, p, items)) == p.table.cols;
      GroupingAllColumnsDedupes(p.table);
    } else {
      var k :| 0 <= k < |p.names| && ColumnOf(p, p.names[k]) != p.table.cols[k];
      HiddenColumn(eng, p, items, k);
    }
  }

  /** A column hidden behind an earlier one of its name comes out as that one. */
  lemma HiddenColumn(eng: Engine, p: Frame, items: seq<Item>, k: nat)
    requires SelectOutputColumns(items).Ok? && items != [] && p.names == ItemNames(items)
    requires k < |p.names| && ColumnOf(p, p.names[k]) != p.table.cols[k]
    ensures Flat(Regrouped(eng, p, items)) != RawFrame(p.names, Dedupe(p.table))
  {
    var i, r := FirstIndex(p.names, p.names[k]), Regrouped(eng, p, items);
    RegroupedKeys(eng, p, items);
    var reps := Representatives(Rows(KeyCols(r), p.table.count));
    assert Flat(r).table.cols[i] == Pick(KeyCols(r)[i], reps) == Pick(KeyCols(r)[k], reps) == Flat(r).table.cols[k];
    var j :| 0 <= j < p.table.count && p.table.cols[i][j] != p.table.cols[k][j];
    DedupeExact(p.table);
    assert Shows(Dedupe(p.table), RowAt(p.table, j));
    var m :| 0 <= m < Dedupe(p.table).count && RowAt(Dedupe(p.table), m) == RowAt(p.table, j);
    assert RowAt(Dedupe(p.table), m)[i] != RowAt(Dedupe(p.table), m)[k];
    assert Dedupe(p.table).cols[i][m] != Dedupe(p.table).cols[k][m];
  }

  /** Distinct names suffice. */
  lemma DistinctPreserved(eng: Engine, p: Frame, items: seq<Item>)
    requires SelectOutputColumns(items).Ok? && items != []
    requires p.names == ItemNames(items) && Distinct(p.names)
    ensures Flat(Regrouped(eng, p, items)) == RawFrame(p.names, Dedupe(p.table))
  {
    forall k | 0 <= k < |p.names| ensures ColumnOf(p, p.names[k]) == p.table.cols[k] {
      FirstIndexIs(p.names, p.names[k], k);
    }
    DistinctExactly(eng, p, items);
  }

  lemma GroupingAllColumnsDedupes(t: Table)
    requires t.cols != []
    ensures GroupKeys(t.cols, t.count) == Dedupe(t)
  {
    var keys := Rows(t.cols, t.count);
    forall j | 0 <= j < t.count ensures keys[j] == RowAt(t, j) {
    }
    var first := seq(|keys|, j requires 0 <= j < |keys| => FirstAt(keys, j));
    forall j | 0 <= j < t.count ensures first[j] == FirstFlags(t)[j] {
      assert forall i :: 0 <= i < j ==> keys[..j][i] == RowAt(t, i);
    }
    assert first == FirstFlags(t);
    assert Representatives(keys) == Kept(FirstFlags(t));
  }
}
