/** The conditions of LineageReads on common plans, and for each condition a plan that breaks without it. */
module LineageLimits {
  import opened Names
  import opened Tables
  import opened Expressions
  import opened Plans
  import opened Wrappers
  import opened Reachability
  import opened Lineage
  import opened LineageReach
  import opened LineageReads
  import opened LineageSlices
  import opened LineageSoundness

  // ----- joins -----

  /** A predicate over unqualified left names and one right column: it is traced exactly when the right column's own name
      is among its names, or the right side repeats the left key's name. So under an alias, joins on one key name are
      traced and joins on differently named keys are not. */
  lemma EquiJoinExactly(
      left: nat, l: seq<string>, right: nat, r: seq<string>, relation: string, on: ColumnExpr, a: string, b: string)
    requires left != right && relation != "" && References(on) == {a, relation + "." + b}
    requires a in l && relation + "." + b !in l && b in r && relation + "." + b !in r
    ensures JoinTraceable(left, l, right, r, relation, on) <==> a == b || MatchCount(r, a) > 1
  {
    var q, x, o := Qualify(r, relation), relation + "." + b, FirstIndex(r, b);
    QualifiedIndex(r, relation, b);
    assert RightReads(l, q, {a, x}) == {o};
    assert RightNamed(r, x) == {};
    assert RightNamedAll(r, {a, x}) == RightNamed(r, a);
    assert MatchCount(r, a) == 1 ==> (FirstIndex(r, a) == o <==> a == b);
  }

  /** A qualified name is found where its column is. */
  lemma QualifiedIndex(r: seq<string>, relation: string, b: string)
    requires relation != "" && b in r
    ensures FirstIndex(Qualify(r, relation), relation + "." + b) == FirstIndex(r, b)
  {
    var q, x, o := Qualify(r, relation), relation + "." + b, FirstIndex(r, b);
    forall k | 0 <= k < o ensures q[k] != x {
      assert q[k][|relation| + 1..] == r[k] && x[|relation| + 1..] == b;
    }
    FirstIndexIs(q, x, o);
  }

  /** The join of the how-to guide, `LEFT JOIN rel ON .key == rel.key`, is traced, even under a more complex predicate
      over the two names. */
  lemma SameKeyTraced(
      left: nat, l: seq<string>, right: nat, r: seq<string>, relation: string, on: ColumnExpr, key: string)
    requires References(on) == {key, relation + "." + key} && key in l
    ensures JoinTraceable(left, l, right, r, relation, on)
  {
    var q, x := Qualify(r, relation), relation + "." + key;
    forall o | o in RightReads(l, q, {key, x}) ensures o in RightNamedAll(r, {key, x}) {
      assert x in q && o == FirstIndex(q, x);
      if relation == "" {
        assert o in RightNamed(r, x);
      } else {
        QualifiedMember(r, relation, key);
        QualifiedIndex(r, relation, key);
        assert o in RightNamed(r, key);
      }
    }
  }

  lemma QualifiedMember(r: seq<string>, relation: string, b: string)
    requires relation != "" && relation + "." + b in Qualify(r, relation)
    ensures b in r
  {
    var q, x := Qualify(r, relation), relation + "." + b;
    var k :| 0 <= k < |q| && q[k] == x;
    assert q[k][|relation| + 1..] == r[k] && x[|relation| + 1..] == b;
  }

  // ----- measures -----

  /** Filters and orderings over grouping keys are traced by the grouping edges. */
  lemma KeyFilterTraced(names: seq<string>, keys: seq<ColumnExpr>, m: Measure)
    requires AllReferences(MeasureInputs(m)) <= AllReferences(m.arguments) + AllReferences(keys)
    ensures MeasureTraceable(names, keys, m)
  {
    var refs := AllReferences(m.arguments) + AllReferences(keys);
    ResolvedNamed(names, refs);
    forall o | o in Resolved(names, AllReferences(MeasureInputs(m))) ensures o in Resolved(names, refs) {
    }
  }

  // ----- assignments -----

  /** Selecting a column under its own name and reading it again is traced. */
  lemma ReselectTraced(inNames: seq<string>, x: string, a: Assignment)
    ensures AllShadowsNamed(inNames, [Assignment(x, Col(x)), a])
  {
    var first, all := Assignment(x, Col(x)), [Assignment(x, Col(x)), a];
    assert all[..0] == [] && all[..1] == [first] && [first][..0] == [];
    assert References(Col(x)) == {x};
    if x in References(a.expr) {
      assert Origin(inNames, [first], x) == Reads(inNames, [], Col(x)) == Origin(inNames, [], x);
      assert Origin(inNames, [], x) <= NamedBy(inNames, x);
    }
  }

  /** Naming every shadow assignment by assignment is enough for an add-or-replace projection too. */
  lemma ShadowsBind(names: seq<string>, assignments: seq<Assignment>)
    requires AllShadowsNamed(names, assignments)
    ensures BindingsTraceable(names, assignments)
  {
    assert assignments[..|assignments|] == assignments;
    forall x | x in AssignedNames(assignments)
      ensures Origin(names, assignments, x) <= NameSources(names, assignments, x)
    {
      LastBindingNamed(names, assignments, |assignments|, x);
    }
  }

  lemma {:induction false} LastBindingNamed(names: seq<string>, all: seq<Assignment>, n: nat, x: string)
    requires n <= |all| && AllShadowsNamed(names, all) && x in AssignedNames(all[..n])
    ensures Origin(names, all[..n], x) <= NameSources(names, all, x)
    decreases n
  {
    assert all[..n][..n - 1] == all[..n - 1];
    if all[n - 1].outputName == x {
      assert all[..n - 1] == all[..n - 1];
      ReadsNamed(names, all[..n - 1], all[n - 1].expr);
      assert Named(names, all[n - 1].expr) <= NameSources(names, all, x);
    } else {
      assert AssignedNames(all[..n]) == AssignedNames(all[..n - 1]) + [all[n - 1].outputName];
      LastBindingNamed(names, all, n - 1, x);
    }
  }

  /** No item reads a name an earlier item gives. */
  predicate ItemsApart(assignments: seq<Assignment>) {
    forall j, k :: 0 <= j < k < |assignments| ==> assignments[j].outputName !in References(assignments[k].expr)
  }

  lemma ApartTraced(names: seq<string>, assignments: seq<Assignment>)
    requires ItemsApart(assignments)
    ensures AllShadowsNamed(names, assignments)
  {
    forall k | 0 <= k < |assignments| ensures ShadowsNamed(names, assignments[..k], assignments[k].expr) {
      assert forall x :: x in AssignedNames(assignments[..k]) ==> x !in References(assignments[k].expr);
    }
  }

  // ----- the sources are the least closed set -----

  least lemma SourcesMinimal(
      cat: Catalog, plan: Store, edges: seq<Edge>, tip: nat, f: nat, n: nat, o: nat, s: Fields)
    requires Influences(cat, plan, edges, tip, f, n, o)
    requires Closed(cat, plan, edges, s) && (tip, f) in s
    ensures (n, o) in s
  {
    if !(n == tip && o == f) {
      var e :| e in edges && Covers(cat, plan, e.source, n, o)
        && (IsControl(e)
            || (e.destination.Field? && e.destination.ordinal.Some?
                && Influences(cat, plan, edges, tip, f, e.destination.node, e.destination.ordinal.value)));
      if !IsControl(e) {
        SourcesMinimal(cat, plan, edges, tip, f, e.destination.node, e.destination.ordinal.value, s);
      }
    }
  }

  /** To bound the sources it is enough to check each node's edges. */
  lemma SourcesWithin(cat: Catalog, plan: Store, tip: nat, f: nat, s: Fields)
    requires tip < |plan| && (tip, f) in s
    requires forall i :: 0 <= i < |plan| ==> Closed(cat, plan, NodeEdges(cat, plan, i), s)
    ensures Sources(cat, plan, tip, f) <= s
  {
    GraphClosed(cat, plan, ReachableIds(plan, tip), s);
    forall n: nat, o: nat | Influences(cat, plan, LineageGraph(cat, plan, tip), tip, f, n, o)
      ensures (n, o) in s
    {
      SourcesMinimal(cat, plan, LineageGraph(cat, plan, tip), tip, f, n, o, s);
    }
  }

  lemma {:induction false} GraphClosed(cat: Catalog, plan: Store, ids: seq<nat>, s: Fields)
    requires forall k :: 0 <= k < |ids| ==> ids[k] < |plan|
    requires forall i :: 0 <= i < |plan| ==> Closed(cat, plan, NodeEdges(cat, plan, i), s)
    ensures Closed(cat, plan, GraphEdges(cat, plan, ids), s)
    decreases |ids|
  {
    if ids != [] {
      var n := |ids| - 1;
      GraphClosed(cat, plan, ids[..n], s);
      ClosedJoined(cat, plan, GraphEdges(cat, plan, ids[..n]), NodeEdges(cat, plan, ids[n]), s);
    }
  }

  lemma ClosedJoined(cat: Catalog, plan: Store, a: seq<Edge>, b: seq<Edge>, s: Fields)
    requires Closed(cat, plan, a, s) && Closed(cat, plan, b, s)
    ensures Closed(cat, plan, a + b, s)
  {
    forall e, n: nat, o: nat | e in a + b && Covers(cat, plan, e.source, n, o) && (IsControl(e) || Lands(e, s))
      ensures (n, o) in s
    {
      if e in a {
        assert (n, o) in s;
      } else {
        assert e in b;
      }
    }
  }

  /** Databases that agree on a closed set of fields around an output column agree on what it is traced back to. */
  lemma TracedWithin(cat: Catalog, plan: Store, tip: nat, f: nat, s: Fields, db1: Database, db2: Database)
    requires tip < |plan| && (tip, f) in s && RootsAgree(plan, tip, db1, db2, s)
    requires forall i :: 0 <= i < |plan| ==> Closed(cat, plan, NodeEdges(cat, plan, i), s)
    ensures RootsAgree(plan, tip, db1, db2, Sources(cat, plan, tip, f))
  {
    SourcesWithin(cat, plan, tip, f, s);
    RootsAgreeBelow(plan, tip, db1, db2, s, Sources(cat, plan, tip, f));
  }

  // ----- plans that break -----

  /** A backend whose only scalar function compares for equality and whose other operations are constant. */
  function Comparing(): Engine {
    Engine(
      (name: string, options: seq<(string, string)>, args: Row) =>
        BoolValue(|args| == 2 && args[0] == args[1]),
      (name: string, distinct: bool, args: seq<Row>, ordering: seq<Row>) => IntValue(|args|),
      (name: string, n: nat, args: Row) => [args],
      (shape: WindowShape, rows: seq<Row>, j: nat) => if j < |rows| && |rows[j]| == 1 then rows[j][0] else Null,
      (keys: seq<Row>) => [])
  }

  function Eq(a: ColumnExpr, b: ColumnExpr): ColumnExpr {
    ColumnExpr(BoolFact, Application("eq", [a, b], []))
  }

  function OneCell(v: Value): Table {
    RawTable(1, [[v]])
  }

  function TwoTables(table: string): seq<string> {
    if table == "o" then ["k"] else ["i"]
  }

  function OrdersAndCustomer(customer: int): Database {
    (table: string) => if table == "o" then OneCell(IntValue(1)) else OneCell(IntValue(customer))
  }

  /** The plan of `FROM o JOIN c ON .k == c.i`. */
  function AliasedJoin(): Store {
    [Read("o"), Read("c"),
     Join(0, 1, Inner, "c", Eq(Col("k"), Col("c.i")))]
  }

  /** A query-block join: lineage of the left output column ignores the right key, yet the key decides the rows. */
  lemma AliasedJoinUnsound()
    ensures RootsAgree(AliasedJoin(), 2, OrdersAndCustomer(1), OrdersAndCustomer(2),
                       Sources(TwoTables, AliasedJoin(), 2, 0))
    ensures Eval(Comparing(), TwoTables, OrdersAndCustomer(1), AliasedJoin(), 2)
         != Eval(Comparing(), TwoTables, OrdersAndCustomer(2), AliasedJoin(), 2)
    ensures !Traceable(TwoTables, AliasedJoin(), 2)
  {
    AliasedJoinRoots();
    AliasedJoinRows(1);
    AliasedJoinRows(2);
    AliasedJoinUntraceable();
  }

  lemma AliasedJoinRoots()
    ensures RootsAgree(AliasedJoin(), 2, OrdersAndCustomer(1), OrdersAndCustomer(2),
                       Sources(TwoTables, AliasedJoin(), 2, 0))
  {
    ghost var s: Fields := iset{(2, 0), (0, 0)};
    AliasedJoinClosed(s);
    AliasedTablesAgree(s);
    TracedWithin(TwoTables, AliasedJoin(), 2, 0, s, OrdersAndCustomer(1), OrdersAndCustomer(2));
  }

  lemma AliasedTablesAgree(s: Fields)
    requires (1, 0) !in s
    ensures RootsAgree(AliasedJoin(), 2, OrdersAndCustomer(1), OrdersAndCustomer(2), s)
  {
  }

  /** Agreeing on more fields is agreeing on fewer. */
  lemma RootsAgreeBelow(plan: Store, tip: nat, db1: Database, db2: Database, s: Fields, fewer: Fields)
    requires tip < |plan| && RootsAgree(plan, tip, db1, db2, s) && fewer <= s
    ensures RootsAgree(plan, tip, db1, db2, fewer)
  {
  }

  lemma AliasedJoinUntraceable()
    ensures !Traceable(TwoTables, AliasedJoin(), 2)
  {
    EqReferences("k", "c.i");
    AliasedJoinColumns();
    assert "c" + "." + "i" == "c.i";
    assert Columns(TwoTables, AliasedJoin(), 1) == ["i"];
    assert MatchCount(["i"], "k") == 0;
    EquiJoinExactly(0, ["k"], 1, ["i"], "c", AliasedJoin()[2].on, "k", "i");
  }

  lemma EqReferences(a: string, b: string)
    ensures References(Eq(Col(a), Col(b))) == {a, b}
  {
    var e := Eq(Col(a), Col(b));
    var args := e.node.arguments;
    assert args[0] == Col(a) && args[1] == Col(b);
    assert References(args[0]) == {a} && References(args[1]) == {b};
  }

  lemma {:induction false} JoinEdgeHasName(
      left: nat, l: seq<string>, right: nat, r: seq<string>, i: nat, names: seq<string>, e: Edge)
    requires e in JoinPredicateEdges(left, l, right, r, i, names)
    ensures exists x :: x in names && e in JoinNameEdges(left, l, right, r, i, x)
    decreases |names|
  {
    var k := |names| - 1;
    if e in JoinNameEdges(left, l, right, r, i, names[k]) {
      assert names[k] in names;
    } else {
      JoinEdgeHasName(left, l, right, r, i, names[..k], e);
      var x :| x in names[..k] && e in JoinNameEdges(left, l, right, r, i, x);
      assert x in names;
    }
  }

  lemma AliasedJoinClosed(s: Fields)
    requires s == iset{(2, 0), (0, 0)}
    ensures forall i :: 0 <= i < 3 ==> Closed(TwoTables, AliasedJoin(), NodeEdges(TwoTables, AliasedJoin(), i), s)
  {
    ReadClosed(TwoTables, AliasedJoin(), 0, s);
    ReadClosed(TwoTables, AliasedJoin(), 1, s);
    AliasedEdgesClosed(s);
  }

  /** A read starts lineage: nothing leads further back. */
  lemma ReadClosed(cat: Catalog, plan: Store, i: nat, s: Fields)
    requires i < |plan| && plan[i].Read?
    ensures Closed(cat, plan, NodeEdges(cat, plan, i), s)
  {
  }

  lemma FieldsAtClosed(cat: Catalog, plan: Store, edges: seq<Edge>, node: nat, s: Fields)
    requires node < |plan| && forall o: nat :: o < |Columns(cat, plan, node)| ==> (node, o) in s
    requires forall e :: e in edges ==> e.source.Field? && e.source.node == node
    ensures Closed(cat, plan, edges, s)
  {
  }

  lemma AliasedEdgesClosed(s: Fields)
    requires s == iset{(2, 0), (0, 0)}
    ensures Closed(TwoTables, AliasedJoin(), NodeEdges(TwoTables, AliasedJoin(), 2), s)
  {
    var plan := AliasedJoin();
    var l, r, out := Columns(TwoTables, plan, 0), Columns(TwoTables, plan, 1), Columns(TwoTables, plan, 2);
    assert l == ["k"] && r == ["i"];
    var names := DependencyNames([plan[2].on]);
    var sides := JoinSideEdges(0, l, 2, out, 0) + JoinSideEdges(1, r, 2, out, 1);
    var keys := JoinPredicateEdges(0, l, 1, r, 2, names);
    assert Closed(TwoTables, plan, sides, s);
    AliasedJoinKeys(r, names);
    LeftEdgesOnly(0, l, 1, r, 2, names);
    FieldsAtClosed(TwoTables, plan, keys, 0, s);
    ClosedJoined(TwoTables, plan, sides, keys, s);
    assert NodeEdges(TwoTables, plan, 2) == sides + keys;
  }

  /** Names the right side does not have are traced to the left side alone. */
  lemma LeftEdgesOnly(left: nat, l: seq<string>, right: nat, r: seq<string>, i: nat, names: seq<string>)
    requires forall x :: x in names ==> x !in r
    ensures forall e :: e in JoinPredicateEdges(left, l, right, r, i, names) ==> e.source.Field? && e.source.node == left
  {
    forall e | e in JoinPredicateEdges(left, l, right, r, i, names)
      ensures e.source.Field? && e.source.node == left
    {
      JoinEdgeHasName(left, l, right, r, i, names, e);
      var x :| x in names && e in JoinNameEdges(left, l, right, r, i, x);
      assert x !in r;
    }
  }

  lemma AliasedJoinKeys(r: seq<string>, names: seq<string>)
    requires r == ["i"] && names == DependencyNames([AliasedJoin()[2].on])
    ensures forall x :: x in names ==> x !in r
  {
    DependencyNamesExact([AliasedJoin()[2].on]);
    EqReferences("k", "c.i");
  }

  lemma AliasedJoinRows(customer: int)
    ensures var r := Eval(Comparing(), TwoTables, OrdersAndCustomer(customer), AliasedJoin(), 2);
            r.Some? && r.value.count == if customer == 1 then 1 else 0
  {
    var plan, db, eng := AliasedJoin(), OrdersAndCustomer(customer), Comparing();
    AliasedJoinColumns();
    var l, r := Eval(eng, TwoTables, db, plan, 0), Eval(eng, TwoTables, db, plan, 1);
    assert l == Some(OneCell(IntValue(1))) && r == Some(OneCell(IntValue(customer)));
    assert Eval(eng, TwoTables, db, plan, 2) == EvalJoin(eng, ["k"], l, ["c.i"], r, Inner, Eq(Col("k"), Col("c.i")));
    assert ["k"] + ["c.i"] == ["k", "c.i"];
    EqReferences("k", "c.i");
    ComparedRow(IntValue(1), IntValue(customer));
    ComparedJoin(Eq(Col("k"), Col("c.i")), ["k"], ["c.i"], IntValue(1), IntValue(customer));
  }

  lemma AliasedJoinColumns()
    ensures Columns(TwoTables, AliasedJoin(), 0) == ["k"]
    ensures Qualify(Columns(TwoTables, AliasedJoin(), 1), "c") == ["c.i"]
  {
    assert "c" + "." + "i" == "c.i";
  }

  lemma ComparedJoin(on: ColumnExpr, l: seq<string>, r: seq<string>, a: Value, b: Value)
    requires Resolves(l + r, on) && EvalExpr(Comparing(), l + r, [a, b], on) == BoolValue(a == b)
    ensures var t := EvalJoin(Comparing(), l, Some(OneCell(a)), r, Some(OneCell(b)), Inner, on);
            t.Some? && t.value.count == if a == b then 1 else 0
  {
    ComparedHits(on, l + r, a, b);
    OnePair(Hits(Comparing(), l + r, OneCell(a), OneCell(b), on));
  }

  lemma ComparedHits(on: ColumnExpr, names: seq<string>, a: Value, b: Value)
    requires EvalExpr(Comparing(), names, [a, b], on) == BoolValue(a == b)
    ensures var hits := Hits(Comparing(), names, OneCell(a), OneCell(b), on);
            |hits| == 1 && |hits[0]| == 1 && hits[0][0] == (a == b)
  {
    assert RowAt(OneCell(a), 0) + RowAt(OneCell(b), 0) == [a, b];
  }

  lemma ComparedRow(a: Value, b: Value)
    ensures EvalExpr(Comparing(), ["k", "c.i"], [a, b], Eq(Col("k"), Col("c.i"))) == BoolValue(a == b)
  {
    var names, row, args := ["k", "c.i"], [a, b], [Col("k"), Col("c.i")];
    FirstIndexIs(names, "k", 0);
    FirstIndexIs(names, "c.i", 1);
    assert EvalExpr(Comparing(), names, row, args[0]) == a;
    assert EvalExpr(Comparing(), names, row, args[1]) == b;
    assert seq(|args|, k requires 0 <= k < |args| => EvalExpr(Comparing(), names, row, args[k])) == [a, b];
  }

  lemma OnePair(hits: seq<seq<bool>>)
    requires |hits| == 1 && |hits[0]| == 1
    ensures |Pairs(hits, false)| == if hits[0][0] then 1 else 0
  {
    assert hits[..0] == [] && hits[0][..0] == [];
  }

  // ----- a window output that reuses a column name -----

  function OneTable(table: string): seq<string> {
    ["k"]
  }

  function Holding(v: Value): Database {
    (table: string) => OneCell(v)
  }

  /** `with_window_column("k", f(k))` on a table that already has k: the new column is appended, the edge goes to the
      old one. */
  function CollidingWindow(): Store {
    [Read("o"), Window(0, [WindowProjection("k", "first_value", [Col("k")], [], [], "rows", false)])]
  }

  lemma CollidingWindowUnsound(a: Value, b: Value)
    requires a != b
    ensures Columns(OneTable, CollidingWindow(), 1) == ["k", "k"]
    ensures RootsAgree(CollidingWindow(), 1, Holding(a), Holding(b), Sources(OneTable, CollidingWindow(), 1, 1))
    ensures Eval(Comparing(), OneTable, Holding(a), CollidingWindow(), 1) == Some(RawTable(1, [[a], [a]]))
    ensures Eval(Comparing(), OneTable, Holding(b), CollidingWindow(), 1) == Some(RawTable(1, [[b], [b]]))
  {
    assert Columns(OneTable, CollidingWindow(), 0) == ["k"];
    assert WindowNames(CollidingWindow()[1].projections) == ["k"];
    CollidingWindowRoots(a, b);
    CollidingWindowRows(a);
    CollidingWindowRows(b);
  }

  lemma CollidingWindowRoots(a: Value, b: Value)
    ensures RootsAgree(CollidingWindow(), 1, Holding(a), Holding(b), Sources(OneTable, CollidingWindow(), 1, 1))
  {
    var plan := CollidingWindow();
    var w := plan[1].projections[0];
    ghost var s: Fields := iset{(1, 1)};
    assert Columns(OneTable, plan, 0) == ["k"];
    assert FirstIndex(["k", "k"], "k") == 0;
    assert WindowEdges(0, ["k"], 1, ["k", "k"], plan[1].projections)
        == DependencyEdges(["k"], 0, 1, WindowInputs(w), FieldTarget(1, 0, "k"), WindowOf, WindowStep) by {
      assert plan[1].projections[..0] == [];
    }
    assert WindowNames(plan[1].projections) == ["k"];
    assert Columns(OneTable, plan, 1) == ["k", "k"];
    var through := PassthroughEdges(0, ["k"], 1, ["k", "k"]);
    var more := WindowEdges(0, ["k"], 1, ["k", "k"], plan[1].projections);
    assert NodeEdges(OneTable, plan, 1) == through + more;
    forall e | e in more ensures !IsControl(e) && e.destination == FieldTarget(1, 0, "k") {
    }
    ElsewhereClosed(OneTable, plan, more, s, 1, 0, "k");
    assert Closed(OneTable, plan, through, s);
    ClosedJoined(OneTable, plan, through, more, s);
    assert Closed(OneTable, plan, NodeEdges(OneTable, plan, 0), s);
    SourcesWithin(OneTable, plan, 1, 1, s);
  }

  /** Edges that only reach a field outside s leave it closed. */
  lemma ElsewhereClosed(cat: Catalog, plan: Store, edges: seq<Edge>, s: Fields, node: nat, slot: nat, name: string)
    requires (node, slot) !in s
    requires forall e :: e in edges ==> !IsControl(e) && e.destination == FieldTarget(node, slot, name)
    ensures Closed(cat, plan, edges, s)
  {
  }

  lemma CollidingWindowRows(a: Value)
    ensures Eval(Comparing(), OneTable, Holding(a), CollidingWindow(), 1) == Some(RawTable(1, [[a], [a]]))
  {
    var plan, eng, t := CollidingWindow(), Comparing(), OneCell(a);
    var w := plan[1].projections[0];
    assert WindowInputs(w) == [Col("k")];
    assert EvalAll(eng, ["k"], RowAt(t, 0), [Col("k")]) == [a];
    assert ExprRows(eng, ["k"], t, WindowInputs(w)) == [[a]];
    assert WindowColumn(eng, ["k"], t, w) == [a];
    assert WindowTable(eng, ["k"], t, plan[1].projections) == RawTable(1, [[a], [a]]);
    assert References(Col("k")) == {"k"};
    assert WindowsAccepted(["k"], plan[1].projections);
    assert Eval(eng, OneTable, Holding(a), plan, 0) == Some(t);
  }

  // ----- a filtered count -----

  /** `agg([count().filter(k == 1)])`. */
  function FilteredCount(): Store {
    [Read("o"), Aggregate(0, [], [Measure("count", [], false, Some(Eq(Col("k"), Literal(1))), [], "", None)])]
  }

  function Literal(n: int): ColumnExpr {
    ColumnExpr(IntFact, IntLiteral(n))
  }

  lemma FilteredCountUnsound(a: int)
    ensures RootsAgree(FilteredCount(), 1, Holding(IntValue(1)), Holding(IntValue(a)),
                       Sources(OneTable, FilteredCount(), 1, 0))
    ensures Eval(Comparing(), OneTable, Holding(IntValue(a)), FilteredCount(), 1)
         == Some(RawTable(1, [[IntValue(if a == 1 then 1 else 0)]]))
  {
    ghost var s: Fields := iset{(1, 0)};
    ReadClosed(OneTable, FilteredCount(), 0, s);
    FilteredEdgesClosed(s);
    FilteredTablesAgree(a, s);
    TracedWithin(OneTable, FilteredCount(), 1, 0, s, Holding(IntValue(1)), Holding(IntValue(a)));
    FilteredCountRows(a);
  }

  lemma FilteredTablesAgree(a: int, s: Fields)
    requires (0, 0) !in s
    ensures RootsAgree(FilteredCount(), 1, Holding(IntValue(1)), Holding(IntValue(a)), s)
  {
  }

  lemma FilteredEdgesClosed(s: Fields)
    ensures Closed(OneTable, FilteredCount(), NodeEdges(OneTable, FilteredCount(), 1), s)
  {
    var plan := FilteredCount();
    var out, m := Columns(OneTable, plan, 1), plan[1].measures[0];
    assert plan[1].measures[..0] == [];
    assert AggregatePrefix(plan, 1) == [] && PrefixKeys(plan, 1) == [] && MeasureInput(plan, 1) == 0;
    assert |out| == 1 && Columns(OneTable, plan, 0) == ["k"];
    assert PositionalEdges(0, ["k"], 1, out, [], Grouping) == [];
    assert MeasuresEdges(0, ["k"], 1, out, 0, plan[1].measures)
        == MeasuresEdges(0, ["k"], 1, out, 0, []) + MeasureEdges(0, ["k"], 1, m, FieldTarget(1, 0, out[0]));
    assert NodeEdges(OneTable, plan, 1) == MeasureEdges(0, ["k"], 1, m, FieldTarget(1, 0, out[0]));
  }

  lemma FilteredCountRows(a: int)
    ensures Eval(Comparing(), OneTable, Holding(IntValue(a)), FilteredCount(), 1)
         == Some(RawTable(1, [[IntValue(if a == 1 then 1 else 0)]]))
  {
    var plan, eng, t := FilteredCount(), Comparing(), OneCell(IntValue(a));
    var m, p := plan[1].measures[0], Eq(Col("k"), Literal(1));
    KeyIsOne(a);
    CountTable(t, m, p, a == 1);
    FilterResolves(m, p);
    assert Eval(eng, OneTable, Holding(IntValue(a)), plan, 0) == Some(t);
    assert AggregateSource(plan, 1) == (0, []);
    assert Columns(OneTable, plan, 0) == ["k"];
  }

  lemma FilterResolves(m: Measure, p: ColumnExpr)
    requires m == Measure("count", [], false, Some(p), [], "", None) && References(p) == {"k"}
    ensures MeasuresResolve(["k"], [m])
  {
    assert MeasureInputs(m) == [p];
  }

  lemma CountTable(t: Table, m: Measure, p: ColumnExpr, keep: bool)
    requires t.count == 1
    requires m == Measure("count", [], false, Some(p), [], "", None)
    requires EvalExpr(Comparing(), ["k"], RowAt(t, 0), p) == BoolValue(keep)
    ensures AggregateTable(Comparing(), ["k"], t, [], [m]) == RawTable(1, [[IntValue(if keep then 1 else 0)]])
  {
    CountOne(Comparing(), t, m, p, keep);
    var n := IntValue(if keep then 1 else 0);
    assert MeasureColumn(Comparing(), ["k"], t, m, [Iota(1)]) == [n];
    assert MeasureColumns(Comparing(), ["k"], t, [m], [Iota(1)]) == [[n]];
  }

  lemma KeyIsOne(a: int)
    ensures EvalExpr(Comparing(), ["k"], RowAt(OneCell(IntValue(a)), 0), Eq(Col("k"), Literal(1))) == BoolValue(a == 1)
    ensures References(Eq(Col("k"), Literal(1))) == {"k"}
  {
    var row, args := RowAt(OneCell(IntValue(a)), 0), [Col("k"), Literal(1)];
    assert EvalExpr(Comparing(), ["k"], row, args[0]) == IntValue(a);
    assert seq(|args|, k requires 0 <= k < |args| => EvalExpr(Comparing(), ["k"], row, args[k]))
        == [IntValue(a), IntValue(1)];
    assert References(args[0]) == {"k"} && References(args[1]) == {};
  }

  lemma CountOne(eng: Engine, t: Table, m: Measure, p: ColumnExpr, keep: bool)
    requires eng == Comparing() && t.count == 1
    requires m == Measure("count", [], false, Some(p), [], "", None)
    requires EvalExpr(eng, ["k"], RowAt(t, 0), p) == BoolValue(keep)
    ensures MeasureValue(eng, ["k"], t, m, Iota(1)) == IntValue(if keep then 1 else 0)
  {
    var flags := [keep];
    assert seq(1, k requires 0 <= k < 1 => Holds(EvalExpr(eng, ["k"], RowAt(t, Iota(1)[k]), p))) == flags;
    assert flags[..0] == [];
    assert Kept(flags) == if keep then [0] else [];
  }

  /** `group_by([k]).agg([count().filter(k == 1)])`: the same filter over a grouping key is traced. */
  function GroupedFilteredCount(): Store {
    [Read("o"), GroupBy(0, [Col("k")]),
     Aggregate(1, [], [Measure("count", [], false, Some(Eq(Col("k"), Literal(1))), [], "", None)])]
  }

  lemma GroupedFilteredCountTraced(cat: Catalog)
    ensures Traceable(cat, GroupedFilteredCount(), 2)
    ensures !Traceable(OneTable, FilteredCount(), 1)
  {
    var m, p := GroupedFilteredCount()[2].measures[0], Eq(Col("k"), Literal(1));
    KeyIsOne(1);
    assert MeasureInputs(m) == [p];
    OneReference(p);
    OneReference(Col("k"));
    KeyFilterTraced(Columns(cat, GroupedFilteredCount(), 0), [Col("k")], m);
    FilteredCountUntraced(m);
  }

  lemma FilteredCountUntraced(m: Measure)
    requires m == FilteredCount()[1].measures[0] && AllReferences(MeasureInputs(m)) == {"k"}
    ensures !Traceable(OneTable, FilteredCount(), 1)
  {
    assert Columns(OneTable, FilteredCount(), 0) == ["k"];
    assert FirstIndex(["k"], "k") in Resolved(["k"], {"k"});
    assert NamedAll(["k"], AllReferences([]) + AllReferences([])) == {};
    assert !MeasureTraceable(["k"], [], m);
  }

  // ----- an aggregate over an aggregate -----

  function CountRows(): Measure {
    Measure("count", [], false, None, [], "", None)
  }

  /** `group_by([k]).agg([count()]).agg([count()])` before any rewrite. */
  function DoubleAggregate(): Store {
    [Read("o"), GroupBy(0, [Col("k")]), Aggregate(1, [], [CountRows()]), Aggregate(2, [], [CountRows()])]
  }

  /** The authored names still promise the grouping column; the lowered table does not have it. */
  lemma DoubleAggregateWidths(eng: Engine, db: Database, t: Table)
    requires db("o") == t && |t.cols| == 1
    ensures Columns(OneTable, DoubleAggregate(), 3) == ["k", "count"]
    ensures var r := Eval(eng, OneTable, db, DoubleAggregate(), 3); r.Some? && |r.value.cols| == 1
  {
    var plan := DoubleAggregate();
    assert AggregatePrefix(plan, 2) == ["k"];
    assert "count" + "" + "" + "" + "" == "count";
    assert MeasureName(CountRows()) == "count";
    assert MeasureNames([CountRows()]) == ["count"];
    assert Eval(eng, OneTable, db, plan, 0) == Some(t);
    assert References(Col("k")) == {"k"};
    var (source, keys) := AggregateSource(plan, 2);
    assert source == 0 && keys == [Col("k")];
    assert Eval(eng, OneTable, db, plan, 2).Some?;
  }

  // ----- a lateral alias that shadows an input column -----

  function KeyAndOther(table: string): seq<string> {
    ["k", "j"]
  }

  function HoldingPair(k: Value, j: Value): Database {
    (table: string) => RawTable(1, [[k], [j]])
  }

  /** `SELECT .j as k, .k as z`: the second item reads the alias, lineage says it reads the column. */
  function ShadowedSelect(): Store {
    [Read("o"), SelectProject(0, [Assignment("k", Col("j")), Assignment("z", Col("k"))])]
  }

  lemma ShadowedSelectUnsound(a: Value, b: Value)
    ensures RootsAgree(ShadowedSelect(), 1, HoldingPair(Null, a), HoldingPair(Null, b),
                       Sources(KeyAndOther, ShadowedSelect(), 1, 1))
    ensures Eval(Comparing(), KeyAndOther, HoldingPair(Null, a), ShadowedSelect(), 1)
         == Some(RawTable(1, [[a], [a]]))
  {
    ghost var s: Fields := iset{(1, 1), (0, 0)};
    ShadowedClosed(s);
    ShadowedTablesAgree(a, b, s);
    TracedWithin(KeyAndOther, ShadowedSelect(), 1, 1, s, HoldingPair(Null, a), HoldingPair(Null, b));
    ShadowedRows(a);
  }

  lemma ShadowedTablesAgree(a: Value, b: Value, s: Fields)
    requires (0, 1) !in s
    ensures RootsAgree(ShadowedSelect(), 1, HoldingPair(Null, a), HoldingPair(Null, b), s)
  {
  }

  lemma ShadowedClosed(s: Fields)
    requires s == iset{(1, 1), (0, 0)}
    ensures forall i :: 0 <= i < 2 ==> Closed(KeyAndOther, ShadowedSelect(), NodeEdges(KeyAndOther, ShadowedSelect(), i), s)
  {
    var plan, names := ShadowedSelect(), ["k", "j"];
    var first := DependencyEdges(names, 0, 1, [Col("j")], FieldTarget(1, 0, "k"), ValueOf, Identity);
    var second := DependencyEdges(names, 0, 1, [Col("k")], FieldTarget(1, 1, "z"), ValueOf, Identity);
    ReadClosed(KeyAndOther, plan, 0, s);
    ShadowedEdges(names, first, second);
    ElsewhereClosed(KeyAndOther, plan, first, s, 1, 0, "k");
    FromWithinClosed(KeyAndOther, plan, second, s, FieldTarget(0, 0, "k"));
    ClosedJoined(KeyAndOther, plan, first, second, s);
  }

  lemma ShadowedEdges(names: seq<string>, first: seq<Edge>, second: seq<Edge>)
    requires names == ["k", "j"]
    requires first == DependencyEdges(names, 0, 1, [Col("j")], FieldTarget(1, 0, "k"), ValueOf, Identity)
    requires second == DependencyEdges(names, 0, 1, [Col("k")], FieldTarget(1, 1, "z"), ValueOf, Identity)
    ensures NodeEdges(KeyAndOther, ShadowedSelect(), 1) == first + second
    ensures forall e :: e in first ==> !IsControl(e) && e.destination == FieldTarget(1, 0, "k")
    ensures forall e :: e in second ==> e.source == FieldTarget(0, 0, "k")
  {
    var plan := ShadowedSelect();
    var out, es := ["k", "z"], AssignedExprs(plan[1].assignments);
    assert Columns(KeyAndOther, plan, 1) == out;
    assert es == [Col("j"), Col("k")] && es[..1] == [Col("j")] && es[..1][..0] == [];
    assert PositionalEdges(0, names, 1, out, es[..1], ValueOf) == first;
    ShadowedNames();
  }

  /** Edges that all start at a field of s leave it closed. */
  lemma FromWithinClosed(cat: Catalog, plan: Store, edges: seq<Edge>, s: Fields, t: Target)
    requires t.Field? && t.ordinal.Some? && (t.node, t.ordinal.value) in s
    requires forall e :: e in edges ==> e.source == t
    ensures Closed(cat, plan, edges, s)
  {
  }

  lemma ShadowedNames()
    ensures DependencyNames([Col("k")]) == ["k"]
    ensures FirstIndex(["k", "j"], "k") == 0 && MatchCount(["k", "j"], "k") == 1
  {
    assert [Col("k")][..0] == [];
    assert InsertAll([], ["k"]) == ["k"];
    assert ["k", "j"][1..] == ["j"];
  }

  lemma SelectTwo(eng: Engine, names: seq<string>, t: Table, a: Assignment, b: Assignment)
    requires |names| == |t.cols| && Resolves(names, a.expr) && Resolves(Insert(names, a.outputName), b.expr)
    ensures var first := ExprColumn(eng, names, t, a.expr);
            var seen, bound := Insert(names, a.outputName), Bind(names, t, a.outputName, first);
            Select(eng, names, t, [a, b]) == Some(RawTable(t.count, [first, ExprColumn(eng, seen, bound, b.expr)]))
  {
    var first := ExprColumn(eng, names, t, a.expr);
    var seen, bound := Insert(names, a.outputName), Bind(names, t, a.outputName, first);
    var second := ExprColumn(eng, seen, bound, b.expr);
    assert [a, b][1..] == [b] && [b][1..] == [];
    assert [second] + [] == [second] && [first] + [second] == [first, second];
    assert Select(eng, seen, bound, [b]) == Some(RawTable(t.count, [second]));
  }

  lemma ShadowedColumns(names: seq<string>, t: Table, a: Value)
    requires names == ["k", "j"] && t == RawTable(1, [[Null], [a]])
    ensures ExprColumn(Comparing(), names, t, Col("j")) == [a]
    ensures Bind(names, t, "k", [a]) == RawTable(1, [[a], [a]])
    ensures ExprColumn(Comparing(), names, RawTable(1, [[a], [a]]), Col("k")) == [a]
  {
    FirstIndexIs(names, "k", 0);
    FirstIndexIs(names, "j", 1);
  }

  lemma ShadowedRows(a: Value)
    ensures Eval(Comparing(), KeyAndOther, HoldingPair(Null, a), ShadowedSelect(), 1)
         == Some(RawTable(1, [[a], [a]]))
  {
    var plan, t, names := ShadowedSelect(), RawTable(1, [[Null], [a]]), ["k", "j"];
    assert References(Col("j")) == {"j"} && References(Col("k")) == {"k"};
    assert Insert(names, "k") == names;
    ShadowedColumns(names, t, a);
    SelectTwo(Comparing(), names, t, Assignment("k", Col("j")), Assignment("z", Col("k")));
    assert Eval(Comparing(), KeyAndOther, HoldingPair(Null, a), plan, 0) == Some(t);
  }

  // ----- a generator without output columns -----

  /** `generate(f(k), [])`: no column of its own, but it decides how often each row appears. The builders refuse the
      empty alias list; a node of this shape is only possible without them. */
  function SilentGenerator(): Store {
    [Read("o"), Generate(0, Generator("f", 0, [Col("k")], [], true))]
  }

  /** Emits one empty tuple for the value 1 and nothing for any other. */
  function EmittingForOne(): Engine {
    Comparing().(generate := (name: string, n: nat, args: Row) => if args == [IntValue(1)] then [[]] else [])
  }

  lemma SilentGeneratorUnsound(a: int, j: Value)
    ensures RootsAgree(SilentGenerator(), 1, HoldingPair(IntValue(1), j), HoldingPair(IntValue(a), j),
                       Sources(KeyAndOther, SilentGenerator(), 1, 1))
    ensures Eval(EmittingForOne(), KeyAndOther, HoldingPair(IntValue(a), j), SilentGenerator(), 1)
         == Some(if a == 1 then RawTable(1, [[IntValue(1)], [j]]) else RawTable(0, [[], []]))
  {
    SilentTraced(a, j);
    SilentRows(a, j);
  }

  lemma SilentTraced(a: int, j: Value)
    ensures RootsAgree(SilentGenerator(), 1, HoldingPair(IntValue(1), j), HoldingPair(IntValue(a), j),
                       Sources(KeyAndOther, SilentGenerator(), 1, 1))
  {
    ghost var s: Fields := iset{(1, 1), (0, 1)};
    SilentClosed(s);
    SilentTablesAgree(a, j, s);
    TracedWithin(KeyAndOther, SilentGenerator(), 1, 1, s, HoldingPair(IntValue(1), j), HoldingPair(IntValue(a), j));
  }

  lemma SilentClosed(s: Fields)
    requires s == iset{(1, 1), (0, 1)}
    ensures forall i :: 0 <= i < 2 ==> Closed(KeyAndOther, SilentGenerator(), NodeEdges(KeyAndOther, SilentGenerator(), i), s)
  {
    var plan, names := SilentGenerator(), ["k", "j"];
    assert Columns(KeyAndOther, plan, 0) == names && Columns(KeyAndOther, plan, 1) == names;
    assert GeneratedEdges(0, names, 1, names, [Col("k")], []) == [];
    var edges := PassthroughEdges(0, names, 1, names);
    assert NodeEdges(KeyAndOther, plan, 1) == edges;
    assert edges == [IdentityEdge(FieldTarget(0, 0, "k"), FieldTarget(1, 0, "k")),
                     IdentityEdge(FieldTarget(0, 1, "j"), FieldTarget(1, 1, "j"))];
  }

  lemma SilentTablesAgree(a: int, j: Value, s: Fields)
    requires (0, 0) !in s
    ensures RootsAgree(SilentGenerator(), 1, HoldingPair(IntValue(1), j), HoldingPair(IntValue(a), j), s)
  {
  }

  lemma SilentEmissions(a: int)
    ensures Emissions(EmittingForOne(), "f", 0, [[IntValue(a)]]) == if a == 1 then [Emitted(0, [])] else []
  {
    var eng, rows := EmittingForOne(), [[IntValue(a)]];
    var tuples := eng.generate("f", 0, rows[0]);
    assert tuples == if a == 1 then [[]] else [];
    assert rows[..0] == [] && Emissions(eng, "f", 0, []) == [];
    assert Emissions(eng, "f", 0, rows) == seq(|tuples|, k requires 0 <= k < |tuples| => Emitted(0, tuples[k]));
  }

  lemma SilentKept(a: int, j: Value, t: Table, picks: seq<nat>)
    requires t == RawTable(1, [[IntValue(a)], [j]]) && picks == if a == 1 then [0] else []
    ensures Gather(t, picks) == if a == 1 then RawTable(1, [[IntValue(1)], [j]]) else RawTable(0, [[], []])
  {
    assert Gather(t, picks).cols == [Pick([IntValue(a)], picks), Pick([j], picks)];
    if a == 1 {
      assert Pick([IntValue(a)], [0]) == [IntValue(a)] && Pick([j], [0]) == [j];
    } else {
      assert Pick([IntValue(a)], []) == [] && Pick([j], []) == [];
    }
  }

  lemma SilentTable(a: int, j: Value, t: Table, g: Generator)
    requires t == RawTable(1, [[IntValue(a)], [j]]) && g == Generator("f", 0, [Col("k")], [], true)
    ensures GenerateTable(EmittingForOne(), ["k", "j"], t, g)
         == if a == 1 then RawTable(1, [[IntValue(1)], [j]]) else RawTable(0, [[], []])
  {
    var eng, names := EmittingForOne(), ["k", "j"];
    assert EvalAll(eng, names, RowAt(t, 0), [Col("k")]) == [IntValue(a)];
    assert ExprRows(eng, names, t, [Col("k")]) == [[IntValue(a)]];
    SilentEmissions(a);
    var picks := EmittedRows(Emissions(eng, "f", 0, [[IntValue(a)]]));
    assert picks == if a == 1 then [0] else [];
    SilentKept(a, j, t, picks);
    assert WithColumns(Gather(t, picks), []) == Gather(t, picks);
  }

  lemma GenerateAccepted(eng: Engine, names: seq<string>, t: Table, tip: nat, g: Generator)
    requires AllResolve(names, g.arguments) && FreshOutputs(if g.preservesInput then names else [], g.outputColumns)
    ensures EvalUnary(eng, names, Some(t), Generate(tip, g)) == Some(GenerateTable(eng, names, t, g))
  {
  }

  lemma SilentUnary(a: int, j: Value, t: Table)
    requires t == RawTable(1, [[IntValue(a)], [j]])
    ensures EvalUnary(EmittingForOne(), ["k", "j"], Some(t), Generate(0, Generator("f", 0, [Col("k")], [], true)))
         == Some(if a == 1 then RawTable(1, [[IntValue(1)], [j]]) else RawTable(0, [[], []]))
  {
    var g := Generator("f", 0, [Col("k")], [], true);
    assert References(Col("k")) == {"k"};
    GenerateAccepted(EmittingForOne(), ["k", "j"], t, 0, g);
    SilentTable(a, j, t, g);
  }

  lemma SilentRows(a: int, j: Value)
    ensures Eval(EmittingForOne(), KeyAndOther, HoldingPair(IntValue(a), j), SilentGenerator(), 1)
         == Some(if a == 1 then RawTable(1, [[IntValue(1)], [j]]) else RawTable(0, [[], []]))
  {
    var plan, t := SilentGenerator(), RawTable(1, [[IntValue(a)], [j]]);
    assert Eval(EmittingForOne(), KeyAndOther, HoldingPair(IntValue(a), j), plan, 0) == Some(t);
    SilentUnary(a, j, t);
  }
}
