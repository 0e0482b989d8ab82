/** Lineage of query blocks: which clauses a block needs to keep apart for its lineage to be complete, and the joins of
    the how-to guide. */
module QueryLineage {
  import opened Tables
  import opened Wrappers
  import opened Expressions
  import opened Plans
  import opened Reachability
  import opened Incan
  import opened Desugar
  import opened QueryPlans
  import opened LineageReads
  import opened LineageSoundness
  import Chains = ChainMeaning
  import LineageLimits
  import LineageReach
  import LineageSlices
  import PlannedQueries
  import Queries
  import QueryBuilds
  import QueryCorrect
  import QueryMeaning
  import QueryShape
  import Rewrites

  // ----- appending keeps what is traceable -----

  lemma {:induction false} FeedsStays(rw: Store, n: Node, i: nat, x: nat)
    requires x < |rw| && Acyclic(rw + [n])
    ensures Feeds(rw + [n], i, x) <==> Feeds(rw, i, x)
    ensures Feeds(rw, i, x) ==> i <= x
    decreases x
  {
    forall k | 0 <= k < |rw[x].Inputs()|
      ensures Feeds(rw + [n], i, rw[x].Inputs()[k]) <==> Feeds(rw, i, rw[x].Inputs()[k])
      ensures Feeds(rw, i, rw[x].Inputs()[k]) ==> i <= x
    {
      FeedsStays(rw, n, i, rw[x].Inputs()[k]);
    }
    assert (rw + [n])[x] == rw[x];
  }

  lemma SourceStays(rw: Store, n: Node, i: nat)
    requires i < |rw| && rw[i].Aggregate? && Acyclic(rw + [n])
    ensures AggregateSource(rw + [n], i) == AggregateSource(rw, i)
    ensures ReadsGrouping(rw + [n], i) == ReadsGrouping(rw, i)
    ensures AggregateKeepsWidth(rw + [n], i) == AggregateKeepsWidth(rw, i)
  {
    assert rw[i].Inputs()[0] == rw[i].input;
    assert (rw + [n])[rw[i].input] == rw[rw[i].input];
    Rewrites.PrefixStays(rw, n, i);
  }

  lemma TraceableStays(cat: Catalog, rw: Store, n: Node, i: nat)
    requires i < |rw| && Acyclic(rw + [n])
    ensures Traceable(cat, rw + [n], i) == Traceable(cat, rw, i) && Aligned(rw + [n], i) == Aligned(rw, i)
  {
    match rw[i] {
      case Read(_) =>
      case Join(left, right, _, _, _) =>
        assert rw[i].Inputs()[0] == left && rw[i].Inputs()[1] == right;
        Rewrites.ColumnsStay(cat, rw, n, left);
        Rewrites.ColumnsStay(cat, rw, n, right);
      case Aggregate(_, _, _) =>
        SourceStays(rw, n, i);
        Rewrites.ColumnsStay(cat, rw, n, AggregateSource(rw, i).0);
      case node =>
        assert rw[i].Inputs()[0] == node.input;
        Rewrites.ColumnsStay(cat, rw, n, node.input);
    }
  }

  lemma StillTraceable(cat: Catalog, rw: Store, n: Node, x: nat)
    requires x < |rw| && Acyclic(rw + [n]) && AllTraceable(cat, rw, x)
    ensures AllTraceable(cat, rw + [n], x)
  {
    forall i: nat | i < |rw + [n]| && Feeds(rw + [n], i, x)
      ensures Aligned(rw + [n], i) && Traceable(cat, rw + [n], i)
    {
      FeedsStays(rw, n, i, x);
      TraceableStays(cat, rw, n, i);
    }
  }

  /** A node that meets its condition, over inputs that do. */
  lemma PushedTraceable(cat: Catalog, rw: Store, n: Node)
    requires Acyclic(rw + [n]) && Fits(rw, n)
    requires forall k :: 0 <= k < |n.Inputs()| ==> AllTraceable(cat, rw, n.Inputs()[k])
    requires Aligned(rw + [n], |rw|) && Traceable(cat, rw + [n], |rw|)
    ensures AllTraceable(cat, rw + [n], |rw|)
  {
    var plan: Store := rw + [n];
    forall i: nat | i < |plan| && Feeds(plan, i, |rw|) ensures Aligned(plan, i) && Traceable(cat, plan, i) {
      if i != |rw| {
        var k :| 0 <= k < |n.Inputs()| && Feeds(plan, i, n.Inputs()[k]);
        StillTraceable(cat, rw, n, n.Inputs()[k]);
      }
    }
  }

  // ----- one call, a chain of calls -----

  /** The nodes a query block can append whose condition depends on names. */
  predicate Demanding(n: Node) {
    n.Join? || n.SelectProject? || n.Window?
  }

  ghost predicate RelationsTraceable(cat: Catalog, plan: Store, relations: Relations) {
    forall e: Expr :: relations(e).Some? ==>
      relations(e).value < |plan| && AllTraceable(cat, plan, relations(e).value)
  }

  /** Measures built from helper calls have no filter and no ordering. */
  lemma {:induction false} BuiltBare(names: seq<string>, keys: seq<ColumnExpr>, es: seq<Expr>)
    requires BuiltMeasures(es).Some?
    ensures MeasuresTraceable(names, keys, BuiltMeasures(es).value)
  {
    if es != [] {
      var m := BuiltMeasure(es[0]).value;
      assert MeasureInputs(m) == m.arguments;
      LineageLimits.KeyFilterTraced(names, keys, m);
      BuiltBare(names, keys, es[1..]);
      var rest := BuiltMeasures(es[1..]).value;
      forall k | 0 <= k < |es| ensures MeasureTraceable(names, keys, ([m] + rest)[k]) {
        if k > 0 {
          assert MeasureTraceable(names, keys, rest[k - 1]);
        }
      }
    }
  }

  lemma AggregateTraceable(cat: Catalog, c: Cursor, es: seq<Expr>)
    requires BuiltMeasures(es).Some? && Unprefixed(c)
    ensures Fits(c.nodes, Aggregate(c.tip, [], BuiltMeasures(es).value))
    ensures var d := Push(c, Aggregate(c.tip, [], BuiltMeasures(es).value));
            Aligned(d.nodes, d.tip) && Traceable(cat, d.nodes, d.tip)
  {
    var n := Aggregate(c.tip, [], BuiltMeasures(es).value);
    assert n.Inputs() == [c.tip];
    var plan: Store, i := Push(c, n).nodes, |c.nodes|;
    assert plan[i].Inputs()[0] == c.tip && plan[c.tip] == c.nodes[c.tip];
    if c.nodes[c.tip].Aggregate? {
      Rewrites.PrefixStays(c.nodes, n, c.tip);
    }
    var (source, keys) := AggregateSource(plan, i);
    BuiltBare(Columns(cat, plan, source), keys, es);
  }

  /** A call leaves a traceable tip: by itself for filters, groupings, aggregates, generators, orderings and limits, and
      for joins, projections and windows when the new node meets its condition. */
  lemma CallTraceable(cat: Catalog, c: Cursor, relations: Relations, number: Expr -> nat, call: Invocation)
    requires PlannedCall(c, relations, number, call).Some?
    requires AllTraceable(cat, c.nodes, c.tip) && RelationsTraceable(cat, c.nodes, relations)
    requires call.method_ == "agg" ==> Unprefixed(c)
    requires var d := PlannedCall(c, relations, number, call).value;
             Demanding(d.nodes[d.tip]) ==> Traceable(cat, d.nodes, d.tip)
    ensures var d := PlannedCall(c, relations, number, call).value; AllTraceable(cat, d.nodes, d.tip)
  {
    var m := Chains.MethodNamed(call.method_).value;
    var n := AppendedNode(c.tip, relations, number, m, call.args).value;
    AggNamed(call.method_);
    AppendedMeets(cat, c, relations, number, m, call.args);
    PushedTraceable(cat, c.nodes, n);
  }

  lemma AppendedMeets(
      cat: Catalog, c: Cursor, relations: Relations, number: Expr -> nat, m: Chains.Method, args: seq<Expr>)
    requires AppendedNode(c.tip, relations, number, m, args).Some?
    requires AllTraceable(cat, c.nodes, c.tip) && RelationsTraceable(cat, c.nodes, relations)
    requires m.Agg? ==> Unprefixed(c)
    requires Fits(c.nodes, AppendedNode(c.tip, relations, number, m, args).value)
    requires var d := Push(c, AppendedNode(c.tip, relations, number, m, args).value);
             Demanding(d.nodes[d.tip]) ==> Traceable(cat, d.nodes, d.tip)
    ensures var n := AppendedNode(c.tip, relations, number, m, args).value;
            && (forall k :: 0 <= k < |n.Inputs()| ==> AllTraceable(cat, c.nodes, n.Inputs()[k]))
            && var d := Push(c, n);
            Aligned(d.nodes, d.tip) && Traceable(cat, d.nodes, d.tip)
  {
    if m.Agg? {
      AggregateTraceable(cat, c, args[0].items);
    }
  }

  lemma RelationsStayTraceable(cat: Catalog, rw: Store, n: Node, relations: Relations)
    requires Acyclic(rw + [n]) && RelationsTraceable(cat, rw, relations)
    ensures RelationsTraceable(cat, rw + [n], relations)
  {
    forall e: Expr | relations(e).Some?
      ensures relations(e).value < |rw + [n]| && AllTraceable(cat, rw + [n], relations(e).value)
    {
      StillTraceable(cat, rw, n, relations(e).value);
    }
  }

  /** The joins, projections and windows from `start` on meet their conditions. */
  predicate DemandsMet(cat: Catalog, plan: Store, start: nat) {
    forall j: nat {:trigger Traceable(cat, plan, j)} :: start <= j < |plan| && Demanding(plan[j]) ==>
      Traceable(cat, plan, j)
  }

  lemma DemandsFront(cat: Catalog, rw: Store, n: Node, start: nat)
    requires Acyclic(rw + [n]) && DemandsMet(cat, rw + [n], start)
    ensures DemandsMet(cat, rw, start)
  {
    forall j: nat | start <= j < |rw| && Demanding(rw[j]) ensures Traceable(cat, rw, j) {
      TraceableStays(cat, rw, n, j);
    }
  }

  lemma {:induction false} ChainTraceable(
      cat: Catalog, c: Cursor, relations: Relations, number: Expr -> nat, calls: seq<Invocation>)
    requires Planned(c, relations, number, calls).Some? && AggsApart(c, calls)
    requires AllTraceable(cat, c.nodes, c.tip) && RelationsTraceable(cat, c.nodes, relations)
    requires DemandsMet(cat, Planned(c, relations, number, calls).value.nodes, |c.nodes|)
    ensures var d := Planned(c, relations, number, calls).value;
            && |c.nodes| <= |d.nodes|
            && AllTraceable(cat, d.nodes, d.tip) && RelationsTraceable(cat, d.nodes, relations)
    decreases |calls|
  {
    if calls != [] {
      var n := |calls| - 1;
      var d := Planned(c, relations, number, calls[..n]).value;
      var m := Chains.MethodNamed(calls[n].method_).value;
      var node := AppendedNode(d.tip, relations, number, m, calls[n].args).value;
      ApartFront(c, calls);
      DemandsFront(cat, d.nodes, node, |c.nodes|);
      ChainTraceable(cat, c, relations, number, calls[..n]);
      LastUnprefixed(c, relations, number, calls);
      CallTraceable(cat, d, relations, number, calls[n]);
      RelationsStayTraceable(cat, d.nodes, node, relations);
    }
  }

  // ----- whole blocks -----

  /** The store a block starts from is traceable at its FROM cursor and at every relation it can join. */
  ghost predicate StartsTraceable(cat: Catalog, c: Cursor, relations: Relations) {
    Unprefixed(c) && AllTraceable(cat, c.nodes, c.tip) && RelationsTraceable(cat, c.nodes, relations)
  }

  /** A block's plan is traceable when the joins, projections and windows it appends are; its other clauses need
      nothing. */
  lemma BlockTraceable(cat: Catalog, c: Cursor, relations: Relations, number: Expr -> nat, body: seq<BodyItem>)
    requires Queries.LowerQuery(body).Ok? && PlannedQueries.PlanOf(c, relations, number, body).Some?
    requires StartsTraceable(cat, c, relations)
    requires DemandsMet(cat, PlannedQueries.PlanOf(c, relations, number, body).value.nodes, |c.nodes|)
    ensures var p := PlannedQueries.PlanOf(c, relations, number, body).value; AllTraceable(cat, p.nodes, p.tip)
  {
    QueryShape.AcceptedExactly(body);
    PlannedQueries.BlockPaired(QueryCorrect.StepsOf(body));
    PlannedQueries.PairedApart(c, PlannedQueries.CallsOf(body));
    ChainTraceable(cat, c, relations, number, PlannedQueries.CallsOf(body));
  }

  // ----- the joins of the guide -----

  /** `.key == relation.key` */
  function KeyedOn(relation: string, key: string): Expr {
    Binary(ScopedSurface(true, LeadingDotPath([key])), Eq, RelationField(relation, key))
  }

  lemma KeyedOnBuilds(relation: string, key: string)
    ensures LowerColumn(KeyedOn(relation, key)).Ok?
    ensures var e := Built(LowerColumn(KeyedOn(relation, key)).value);
            e.Some? && References(e.value) == {key, relation + "." + key}
  {
    var args := [ColCall(key), ColCall(relation + "." + key)];
    assert Joined([key], ".") == key;
    assert LowerValue(ScopedSurface(true, LeadingDotPath([key]))) == Ok(args[0]);
    assert LowerValue(RelationField(relation, key)) == Ok(args[1]);
    assert LowerColumn(KeyedOn(relation, key)) == Ok(HelperCall("eq", args));
    var a, b := Col(key), Col(relation + "." + key);
    assert args[1..] == [args[1]] && args[1..][1..] == [];
    assert BuiltAll(args[1..]) == Some([b]) by { assert [b] + [] == [b]; }
    assert BuiltAll(args) == Some([a, b]) by { assert [a] + [b] == [a, b]; }
    assert |"eq"| == 2 && "eq"[0] == 'e';
    var built := Applied("==", [("operator", "")], [a, b]);
    assert Built(HelperCall("eq", args)) == Some(built);
    var xs := built.node.arguments;
    assert xs[0] == a && xs[1] == b && References(xs[0]) == {key} && References(xs[1]) == {relation + "." + key};
  }

  /** `FROM source [LEFT] JOIN relation ON .key == relation.key SELECT items`, with plain items. */
  predicate KeyedJoinBlock(body: seq<BodyItem>, relation: string, key: string, items: seq<Item>) {
    && |body| == 4 && (forall k :: 0 <= k < 4 ==> body[k].ClauseItem?)
    && Words(body[0].clause) == "FROM" && body[0].clause.body.ExpressionBody?
    && QueryShape.OpensJoin(body[1].clause)
    && body[1].clause.body == ExpressionBody(Name(relation))
    && QueryShape.OpensOn(body[2].clause) && body[2].clause.body == ExpressionBody(KeyedOn(relation, key))
    && Words(body[3].clause) == "SELECT" && body[3].clause.body == ListBody(items)
    && !AnyAggregate(items) && Queries.StripDistinct(items) == Ok((items, false))
  }

  lemma RecognisedStep(body: seq<BodyItem>)
    requires body != [] && body[0].ClauseItem?
    ensures QueryShape.Recognised(body)
         == (if QueryShape.Acts(body[0].clause) then [body[0].clause] else []) + QueryShape.Recognised(body[1..])
  {
  }

  lemma ParseSingle(c: Clause)
    requires !QueryShape.OpensOn(c) && !QueryShape.OpensJoin(c)
    ensures QueryShape.Parse([c]) == Some([QueryShape.Single(c)])
  {
    assert [c][1..] == [] && [QueryShape.Single(c)] + [] == [QueryShape.Single(c)];
  }

  lemma ParsePair(join: Clause, on: Clause, rest: seq<Clause>)
    requires QueryShape.OpensJoin(join) && QueryShape.OpensOn(on)
    requires QueryShape.Parse(rest).Some?
    ensures QueryShape.Parse([join, on] + rest) == Some([QueryShape.JoinOn(join, on)] + QueryShape.Parse(rest).value)
  {
    var cs := [join, on] + rest;
    assert cs[0] == join && cs[1] == on && cs[2..] == rest;
  }

  lemma KeyedSteps(body: seq<BodyItem>, relation: string, key: string, items: seq<Item>)
    requires KeyedJoinBlock(body, relation, key, items)
    ensures QueryShape.Parse(QueryShape.Recognised(body))
         == Some([QueryShape.JoinOn(body[1].clause, body[2].clause), QueryShape.Single(body[3].clause)])
  {
    KeyedClauses(body, relation, key, items);
    ParseThree(body[1].clause, body[2].clause, body[3].clause);
  }

  lemma ParseThree(join: Clause, on: Clause, last: Clause)
    requires QueryShape.OpensJoin(join) && QueryShape.OpensOn(on)
    requires !QueryShape.OpensOn(last) && !QueryShape.OpensJoin(last)
    ensures QueryShape.Parse([join, on, last]) == Some([QueryShape.JoinOn(join, on), QueryShape.Single(last)])
  {
    ParseSingle(last);
    ParsePair(join, on, [last]);
    assert [join, on] + [last] == [join, on, last];
    assert [QueryShape.JoinOn(join, on)] + [QueryShape.Single(last)]
        == [QueryShape.JoinOn(join, on), QueryShape.Single(last)];
  }

  lemma KeyedClauses(body: seq<BodyItem>, relation: string, key: string, items: seq<Item>)
    requires KeyedJoinBlock(body, relation, key, items)
    ensures QueryShape.Recognised(body) == [body[1].clause, body[2].clause, body[3].clause]
  {
    RecognisedStep(body);
    RecognisedStep(body[1..]);
    RecognisedStep(body[2..]);
    RecognisedStep(body[3..]);
    assert body[1..][1..] == body[2..] && body[2..][1..] == body[3..] && body[3..][1..] == [];
    assert body[1..][0] == body[1] && body[2..][0] == body[2] && body[3..][0] == body[3];
  }

  /** The two calls of such a block. */
  lemma KeyedCalls(body: seq<BodyItem>, relation: string, key: string, items: seq<Item>)
    requires KeyedJoinBlock(body, relation, key, items) && Queries.LowerQuery(body).Ok?
    ensures LowerPlainItems(items).Ok? && LowerColumn(KeyedOn(relation, key)).Ok?
    ensures PlannedQueries.CallsOf(body)
         == [Invocation(if Words(body[1].clause) == "LEFT JOIN" then "left_join" else "join",
                        [Name(relation), LowerColumn(KeyedOn(relation, key)).value, Str(relation)]),
             Invocation("select", [ListOf(LowerPlainItems(items).value)])]
  {
    KeyedSteps(body, relation, key, items);
    QueryShape.AcceptedExactly(body);
    var join, on, select := body[1].clause, body[2].clause, body[3].clause;
    ExpandTwo(QueryShape.JoinOn(join, on), QueryShape.Single(select));
    ExpandKeyed(join, on, relation, key);
    ExpandPlain(select, items);
  }

  lemma ExpandTwo(a: QueryShape.Step, b: QueryShape.Step)
    requires QueryShape.ExpandAll([a, b]).Ok?
    ensures QueryShape.Expand(a).Ok? && QueryShape.Expand(b).Ok?
    ensures QueryShape.ExpandAll([a, b]) == Ok(QueryShape.Expand(a).value + QueryShape.Expand(b).value)
  {
    assert [a, b][1..] == [b] && [b][1..] == [];
    var second := QueryShape.Expand(b).value;
    assert QueryShape.ExpandAll([b]) == Ok(second) by { assert second + [] == second; }
  }

  lemma ExpandKeyed(join: Clause, on: Clause, relation: string, key: string)
    requires QueryShape.OpensJoin(join) && join.body == ExpressionBody(Name(relation))
    requires on.body == ExpressionBody(KeyedOn(relation, key))
    ensures LowerColumn(KeyedOn(relation, key)).Ok?
    ensures QueryShape.Expand(QueryShape.JoinOn(join, on))
         == Ok([Invocation(if Words(join) == "LEFT JOIN" then "left_join" else "join",
                           [Name(relation), LowerColumn(KeyedOn(relation, key)).value, Str(relation)])])
  {
    KeyedOnBuilds(relation, key);
  }

  lemma ExpandPlain(select: Clause, items: seq<Item>)
    requires Words(select) == "SELECT" && select.body == ListBody(items)
    requires !AnyAggregate(items) && Queries.StripDistinct(items) == Ok((items, false))
    requires QueryShape.Expand(QueryShape.Single(select)).Ok?
    ensures LowerPlainItems(items).Ok?
    ensures QueryShape.Expand(QueryShape.Single(select))
         == Ok([Invocation("select", [ListOf(LowerPlainItems(items).value)])])
  {
    assert Queries.ClauseCalls(select) == Queries.ClauseSelect(select, false);
    assert Queries.ClauseSelect(select, false) == SelectCalls(items, false);
  }

  /** The nodes of such a block: the join, and the projection on it. */
  lemma KeyedNodes(
      c: Cursor, relations: Relations, number: Expr -> nat, body: seq<BodyItem>, relation: string, key: string,
      items: seq<Item>)
    requires KeyedJoinBlock(body, relation, key, items) && Queries.LowerQuery(body).Ok?
    requires PlannedQueries.PlanOf(c, relations, number, body).Some?
    ensures var nodes := PlannedQueries.PlanOf(c, relations, number, body).value.nodes;
            && |nodes| == |c.nodes| + 2 && nodes[..|c.nodes|] == c.nodes
            && JoinsOn(nodes[|c.nodes|], c.tip, relation, key)
            && !nodes[|c.nodes| + 1].Join? && !nodes[|c.nodes| + 1].Window?
            && (nodes[|c.nodes| + 1].SelectProject? ==>
                  && nodes[|c.nodes| + 1].input == |c.nodes| && LowerPlainItems(items).Ok?
                  && BuiltAssignments(LowerPlainItems(items).value) == Some(nodes[|c.nodes| + 1].assignments))
  {
    KeyedCalls(body, relation, key, items);
    KeyedOnBuilds(relation, key);
    var calls := PlannedQueries.CallsOf(body);
    PlannedTwo(c, relations, number, calls[0], calls[1]);
  }

  /** A join call and a select call, one after the other. */
  lemma PlannedTwo(c: Cursor, relations: Relations, number: Expr -> nat, a: Invocation, b: Invocation)
    requires Planned(c, relations, number, [a, b]).Some?
    requires a.method_ in {"join", "left_join"} && |a.args| == 3 && b.method_ == "select"
    ensures a.args[2].Str? && Built(a.args[1]).Some?
    ensures var nodes, n := Planned(c, relations, number, [a, b]).value.nodes, |c.nodes|;
            && |nodes| == n + 2 && nodes[..n] == c.nodes
            && nodes[n].Join? && nodes[n].left == c.tip
            && nodes[n].relationName == a.args[2].text && nodes[n].on == Built(a.args[1]).value
            && !nodes[n + 1].Join? && !nodes[n + 1].Window?
            && (nodes[n + 1].SelectProject? ==>
                  && nodes[n + 1].input == n
                  && |b.args| == 1 && b.args[0].ListOf?
                  && BuiltAssignments(b.args[0].items) == Some(nodes[n + 1].assignments))
  {
    assert [a, b][..1] == [a] && [a][..0] == [];
    assert Planned(c, relations, number, [a]) == PlannedCall(c, relations, number, a);
    var d := Planned(c, relations, number, [a]).value;
    assert Planned(c, relations, number, [a, b]) == PlannedCall(d, relations, number, b);
    JoinCallPushes(c, relations, number, a);
    SelectCallPushes(d, relations, number, b);
    var e := PlannedCall(d, relations, number, b).value;
    assert e.nodes[..|c.nodes|] == d.nodes[..|c.nodes|];
  }

  lemma JoinCallPushes(c: Cursor, relations: Relations, number: Expr -> nat, call: Invocation)
    requires call.method_ in {"join", "left_join"} && |call.args| == 3 && PlannedCall(c, relations, number, call).Some?
    ensures var d := PlannedCall(c, relations, number, call).value;
            && d.tip == |c.nodes| && d.nodes[..d.tip] == c.nodes && |d.nodes| == d.tip + 1
            && call.args[2].Str? && Built(call.args[1]).Some?
            && d.nodes[d.tip].Join? && d.nodes[d.tip].left == c.tip
            && d.nodes[d.tip].relationName == call.args[2].text && d.nodes[d.tip].on == Built(call.args[1]).value
  {
    QueryCorrect.MethodNames();
  }

  lemma SelectCallPushes(c: Cursor, relations: Relations, number: Expr -> nat, call: Invocation)
    requires call.method_ == "select" && PlannedCall(c, relations, number, call).Some?
    ensures var d := PlannedCall(c, relations, number, call).value;
            && d.tip == |c.nodes| && d.nodes[..d.tip] == c.nodes && |d.nodes| == d.tip + 1
            && !d.nodes[d.tip].Join? && !d.nodes[d.tip].Window?
            && (d.nodes[d.tip].SelectProject? ==>
                  && d.nodes[d.tip].input == c.tip
                  && |call.args| == 1 && call.args[0].ListOf?
                  && BuiltAssignments(call.args[0].items) == Some(d.nodes[d.tip].assignments))
  {
    QueryCorrect.MoreMethodNames();
  }

  predicate JoinsOn(n: Node, left: nat, relation: string, key: string) {
    && n.Join? && n.left == left && n.relationName == relation
    && References(n.on) == {key, relation + "." + key}
  }

  /** Both nodes meet their conditions: the join by its key, the projection when no item reads an earlier alias. */
  lemma KeyedDemands(cat: Catalog, c: Cursor, plan: Store, relation: string, key: string)
    requires |plan| == |c.nodes| + 2 && plan[..|c.nodes|] == c.nodes
    requires JoinsOn(plan[|c.nodes|], c.tip, relation, key) && key in Columns(cat, plan, c.tip)
    requires !plan[|c.nodes| + 1].Join? && !plan[|c.nodes| + 1].Window?
    requires plan[|c.nodes| + 1].SelectProject? ==> LineageLimits.ItemsApart(plan[|c.nodes| + 1].assignments)
    ensures DemandsMet(cat, plan, |c.nodes|)
  {
    forall j: nat | |c.nodes| <= j < |plan| && Demanding(plan[j]) ensures Traceable(cat, plan, j) {
      if j == |c.nodes| {
        JoinNodeTraceable(cat, plan, j, relation, key);
      } else {
        assert plan[j].Inputs()[0] == plan[j].input;
        LineageLimits.ApartTraced(Columns(cat, plan, plan[j].input), plan[j].assignments);
      }
    }
  }

  lemma JoinNodeTraceable(cat: Catalog, plan: Store, i: nat, relation: string, key: string)
    requires i < |plan| && plan[i].Join? && JoinsOn(plan[i], plan[i].left, relation, key) && plan[i].left < i
    requires key in Columns(cat, plan, plan[i].left)
    ensures Traceable(cat, plan, i)
  {
    var left, right := plan[i].left, plan[i].right;
    assert plan[i].Inputs()[0] == left && plan[i].Inputs()[1] == right;
    LineageLimits.SameKeyTraced(left, Columns(cat, plan, left), right, Columns(cat, plan, right), relation, plan[i].on, key);
  }

  lemma {:induction false} ColumnsPrefix(cat: Catalog, front: Store, plan: Store, i: nat)
    requires |front| <= |plan| && plan[..|front|] == front && i < |front|
    ensures Columns(cat, plan, i) == Columns(cat, front, i)
    decreases |plan| - |front|
  {
    if |front| < |plan| {
      var more := front + [plan[|front|]];
      assert plan[..|front| + 1] == more;
      assert Acyclic(more);
      Rewrites.ColumnsStay(cat, front, plan[|front|], i);
      ColumnsPrefix(cat, more, plan, i);
    } else {
      assert plan == front;
    }
  }

  /** No item reads the name of an earlier item. */
  predicate ReadsApart(items: seq<Item>) {
    LowerPlainItems(items).Ok? && BuiltAssignments(LowerPlainItems(items).value).Some? ==>
      LineageLimits.ItemsApart(BuiltAssignments(LowerPlainItems(items).value).value)
  }

  /** Main result for joins: the block of the guide, `FROM source [LEFT] JOIN relation ON .key == relation.key SELECT ...`,
      has a traceable plan whenever its sources do, the FROM side has the key and no item reads an earlier alias. */
  lemma KeyedJoinTraceable(
      cat: Catalog, c: Cursor, relations: Relations, number: Expr -> nat, body: seq<BodyItem>, relation: string,
      key: string, items: seq<Item>)
    requires KeyedJoinBlock(body, relation, key, items) && Queries.LowerQuery(body).Ok?
    requires PlannedQueries.PlanOf(c, relations, number, body).Some? && StartsTraceable(cat, c, relations)
    requires key in Columns(cat, c.nodes, c.tip) && ReadsApart(items)
    ensures var p := PlannedQueries.PlanOf(c, relations, number, body).value; AllTraceable(cat, p.nodes, p.tip)
  {
    var p := PlannedQueries.PlanOf(c, relations, number, body).value;
    KeyedNodes(c, relations, number, body, relation, key, items);
    ColumnsPrefix(cat, c.nodes, p.nodes, c.tip);
    KeyedDemands(cat, c, p.nodes, relation, key);
    BlockTraceable(cat, c, relations, number, body);
  }

  /** Lineage of that block is sound, with no condition left on its join. */
  lemma KeyedJoinSound(
      eng: Engine, cat: Catalog, db1: Database, db2: Database, c: Cursor, relations: Relations,
      host1: QueryMeaning.Host, host2: QueryMeaning.Host, body: seq<BodyItem>, relation: string, key: string,
      items: seq<Item>, f: nat)
    requires KeyedJoinBlock(body, relation, key, items)
    requires Queries.LowerQuery(body).Ok? && host1.number == host2.number
    requires PlannedQueries.Starts(eng, cat, db1, c, relations, host1, body)
    requires PlannedQueries.Starts(eng, cat, db2, c, relations, host2, body)
    requires PlannedQueries.PlanOf(c, relations, host1.number, body).Some? && StartsTraceable(cat, c, relations)
    requires key in Columns(cat, c.nodes, c.tip) && ReadsApart(items)
    requires var p := PlannedQueries.PlanOf(c, relations, host1.number, body).value;
             && f < |Columns(cat, p.nodes, p.tip)|
             && LineageSlices.RootsAgree(p.nodes, p.tip, db1, db2, Sources(cat, p.nodes, p.tip, f))
             && Eval(eng, cat, db1, p.nodes, p.tip).Some?
    ensures var t1, t2 := PlannedQueries.Meaning(eng, host1, body).table, PlannedQueries.Meaning(eng, host2, body).table;
            && t1.count == t2.count
            && f < |t1.cols| && f < |t2.cols| && t1.cols[f] == t2.cols[f]
  {
    KeyedJoinTraceable(cat, c, relations, host1.number, body, relation, key, items);
    PlannedQueries.QueryLineageSound(eng, cat, db1, db2, c, relations, host1, host2, body, f);
  }

  // ----- the block of the guide -----

  function Path(field: string): Expr {
    ScopedSurface(true, LeadingDotPath([field]))
  }

  function GuideItems(): seq<Item> {
    [Item(Path("id"), Some("order_id")), Item(Path("amount"), Some("amount")),
     Item(RelationField("order_archive", "status"), Some("archived_status"))]
  }

  /** `FROM orders LEFT JOIN order_archive ON .customer_id == order_archive.customer_id SELECT .id as order_id,
      .amount as amount, order_archive.status as archived_status` */
  function GuideBody(): seq<BodyItem> {
    [ClauseItem(Clause("FROM", [], ExpressionBody(Name("orders")))),
     ClauseItem(Clause("LEFT", ["JOIN"], ExpressionBody(Name("order_archive")))),
     ClauseItem(Clause("ON", [], ExpressionBody(KeyedOn("order_archive", "customer_id")))),
     ClauseItem(Clause("SELECT", [], ListBody(GuideItems())))]
  }

  lemma GuideKeywords()
    ensures var b := GuideBody();
            && Words(b[0].clause) == "FROM" && Words(b[1].clause) == "LEFT JOIN"
            && Words(b[2].clause) == "ON" && Words(b[3].clause) == "SELECT"
  {
    assert Joined(["FROM"], " ") == "FROM" && Joined(["ON"], " ") == "ON" && Joined(["SELECT"], " ") == "SELECT";
    assert ["FROM"] + [] == ["FROM"] && ["ON"] + [] == ["ON"] && ["SELECT"] + [] == ["SELECT"];
    assert ["LEFT"] + ["JOIN"] == ["LEFT", "JOIN"] && ["LEFT", "JOIN"][1..] == ["JOIN"];
    assert Joined(["LEFT", "JOIN"], " ") == "LEFT" + " " + Joined(["JOIN"], " ");
    assert Joined(["JOIN"], " ") == "JOIN";
    assert "LEFT" + " " + "JOIN" == "LEFT JOIN";
  }

  lemma GuideIsKeyed()
    ensures KeyedJoinBlock(GuideBody(), "order_archive", "customer_id", GuideItems())
  {
    GuideKeywords();
    var items := GuideItems();
    assert !AnyAggregate(items);
    assert ["id"][0] == "id" && ["id"] != [] && |"id"| == 2 && |"DISTINCT"| == 8;
    assert Queries.StripExpr(items[0].expr) == Incan.Ok((items[0].expr, false));
    assert items[0 := Item(items[0].expr, items[0].alias)] == items;
  }

  function GuideAssignments(): seq<Assignment> {
    [Assignment("order_id", Col("id")), Assignment("amount", Col("amount")),
     Assignment("archived_status", Col("order_archive.status"))]
  }

  lemma GuideSelects()
    ensures LowerPlainItems(GuideItems()).Ok?
    ensures BuiltAssignments(LowerPlainItems(GuideItems()).value) == Some(GuideAssignments())
  {
    var items, a := GuideItems(), GuideAssignments();
    assert Joined(["id"], ".") == "id" && Joined(["amount"], ".") == "amount";
    assert "order_archive" + "." + "status" == "order_archive.status";
    AssignsOne([], items[0], a[0]);
    AssignsOne(items[..1], items[1], a[1]);
    AssignsOne(items[..2], items[2], a[2]);
    assert items[..1] == [] + [items[0]] && items[..2] == items[..1] + [items[1]] && items == items[..2] + [items[2]];
    assert [] + [a[0]] + [a[1]] + [a[2]] == a;
  }

  /** A direct, aliased item adds its assignment. */
  lemma {:induction false} AssignsOne(front: seq<Item>, item: Item, a: Assignment)
    requires item.alias == Some(a.outputName) && LowerColumn(item.expr).Ok?
    requires Built(LowerColumn(item.expr).value) == Some(a.expr)
    requires LowerPlainItems(front).Ok? && BuiltAssignments(LowerPlainItems(front).value).Some?
    ensures LowerPlainItems(front + [item]).Ok?
    ensures BuiltAssignments(LowerPlainItems(front + [item]).value)
         == Some(BuiltAssignments(LowerPlainItems(front).value).value + [a])
  {
    assert (front + [item])[..|front|] == front;
    var last := LowerPlainItem(item).value;
    assert LowerPlainItems(front + [item]) == Incan.Ok(LowerPlainItems(front).value + [last]);
    assert BuiltAssignment(last) == Some(a);
    BuiltOneMore(LowerPlainItems(front).value, last, a);
  }

  lemma {:induction false} BuiltOneMore(es: seq<Expr>, last: Expr, a: Assignment)
    requires BuiltAssignments(es).Some? && BuiltAssignment(last) == Some(a)
    ensures BuiltAssignments(es + [last]) == Some(BuiltAssignments(es).value + [a])
  {
    assert (es + [last])[..|es|] == es;
  }

  lemma GuideLowers()
    ensures Queries.LowerQuery(GuideBody()).Ok?
  {
    var body := GuideBody();
    GuideKeywords();
    GuideIsKeyed();
    GuideSelects();
    KeyedSteps(body, "order_archive", "customer_id", GuideItems());
    var steps := QueryShape.Parse(QueryShape.Recognised(body)).value;
    ExpandKeyed(body[1].clause, body[2].clause, "order_archive", "customer_id");
    PlainExpands(body[3].clause, GuideItems());
    BothExpand(steps[0], steps[1]);
    assert QueryShape.SelectStep(steps[1]);
    QueryShape.AcceptedExactly(body);
  }

  lemma PlainExpands(select: Clause, items: seq<Item>)
    requires Words(select) == "SELECT" && select.body == ListBody(items)
    requires !AnyAggregate(items) && Queries.StripDistinct(items) == Incan.Ok((items, false))
    requires LowerPlainItems(items).Ok?
    ensures QueryShape.Expand(QueryShape.Single(select)).Ok?
  {
    assert Queries.ClauseCalls(select) == Queries.ClauseSelect(select, false);
    assert Queries.ClauseSelect(select, false) == SelectCalls(items, false);
  }

  lemma BothExpand(a: QueryShape.Step, b: QueryShape.Step)
    requires QueryShape.Expand(a).Ok? && QueryShape.Expand(b).Ok?
    ensures QueryShape.ExpandAll([a, b]).Ok?
  {
    assert [a, b][1..] == [b] && [b][1..] == [];
    assert QueryShape.ExpandAll([b]).Ok?;
  }

  /** The orders and their archive. */
  function GuideCursor(): Cursor {
    RawCursor([Read("orders"), Read("order_archive")], 0)
  }

  function GuideRelations(): Relations {
    (e: Expr) => if e == Name("order_archive") then Some(1) else None
  }

  lemma GuideStarts(cat: Catalog)
    ensures StartsTraceable(cat, GuideCursor(), GuideRelations())
  {
  }

  /** Such a block builds a plan when its relation stands in the store. */
  lemma KeyedBuilds(
      c: Cursor, relations: Relations, number: Expr -> nat, body: seq<BodyItem>, relation: string, key: string,
      items: seq<Item>)
    requires KeyedJoinBlock(body, relation, key, items) && Queries.LowerQuery(body).Ok?
    requires relations(Name(relation)).Some? && relations(Name(relation)).value < |c.nodes|
    requires QueryBuilds.PlainItems(items)
    ensures PlannedQueries.PlanOf(c, relations, number, body).Some?
  {
    KeyedSteps(body, relation, key, items);
    PlainPair(|c.nodes|, relations, body[1].clause, body[2].clause, body[3].clause, relation, key, items);
    assert QueryCorrect.StepsOf(body)
        == [QueryShape.JoinOn(body[1].clause, body[2].clause), QueryShape.Single(body[3].clause)];
    PlannedQueries.BlockBuilds(c, relations, number, body);
  }

  lemma PlainPair(
      size: nat, relations: Relations, join: Clause, on: Clause, select: Clause, relation: string, key: string,
      items: seq<Item>)
    requires join.body == ExpressionBody(Name(relation)) && on.body == ExpressionBody(KeyedOn(relation, key))
    requires select.body == ListBody(items) && QueryBuilds.PlainItems(items)
    requires relations(Name(relation)).Some? && relations(Name(relation)).value < size
    ensures QueryBuilds.PlainSteps(size, relations, [QueryShape.JoinOn(join, on), QueryShape.Single(select)])
  {
    assert QueryBuilds.PlainLits(ScopedSurface(true, LeadingDotPath([key])));
    assert QueryBuilds.PlainLits(RelationField(relation, key));
    assert QueryBuilds.PlainLits(KeyedOn(relation, key));
    assert QueryBuilds.PlainStep(size, relations, QueryShape.JoinOn(join, on));
    assert QueryBuilds.PlainStep(size, relations, QueryShape.Single(select));
  }

  lemma GuideBuilds(number: Expr -> nat)
    requires Queries.LowerQuery(GuideBody()).Ok?
    ensures PlannedQueries.PlanOf(GuideCursor(), GuideRelations(), number, GuideBody()).Some?
  {
    assert KeyedJoinBlock(GuideBody(), "order_archive", "customer_id", GuideItems()) by {
      GuideIsKeyed();
    }
    GuidePlain();
    KeyedBuilds(GuideCursor(), GuideRelations(), number, GuideBody(), "order_archive", "customer_id", GuideItems());
  }

  lemma GuidePlain()
    ensures QueryBuilds.PlainItems(GuideItems()) && GuideRelations()(Name("order_archive")) == Some(1)
  {
    forall k | 0 <= k < |GuideItems()| ensures QueryBuilds.PlainLits(GuideItems()[k].expr) {
      assert GuideItems()[k].expr.ScopedSurface? || GuideItems()[k].expr.RelationField?;
    }
  }

  /** The guide's block lowers, builds a plan, and the plan is traceable in every catalog whose orders have the key. */
  lemma GuideJoinTraceable(cat: Catalog, number: Expr -> nat)
    requires "customer_id" in cat("orders")
    ensures Queries.LowerQuery(GuideBody()).Ok?
    ensures var p := PlannedQueries.PlanOf(GuideCursor(), GuideRelations(), number, GuideBody());
            p.Some? && AllTraceable(cat, p.value.nodes, p.value.tip)
  {
    GuideLowers();
    GuideBuilds(number);
    assert KeyedJoinBlock(GuideBody(), "order_archive", "customer_id", GuideItems()) by {
      GuideIsKeyed();
    }
    assert ReadsApart(GuideItems()) by {
      GuideSelects();
      GuideApart();
    }
    GuideStarts(cat);
    KeyedJoinTraceable(cat, GuideCursor(), GuideRelations(), number, GuideBody(), "order_archive", "customer_id",
                       GuideItems());
  }

  lemma GuideApart()
    ensures LineageLimits.ItemsApart(GuideAssignments())
  {
    var a := GuideAssignments();
    assert |"order_id"| == 8 && |"amount"| == 6 && |"id"| == 2 && |"order_archive.status"| == 20;
    assert References(a[1].expr) == {"amount"} && References(a[2].expr) == {"order_archive.status"};
  }
}
