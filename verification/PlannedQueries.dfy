/** From the clauses of a query block to the plan: the block's own meaning is the table of the plan it appends, so what
    is proved of plans holds of query blocks. */
module PlannedQueries {
  import opened Tables
  import opened Wrappers
  import opened Incan
  import opened Plans
  import opened Carriers
  import opened Desugar
  import opened QueryPlans
  import Adoption
  import Chains = ChainMeaning
  import LineageSlices
  import LineageSoundness
  import Queries
  import QueryBuilds
  import QueryCorrect
  import QueryMeaning
  import QueryShape

  // ----- the calls of a block never aggregate twice in a row -----

  /** Every `agg` is followed by its `select`. */
  predicate AggThenSelect(calls: seq<Invocation>) {
    forall k :: 0 <= k < |calls| && calls[k].method_ == "agg" ==>
      k + 1 < |calls| && calls[k + 1].method_ == "select"
  }

  lemma AggThenSelectAppend(a: seq<Invocation>, b: seq<Invocation>)
    requires AggThenSelect(a) && AggThenSelect(b)
    ensures AggThenSelect(a + b)
  {
  }

  lemma OtherNames()
    ensures "agg" !in {"filter", "join", "left_join", "group_by", "generate", "with_window_column", "select", "order_by",
                       "limit"}
  {
    assert |"agg"| == 3;
  }

  lemma {:induction false} WindowsPaired(fields: seq<Incan.FieldSpec>)
    requires Queries.WindowCalls(fields).Ok?
    ensures AggThenSelect(Queries.WindowCalls(fields).value)
  {
    OtherNames();
    if fields != [] {
      WindowsPaired(fields[..|fields| - 1]);
    }
  }

  lemma SelectPaired(items: seq<Item>, distinct: bool)
    requires SelectCalls(items, distinct).Ok?
    ensures AggThenSelect(SelectCalls(items, distinct).value)
  {
    OtherNames();
  }

  lemma StepPaired(step: QueryShape.Step)
    requires QueryShape.Expand(step).Ok?
    ensures AggThenSelect(QueryShape.Expand(step).value)
  {
    OtherNames();
    if step.Single? {
      var c := step.clause;
      match Queries.KeywordOf(c) {
        case WindowBy => WindowsPaired(c.body.fields);
        case Select => ClausePaired(c, false);
        case SelectDistinct => ClausePaired(c, true);
        case _ =>
      }
    }
  }

  lemma ClausePaired(c: Clause, explicit: bool)
    requires Queries.ClauseSelect(c, explicit).Ok?
    ensures AggThenSelect(Queries.ClauseSelect(c, explicit).value)
  {
    var items := Queries.ItemsOf(c).value;
    if explicit {
      SelectPaired(items, true);
    } else {
      var stripped := Queries.StripDistinct(items).value;
      SelectPaired(stripped.0, stripped.1);
    }
  }

  lemma {:induction false} BlockPaired(steps: seq<QueryShape.Step>)
    requires QueryShape.ExpandAll(steps).Ok?
    ensures AggThenSelect(QueryShape.ExpandAll(steps).value)
  {
    if steps != [] {
      StepPaired(steps[0]);
      BlockPaired(steps[1..]);
      AggThenSelectAppend(QueryShape.Expand(steps[0]).value, QueryShape.ExpandAll(steps[1..]).value);
    }
  }

  lemma PairedApart(c: Cursor, calls: seq<Invocation>)
    requires AggThenSelect(calls) && Unprefixed(c)
    ensures AggsApart(c, calls)
  {
    OtherNames();
    forall k | 0 < k < |calls| && calls[k - 1].method_ == "agg" ensures calls[k].method_ != "agg" {
      assert calls[(k - 1) + 1].method_ == "select";
    }
  }

  // ----- the plan of a block -----

  function CallsOf(body: seq<BodyItem>): seq<Invocation>
    requires Queries.LowerQuery(body).Ok?
  {
    QueryShape.AcceptedExactly(body);
    QueryShape.ExpandAll(QueryCorrect.StepsOf(body)).value
  }

  /** The cursor a block leads to from the cursor of its FROM expression. */
  function PlanOf(c: Cursor, relations: Relations, number: Expr -> nat, body: seq<BodyItem>): Option<Cursor>
    requires Queries.LowerQuery(body).Ok?
  {
    Planned(c, relations, number, CallsOf(body))
  }

  /** A block builds a plan, one node per call, whenever its `lit`s are given literals and its joined relations stand in
      the store. */
  lemma BlockBuilds(c: Cursor, relations: Relations, number: Expr -> nat, body: seq<BodyItem>)
    requires Queries.LowerQuery(body).Ok?
    requires QueryBuilds.PlainSteps(|c.nodes|, relations, QueryCorrect.StepsOf(body))
    ensures PlanOf(c, relations, number, body).Some?
    ensures |PlanOf(c, relations, number, body).value.nodes| == |c.nodes| + |CallsOf(body)|
  {
    QueryShape.AcceptedExactly(body);
    QueryBuilds.StepsBuild(|c.nodes|, relations, number, QueryCorrect.StepsOf(body));
    QueryBuilds.ChainBuilds(c, relations, number, CallsOf(body));
  }

  /** The clauses of a block, run on what the host supplies for its FROM expression. */
  function Meaning(eng: Engine, host: QueryMeaning.Host, body: seq<BodyItem>): Frame
    requires Queries.LowerQuery(body).Ok?
  {
    var start := Chains.CarrierOf(eng, host, QueryCorrect.SourceOf(body));
    Flat(QueryMeaning.Run(eng, host, start, QueryCorrect.StepsOf(body)))
  }

  /** What a block starts from: a cursor and host that agree, and clauses within the name conditions. */
  ghost predicate Starts(
      eng: Engine, cat: Catalog, db: Database, c: Cursor, relations: Relations, host: QueryMeaning.Host,
      body: seq<BodyItem>)
    requires Queries.LowerQuery(body).Ok?
  {
    var source := QueryCorrect.SourceOf(body);
    && Unprefixed(c)
    && Follows(eng, cat, db, c, relations, host, source)
    && QueryCorrect.Faithful(QueryCorrect.GroupingOf(Chains.CarrierOf(eng, host, source)), QueryCorrect.StepsOf(body))
  }

  /** Main result: the plan a query block appends has the block's column names, and wherever it lowers it evaluates to
      the table the clauses mean. */
  lemma QueryPlanned(
      eng: Engine, cat: Catalog, db: Database, c: Cursor, relations: Relations, host: QueryMeaning.Host,
      body: seq<BodyItem>)
    requires Queries.LowerQuery(body).Ok? && Starts(eng, cat, db, c, relations, host, body)
    requires PlanOf(c, relations, host.number, body).Some?
    ensures var p := PlanOf(c, relations, host.number, body).value;
            NodeShows(eng, cat, db, p.nodes, p.tip, Meaning(eng, host, body))
  {
    var calls, source := CallsOf(body), QueryCorrect.SourceOf(body);
    QueryShape.AcceptedExactly(body);
    BlockPaired(QueryCorrect.StepsOf(body));
    PairedApart(c, calls);
    ChainFollows(eng, cat, db, c, relations, host, source, calls);
    QueryCorrect.QueryPreserved(eng, host, body);
  }

  /** The canonical rewrite of that plan means the clauses too. */
  lemma RewrittenQueryPlanned(
      eng: Engine, cat: Catalog, db: Database, c: Cursor, relations: Relations, host: QueryMeaning.Host,
      body: seq<BodyItem>)
    requires Queries.LowerQuery(body).Ok? && Starts(eng, cat, db, c, relations, host, body)
    requires PlanOf(c, relations, host.number, body).Some?
    requires var p := PlanOf(c, relations, host.number, body).value; Adoption.SafePass(cat, p.nodes, p.tip)
    ensures var p := PlanOf(c, relations, host.number, body).value;
            var v := Adoption.RewrittenFrom(p.nodes, p.tip);
            var r := Adoption.CompactedFrom(v.nodes, v.ids[p.tip]).view;
            NodeShows(eng, cat, db, r.nodes, r.ids[v.ids[p.tip]], Meaning(eng, host, body))
  {
    var p := PlanOf(c, relations, host.number, body).value;
    QueryPlanned(eng, cat, db, c, relations, host, body);
    Adoption.CanonicalPassPreserves(eng, cat, db, p.nodes, p.tip);
  }

  /** Lineage of a query block: databases that agree on every column the plan's lineage traces an output column back
      to give that column the same values in what the clauses mean. */
  lemma QueryLineageSound(
      eng: Engine, cat: Catalog, db1: Database, db2: Database, c: Cursor, relations: Relations,
      host1: QueryMeaning.Host, host2: QueryMeaning.Host, body: seq<BodyItem>, f: nat)
    requires Queries.LowerQuery(body).Ok? && host1.number == host2.number
    requires Starts(eng, cat, db1, c, relations, host1, body) && Starts(eng, cat, db2, c, relations, host2, body)
    requires PlanOf(c, relations, host1.number, body).Some?
    requires var p := PlanOf(c, relations, host1.number, body).value;
             && f < |Columns(cat, p.nodes, p.tip)|
             && LineageSoundness.AllTraceable(cat, p.nodes, p.tip)
             && LineageSlices.RootsAgree(p.nodes, p.tip, db1, db2, LineageSoundness.Sources(cat, p.nodes, p.tip, f))
             && Eval(eng, cat, db1, p.nodes, p.tip).Some?
    ensures var t1, t2 := Meaning(eng, host1, body).table, Meaning(eng, host2, body).table;
            && t1.count == t2.count
            && f < |t1.cols| && f < |t2.cols| && t1.cols[f] == t2.cols[f]
  {
    var p := PlanOf(c, relations, host1.number, body).value;
    QueryPlanned(eng, cat, db1, c, relations, host1, body);
    QueryPlanned(eng, cat, db2, c, relations, host2, body);
    LineageSoundness.LineageSound(eng, cat, p.nodes, p.tip, f, db1, db2);
  }
}
