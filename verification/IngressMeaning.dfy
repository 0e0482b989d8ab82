/** What an analyzed ingress plan means: its relation steps, one table operation after the other, and the evidence it
    leaves, in step order (src/ingress.incn, src/prism/mod.incn). No plan node occurs in the fold. */
module IngressMeaning {
  import opened Tables
  import opened Expressions
  import opened Plans
  import opened Wrappers
  import opened Ingress

  /** Rows on their way through the steps: their column names, the rows themselves unless some step was refused, the
      rows and keys behind them when they are grouped, and the key names an aggregate puts in front. */
  datatype Relation = Relation(names: seq<string>, rows: Option<Table>, grouped: Option<Grouping>, prefix: seq<string>)
  datatype Grouping = Grouping(names: seq<string>, rows: Option<Table>, keys: seq<ColumnExpr>)

  /** A read stands for the stored table, if it has one column per catalog name. */
  function Stored(cat: Catalog, db: Database, table: string): Relation {
    Relation(cat(table), if |db(table).cols| == |cat(table)| then Some(db(table)) else None, None, [])
  }

  function Ungrouped(names: seq<string>, rows: Option<Table>): Relation {
    Relation(names, rows, None, [])
  }

  /** Keep the rows that satisfy the predicate. */
  function Filtered(eng: Engine, r: Relation, p: ColumnExpr): Relation {
    Ungrouped(r.names,
      if r.rows.Some? && Resolves(r.names, p)
      then Some(Where(r.rows.value, ExprColumn(eng, r.names, r.rows.value, p))) else None)
  }

  /** Show the assigned columns only; an empty list shows every column. */
  function Selected(eng: Engine, r: Relation, assignments: seq<Assignment>): Relation {
    var fits := r.rows.Some? && |r.names| == |r.rows.value.cols|;
    if assignments == [] then Ungrouped(r.names, if fits then r.rows else None)
    else Ungrouped(AssignedNames(assignments),
                   if fits then Select(eng, r.names, r.rows.value, assignments) else None)
  }

  /** One row per key, with the rows behind it kept for an aggregate. */
  function Grouped(eng: Engine, r: Relation, keys: seq<ColumnExpr>): Relation {
    Relation(GroupNames(keys),
      if r.rows.Some? && AllResolve(r.names, keys)
      then Some(GroupKeys(ExprColumns(eng, r.names, r.rows.value, keys), r.rows.value.count)) else None,
      Some(Grouping(r.names, r.rows, keys)), GroupNames(keys))
  }

  /** Measures over the rows behind the grouping, or over all rows. */
  function Aggregated(eng: Engine, r: Relation, measures: seq<Measure>): Relation {
    var over := if r.grouped.Some? then r.grouped.value else Grouping(r.names, r.rows, []);
    Relation(r.prefix + MeasureNames(measures),
      if over.rows.Some? && AllResolve(over.names, over.keys) && MeasuresResolve(over.names, measures)
      then Some(AggregateTable(eng, over.names, over.rows.value, over.keys, measures)) else None,
      None, r.prefix)
  }

  function Ordered(eng: Engine, r: Relation, keys: seq<ColumnExpr>): Relation {
    Ungrouped(r.names,
      if r.rows.Some? && keys != [] && AllResolve(r.names, keys)
      then Some(Sorted(eng, r.rows.value, ExprRows(eng, r.names, r.rows.value, keys))) else None)
  }

  function Limited(r: Relation, n: nat): Relation {
    Ungrouped(r.names, if r.rows.Some? then Some(Take(r.rows.value, n)) else None)
  }

  function Applied(eng: Engine, r: Relation, t: Transform): Relation {
    match t
    case FilterBy(p) => Filtered(eng, r, p)
    case SelectColumns(assignments) => Selected(eng, r, assignments)
    case GroupOn(keys) => Grouped(eng, r, keys)
    case AggregateBy(measures) => Aggregated(eng, r, measures)
    case OrderOn(keys) => Ordered(eng, r, keys)
    case LimitTo(n) => Limited(r, n)
  }

  /** The first n + 1 steps, one after the other. */
  function Folded(eng: Engine, cat: Catalog, db: Database, steps: seq<RelationStep>, n: nat): Relation
    requires Linear(steps) && n < |steps|
  {
    if n == 0 then Stored(cat, db, steps[0].table)
    else Applied(eng, Folded(eng, cat, db, steps, n - 1), steps[n].transform)
  }

  // ----- the plan shows the fold -----

  /** Node n of a plan shows a relation, groupings included. */
  predicate Shows(eng: Engine, cat: Catalog, db: Database, plan: Store, n: nat, r: Relation)
    requires n < |plan|
  {
    && Columns(cat, plan, n) == r.names
    && Eval(eng, cat, db, plan, n) == r.rows
    && Backs(eng, cat, db, plan, n, r)
  }

  /** What an aggregate on node n would find behind it. */
  predicate Backs(eng: Engine, cat: Catalog, db: Database, plan: Store, n: nat, r: Relation)
    requires n < |plan|
  {
    if plan[n].GroupBy? then
      assert plan[n].Inputs()[0] == plan[n].input;
      && r.grouped == Some(Grouping(Columns(cat, plan, plan[n].input), Eval(eng, cat, db, plan, plan[n].input),
                                    plan[n].keys))
      && r.prefix == GroupNames(plan[n].keys)
    else
      && r.grouped == None
      && r.prefix == if plan[n].Aggregate? then AggregatePrefix(plan, n) else []
  }

  lemma StepShows(eng: Engine, cat: Catalog, db: Database, plan: Store, n: nat, r: Relation, t: Transform)
    requires n + 1 < |plan| && Shows(eng, cat, db, plan, n, r)
    requires plan[n + 1] == NodeFor(t, n)
    ensures Shows(eng, cat, db, plan, n + 1, Applied(eng, r, t))
  {
    assert plan[n + 1].Inputs()[0] == n;
    match t {
      case AggregateBy(measures) => AggregateShows(eng, cat, db, plan, n, r, measures);
      case GroupOn(keys) => GroupShows(eng, cat, db, plan, n, r, keys);
      case SelectColumns(assignments) => SelectShows(eng, cat, db, plan, n, r, assignments);
      case _ =>
    }
  }

  lemma GroupShows(
      eng: Engine, cat: Catalog, db: Database, plan: Store, n: nat, r: Relation, keys: seq<ColumnExpr>)
    requires n + 1 < |plan| && Shows(eng, cat, db, plan, n, r)
    requires plan[n + 1] == GroupBy(n, keys)
    ensures Shows(eng, cat, db, plan, n + 1, Grouped(eng, r, keys))
  {
    assert plan[n + 1].Inputs()[0] == n;
    if r.rows.Some? {
      NoMeasures(eng, r.names, r.rows.value, keys);
    }
  }

  /** Grouping without measures shows the keys alone. */
  lemma NoMeasures(eng: Engine, names: seq<string>, t: Table, keys: seq<ColumnExpr>)
    ensures AggregateTable(eng, names, t, keys, []) == GroupKeys(ExprColumns(eng, names, t, keys), t.count)
  {
    var keyCols := ExprColumns(eng, names, t, keys);
    assert MeasureColumns(eng, names, t, [], Groups(keyCols, t.count)) == [];
    var g := GroupKeys(keyCols, t.count);
    assert g.cols + [] == g.cols;
  }

  lemma SelectShows(
      eng: Engine, cat: Catalog, db: Database, plan: Store, n: nat, r: Relation, assignments: seq<Assignment>)
    requires n + 1 < |plan| && Shows(eng, cat, db, plan, n, r)
    requires plan[n + 1] == NodeFor(SelectColumns(assignments), n)
    ensures Shows(eng, cat, db, plan, n + 1, Selected(eng, r, assignments))
  {
    assert plan[n + 1].Inputs()[0] == n;
    assert AssignedNames([]) == [];
  }

  lemma AggregateShows(
      eng: Engine, cat: Catalog, db: Database, plan: Store, n: nat, r: Relation, measures: seq<Measure>)
    requires n + 1 < |plan| && Shows(eng, cat, db, plan, n, r)
    requires plan[n + 1] == Aggregate(n, [], measures)
    ensures Shows(eng, cat, db, plan, n + 1, Aggregated(eng, r, measures))
  {
    assert plan[n + 1].Inputs()[0] == n;
    if plan[n].GroupBy? {
      assert plan[n].Inputs()[0] == plan[n].input;
    }
    assert AggregatePrefix(plan, n + 1) == r.prefix;
  }

  lemma RootShows(eng: Engine, cat: Catalog, db: Database, plan: Store, table: string)
    requires plan != [] && plan[0] == Read(table)
    ensures Shows(eng, cat, db, plan, 0, Stored(cat, db, table))
  {
  }

  lemma FoldNode(plan: Store, steps: seq<RelationStep>, n: nat)
    requires Linear(steps) && IsFold(plan, steps) && 0 < n < |steps|
    ensures steps[n].Transform? && |plan| == |steps| && plan[n] == NodeFor(steps[n].transform, n - 1)
  {
    assert FoldedAt(plan, steps, n);
    NodeDoes(plan[n], steps[n].transform, n - 1);
  }

  lemma NextShows(eng: Engine, cat: Catalog, db: Database, plan: Store, n: nat, r: Relation, s: Relation, t: Transform)
    requires 0 < n < |plan| && plan[n] == NodeFor(t, n - 1)
    requires Shows(eng, cat, db, plan, n - 1, r) && s == Applied(eng, r, t)
    ensures Shows(eng, cat, db, plan, n, s)
  {
    StepShows(eng, cat, db, plan, n - 1, r, t);
  }

  lemma {:induction false} FoldShows(
      eng: Engine, cat: Catalog, db: Database, plan: Store, steps: seq<RelationStep>, n: nat)
    requires Linear(steps) && IsFold(plan, steps) && n < |steps|
    ensures Shows(eng, cat, db, plan, n, Folded(eng, cat, db, steps, n))
    decreases n
  {
    if n == 0 {
      RootShows(eng, cat, db, plan, steps[0].table);
    } else {
      FoldShows(eng, cat, db, plan, steps, n - 1);
      FoldNode(plan, steps, n);
      NextShows(eng, cat, db, plan, n, Folded(eng, cat, db, steps, n - 1), Folded(eng, cat, db, steps, n),
                steps[n].transform);
    }
  }

  /** Main result: an analyzed plan has the columns and the table that its steps yield one after the other. */
  lemma AnalyzedMeans(
      eng: Engine, cat: Catalog, db: Database, steps: seq<RelationStep>, commands: seq<Command>, planTarget: string,
      refs: seq<string>)
    ensures var a := AnalysisOf(steps, commands, planTarget, refs);
            a.status == Analyzed ==>
              && Linear(steps) && a.plan.Some? && |a.plan.value| == |steps|
              && var r := Folded(eng, cat, db, steps, |steps| - 1);
              && Columns(cat, a.plan.value, |steps| - 1) == r.names
              && Eval(eng, cat, db, a.plan.value, |steps| - 1) == r.rows
  {
    AnalyzedExactly(steps, commands, planTarget, refs);
    var a := AnalysisOf(steps, commands, planTarget, refs);
    if a.status == Analyzed {
      FoldShows(eng, cat, db, a.plan.value, steps, |steps| - 1);
    }
  }

  // ----- rejected analyses -----

  /** The steps a plan is built from: the first read, and the transforms behind it. */
  function Effective(steps: seq<RelationStep>): seq<RelationStep> {
    if steps == [] then []
    else
      var n := |steps| - 1;
      var front := Effective(steps[..n]);
      if (front == []) == steps[n].ReadNamedTable? then front + [steps[n]] else front
  }

  /** Other reads, and transforms before the first read, leave no trace in the plan. */
  lemma {:induction false} EffectiveBuilds(steps: seq<RelationStep>)
    ensures Effective(steps) == [] <==> forall k :: 0 <= k < |steps| ==> steps[k].Transform?
    ensures Effective(steps) == [] || Linear(Effective(steps))
    ensures PlanOf(steps) == PlanOf(Effective(steps))
    decreases |steps|
  {
    if steps != [] {
      var n := |steps| - 1;
      var front := Effective(steps[..n]);
      EffectiveBuilds(steps[..n]);
      RootedExactly(steps[..n]);
      assert forall k :: 0 <= k < n ==> steps[..n][k] == steps[k];
      if (front == []) == steps[n].ReadNamedTable? {
        assert (front + [steps[n]])[..|front|] == front;
      }
    }
  }

  lemma EffectiveShows(eng: Engine, cat: Catalog, db: Database, steps: seq<RelationStep>)
    requires Effective(steps) != []
    ensures Linear(Effective(steps)) && PlanOf(steps).Some? && |PlanOf(steps).value| == |Effective(steps)|
    ensures var plan, last := PlanOf(steps).value, |Effective(steps)| - 1;
            Shows(eng, cat, db, plan, last, Folded(eng, cat, db, Effective(steps), last))
  {
    var kept := Effective(steps);
    EffectiveBuilds(steps);
    LinearFolds(kept);
    FoldShows(eng, cat, db, PlanOf(kept).value, kept, |kept| - 1);
  }

  /** Whatever plan an analysis carries, rejected or not, means its first read and the transforms behind it. */
  lemma PlanMeans(
      eng: Engine, cat: Catalog, db: Database, steps: seq<RelationStep>, commands: seq<Command>, planTarget: string,
      refs: seq<string>)
    ensures AnalysisOf(steps, commands, planTarget, refs).plan.Some?
        <==> !(forall k :: 0 <= k < |steps| ==> steps[k].Transform?)
    ensures var plan := AnalysisOf(steps, commands, planTarget, refs).plan;
            plan.Some? ==>
              && Linear(Effective(steps)) && |plan.value| == |Effective(steps)|
              && var last := |plan.value| - 1;
              && var r := Folded(eng, cat, db, Effective(steps), last);
              && Columns(cat, plan.value, last) == r.names
              && Eval(eng, cat, db, plan.value, last) == r.rows
  {
    EffectiveBuilds(steps);
    RootedExactly(steps);
    assert AnalysisOf(steps, commands, planTarget, refs).plan == PlanOf(steps);
    if Effective(steps) != [] {
      EffectiveShows(eng, cat, db, steps);
    }
  }

  // ----- the evidence, in order -----

  /** The values that are there, in order. */
  function Present<T>(xs: seq<Option<T>>): seq<T> {
    if xs == [] then [] else (if xs[0].Some? then [xs[0].value] else []) + Present(xs[1..])
  }

  lemma {:induction false} PresentLast<T>(xs: seq<Option<T>>, x: Option<T>)
    ensures Present(xs + [x]) == Present(xs) + if x.Some? then [x.value] else []
  {
    if xs != [] {
      PresentLast(xs[1..], x);
      assert (xs + [x])[1..] == xs[1..] + [x];
    } else {
      assert [x][1..] == [] && [] + [x] == [x];
    }
  }

  /** A read behind another read is not the root; a transform before any read has none. */
  function Complaint(steps: seq<RelationStep>, k: nat): Option<Diagnostic>
    requires k < |steps|
  {
    var rooted := exists j :: 0 <= j < k && steps[j].ReadNamedTable?;
    if steps[k].ReadNamedTable? then
      if rooted then Some(Diagnostic(NonRootRead, TargetOf(steps[k].origin), [])) else None
    else if rooted then None
    else Some(Diagnostic(MissingRoot, TargetOf(steps[k].origin), []))
  }

  function Complaints(steps: seq<RelationStep>): (r: seq<Option<Diagnostic>>)
    ensures |r| == |steps|
  {
    seq(|steps|, k requires 0 <= k < |steps| => Complaint(steps, k))
  }

  function StepSources(steps: seq<RelationStep>): (r: seq<Option<Origin>>)
    ensures |r| == |steps|
  {
    seq(|steps|, k requires 0 <= k < |steps| => steps[k].origin)
  }

  function CommandSources(commands: seq<Command>): (r: seq<Option<Origin>>)
    ensures |r| == |commands|
  {
    seq(|commands|, k requires 0 <= k < |commands| => commands[k].origin)
  }

  lemma {:induction false} StepsComplain(steps: seq<RelationStep>)
    ensures StepDiagnostics(steps) == Present(Complaints(steps))
    decreases |steps|
  {
    if steps != [] {
      var n := |steps| - 1;
      StepsComplain(steps[..n]);
      RootedExactly(steps[..n]);
      ComplaintsLast(steps);
      PresentLast(Complaints(steps[..n]), Complaint(steps, n));
    }
  }

  lemma ComplaintsLast(steps: seq<RelationStep>)
    requires steps != []
    ensures var n := |steps| - 1; Complaints(steps) == Complaints(steps[..n]) + [Complaint(steps, n)]
    ensures var n := |steps| - 1;
            (exists j :: 0 <= j < n && steps[j].ReadNamedTable?)
              <==> !(forall k :: 0 <= k < n ==> steps[..n][k].Transform?)
  {
    var n := |steps| - 1;
    forall k | 0 <= k < n ensures Complaint(steps[..n], k) == Complaint(steps, k) {
      assert forall j :: 0 <= j < k ==> steps[..n][j] == steps[j];
    }
    assert forall k :: 0 <= k < n ==> steps[..n][k] == steps[k];
  }

  lemma {:induction false} StepOriginsPresent(steps: seq<RelationStep>)
    ensures StepOrigins(steps) == Present(StepSources(steps))
    decreases |steps|
  {
    if steps != [] {
      var n := |steps| - 1;
      StepOriginsPresent(steps[..n]);
      PresentLast(StepSources(steps[..n]), steps[n].origin);
      assert StepSources(steps) == StepSources(steps[..n]) + [steps[n].origin];
    }
  }

  lemma {:induction false} CommandOriginsPresent(commands: seq<Command>)
    ensures CommandOrigins(commands) == Present(CommandSources(commands))
    decreases |commands|
  {
    if commands != [] {
      var n := |commands| - 1;
      CommandOriginsPresent(commands[..n]);
      PresentLast(CommandSources(commands[..n]), commands[n].origin);
      assert CommandSources(commands) == CommandSources(commands[..n]) + [commands[n].origin];
    }
  }

  /** Which feature a step's coverage answer names. */
  lemma CoverageNames(
      steps: seq<RelationStep>, commands: seq<Command>, planTarget: string, refs: seq<string>, k: nat)
    requires k < |steps|
    ensures var c := AnalysisOf(steps, commands, planTarget, refs).coverage[k];
            && c.Supported?
            && (c.feature == ReadFeature <==> steps[k].ReadNamedTable?)
            && (c.feature == FilterFeature <==> steps[k].Transform? && steps[k].transform.FilterBy?)
            && (c.feature == SelectFeature <==> steps[k].Transform? && steps[k].transform.SelectColumns?)
            && (c.feature == GroupByFeature <==> steps[k].Transform? && steps[k].transform.GroupOn?)
            && (c.feature == AggregateFeature <==> steps[k].Transform? && steps[k].transform.AggregateBy?)
            && (c.feature == OrderByFeature <==> steps[k].Transform? && steps[k].transform.OrderOn?)
            && (c.feature == LimitFeature <==> steps[k].Transform? && steps[k].transform.LimitTo?)
  {
  }

  /** Main result: which diagnostics and origins an analysis carries, and in which order. */
  lemma EvidenceExactly(steps: seq<RelationStep>, commands: seq<Command>, planTarget: string, refs: seq<string>)
    ensures var a := AnalysisOf(steps, commands, planTarget, refs);
            var complaints := Present(Complaints(steps));
            && a.origins == Present(StepSources(steps)) + Present(CommandSources(commands))
            && |a.diagnostics| == |complaints| + |commands| + (if steps == [] then 1 else 0)
            && a.diagnostics[..|complaints|] == complaints
            && (forall k :: 0 <= k < |commands| ==>
                  a.diagnostics[|complaints| + k]
                    == Diagnostic(UnsupportedCommand(commands[k].name), TargetOf(commands[k].origin), commands[k].refs))
            && (steps == [] ==> a.diagnostics[|a.diagnostics| - 1] == Diagnostic(EmptyPlan, Some(planTarget), refs))
  {
    StepsComplain(steps);
    StepOriginsPresent(steps);
    CommandOriginsPresent(commands);
  }
}
