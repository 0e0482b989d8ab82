/** Analysis of an external plan (src/ingress.incn): relation steps fold into a Prism plan, everything else becomes
    evidence. */
module Ingress {
  import opened Expressions
  import opened Plans
  import opened Wrappers

  datatype Origin = Origin(id: string, target: string)

  datatype Transform =
    | FilterBy(predicate_: ColumnExpr)
    | SelectColumns(assignments: seq<Assignment>)
    | GroupOn(keys: seq<ColumnExpr>)
    | AggregateBy(measures: seq<Measure>)
    | OrderOn(keys: seq<ColumnExpr>)
    | LimitTo(count: nat)

  datatype RelationStep =
    | ReadNamedTable(table: string, origin: Option<Origin>)
    | Transform(transform: Transform, origin: Option<Origin>)

  datatype Command = Command(name: string, origin: Option<Origin>, refs: seq<string>)

  datatype Feature =
    | ReadFeature | FilterFeature | SelectFeature | GroupByFeature | AggregateFeature | OrderByFeature | LimitFeature
    | CommandFeature

  datatype Code = NonRootRead | MissingRoot | UnsupportedCommand(name: string) | EmptyPlan

  /** Every diagnostic this analysis emits has error severity. */
  datatype Diagnostic = Diagnostic(code: Code, target: Option<string>, refs: seq<string>)

  datatype Coverage = Supported(feature: Feature) | Unsupported(feature: Feature, diagnostic: Diagnostic)
  datatype Status = Analyzed | Rejected | Unknown

  datatype Analysis = Analysis(
    status: Status, plan: Option<Store>, diagnostics: seq<Diagnostic>, coverage: seq<Coverage>, origins: seq<Origin>)

  function FeatureOf(s: RelationStep): Feature {
    if s.ReadNamedTable? then ReadFeature
    else
      match s.transform
      case FilterBy(_) => FilterFeature
      case SelectColumns(_) => SelectFeature
      case GroupOn(_) => GroupByFeature
      case AggregateBy(_) => AggregateFeature
      case OrderOn(_) => OrderByFeature
      case LimitTo(_) => LimitFeature
  }

  function TargetOf(origin: Option<Origin>): Option<string> {
    if origin.Some? then Some(origin.value.target) else None
  }

  function OriginList(origin: Option<Origin>): seq<Origin> {
    if origin.Some? then [origin.value] else []
  }

  /** The node a carrier method appends; an empty projection list appends a pass-through. */
  function NodeFor(t: Transform, input: nat): Node {
    match t
    case FilterBy(p) => Filter(input, p)
    case SelectColumns(assignments) => if assignments == [] then Project(input, []) else SelectProject(input, assignments)
    case GroupOn(keys) => GroupBy(input, keys)
    case AggregateBy(measures) => Aggregate(input, [], measures)
    case OrderOn(keys) => OrderBy(input, keys)
    case LimitTo(n) => Limit(input, n)
  }

  function Appended(plan: Store, t: Transform): (r: Store)
    requires plan != []
    ensures |r| == |plan| + 1
  {
    assert Acyclic(plan + [NodeFor(t, |plan| - 1)]) by {
      assert NodeFor(t, |plan| - 1).Inputs() == [|plan| - 1];
    }
    plan + [NodeFor(t, |plan| - 1)]
  }

  function RootRead(table: string): Store {
    assert Acyclic([Read(table)]) by { assert Read(table).Inputs() == []; }
    [Read(table)]
  }

  // ----- what each loop accumulates -----

  function PlanOf(steps: seq<RelationStep>): (plan: Option<Store>)
    ensures plan.Some? ==> plan.value != []
  {
    if steps == [] then None
    else
      var n := |steps| - 1;
      var before := PlanOf(steps[..n]);
      if steps[n].ReadNamedTable? then if before.Some? then before else Some(RootRead(steps[n].table))
      else if before.Some? then Some(Appended(before.value, steps[n].transform))
      else None
  }

  function StepDiagnostics(steps: seq<RelationStep>): seq<Diagnostic> {
    if steps == [] then []
    else
      var n := |steps| - 1;
      var rooted := PlanOf(steps[..n]).Some?;
      StepDiagnostics(steps[..n])
      + if steps[n].ReadNamedTable? && rooted then [Diagnostic(NonRootRead, TargetOf(steps[n].origin), [])]
        else if steps[n].Transform? && !rooted then [Diagnostic(MissingRoot, TargetOf(steps[n].origin), [])]
        else []
  }

  function CommandDiagnostic(c: Command): Diagnostic {
    Diagnostic(UnsupportedCommand(c.name), TargetOf(c.origin), c.refs)
  }

  function StepOrigins(steps: seq<RelationStep>): seq<Origin> {
    if steps == [] then [] else StepOrigins(steps[..|steps| - 1]) + OriginList(steps[|steps| - 1].origin)
  }

  function CommandOrigins(commands: seq<Command>): seq<Origin> {
    if commands == [] then []
    else CommandOrigins(commands[..|commands| - 1]) + OriginList(commands[|commands| - 1].origin)
  }

  function StepCoverage(steps: seq<RelationStep>): (cs: seq<Coverage>)
    ensures |cs| == |steps| && forall k :: 0 <= k < |cs| ==> cs[k] == Supported(FeatureOf(steps[k]))
  {
    if steps == [] then []
    else StepCoverage(steps[..|steps| - 1]) + [Supported(FeatureOf(steps[|steps| - 1]))]
  }

  function CommandDiagnostics(commands: seq<Command>): (ds: seq<Diagnostic>)
    ensures |ds| == |commands| && forall k :: 0 <= k < |ds| ==> ds[k] == CommandDiagnostic(commands[k])
  {
    if commands == [] then []
    else CommandDiagnostics(commands[..|commands| - 1]) + [CommandDiagnostic(commands[|commands| - 1])]
  }

  function CommandCoverage(commands: seq<Command>): (cs: seq<Coverage>)
    ensures |cs| == |commands|
    ensures forall k :: 0 <= k < |cs| ==> cs[k] == Unsupported(CommandFeature, CommandDiagnostic(commands[k]))
  {
    if commands == [] then []
    else
      CommandCoverage(commands[..|commands| - 1])
      + [Unsupported(CommandFeature, CommandDiagnostic(commands[|commands| - 1]))]
  }

  function StatusOf(plan: Option<Store>, diagnostics: seq<Diagnostic>): Status {
    if diagnostics != [] then Rejected else if plan.Some? then Analyzed else Unknown
  }

  function AnalysisOf(steps: seq<RelationStep>, commands: seq<Command>, planTarget: string, refs: seq<string>): Analysis {
    var diagnostics :=
      StepDiagnostics(steps) + CommandDiagnostics(commands)
      + if steps == [] then [Diagnostic(EmptyPlan, Some(planTarget), refs)] else [];
    Analysis(StatusOf(PlanOf(steps), diagnostics), PlanOf(steps), diagnostics,
             StepCoverage(steps) + CommandCoverage(commands), StepOrigins(steps) + CommandOrigins(commands))
  }

  method AnalyzeIngressPlan(
      steps: seq<RelationStep>, commands: seq<Command>, planTarget: string, refs: seq<string>)
    returns (analysis: Analysis)
    ensures analysis == AnalysisOf(steps, commands, planTarget, refs)
  {
    var relation, diagnostics, coverage, origins := AnalyzeSteps(steps);
    diagnostics, coverage, origins := AnalyzeCommands(commands, diagnostics, coverage, origins);
    if |steps| == 0 {
      diagnostics := diagnostics + [Diagnostic(EmptyPlan, Some(planTarget), refs)];
    }
    return Analysis(StatusOf(relation, diagnostics), relation, diagnostics, coverage, origins);
  }

  /** The loop over commands: each leaves a diagnostic and an unsupported coverage answer. */
  method AnalyzeCommands(commands: seq<Command>, ds: seq<Diagnostic>, cs: seq<Coverage>, os: seq<Origin>)
    returns (diagnostics: seq<Diagnostic>, coverage: seq<Coverage>, origins: seq<Origin>)
    ensures diagnostics == ds + CommandDiagnostics(commands)
    ensures coverage == cs + CommandCoverage(commands)
    ensures origins == os + CommandOrigins(commands)
  {
    diagnostics, coverage, origins := ds, cs, os;
    for i := 0 to |commands|
      invariant diagnostics == ds + CommandDiagnostics(commands[..i])
      invariant coverage == cs + CommandCoverage(commands[..i])
      invariant origins == os + CommandOrigins(commands[..i])
    {
      assert commands[..i + 1][..i] == commands[..i];
      var diagnostic := CommandDiagnostic(commands[i]);
      origins := origins + OriginList(commands[i].origin);
      diagnostics := diagnostics + [diagnostic];
      coverage := coverage + [Unsupported(CommandFeature, diagnostic)];
    }
    assert commands[..|commands|] == commands;
  }

  /** The loop over relation steps. */
  method AnalyzeSteps(steps: seq<RelationStep>)
    returns (relation: Option<Store>, diagnostics: seq<Diagnostic>, coverage: seq<Coverage>, origins: seq<Origin>)
    ensures relation == PlanOf(steps) && diagnostics == StepDiagnostics(steps)
    ensures origins == StepOrigins(steps) && coverage == StepCoverage(steps)
  {
    relation, diagnostics, coverage, origins := None, [], [], [];
    for i := 0 to |steps|
      invariant relation == PlanOf(steps[..i])
      invariant diagnostics == StepDiagnostics(steps[..i])
      invariant origins == StepOrigins(steps[..i])
      invariant coverage == StepCoverage(steps[..i])
    {
      assert steps[..i + 1][..i] == steps[..i];
      coverage := coverage + [Supported(FeatureOf(steps[i]))];
      origins := origins + OriginList(steps[i].origin);
      match steps[i] {
        case ReadNamedTable(table, origin) =>
          if relation.Some? {
            diagnostics := diagnostics + [Diagnostic(NonRootRead, TargetOf(origin), [])];
          } else {
            relation := Some(RootRead(table));
          }
        case Transform(t, origin) =>
          if relation.Some? {
            relation := Some(Appended(relation.value, t));
          } else {
            diagnostics := diagnostics + [Diagnostic(MissingRoot, TargetOf(origin), [])];
          }
      }
    }
    assert steps[..|steps|] == steps;
  }

  // ----- what the result means -----

  /** The steps start with the only read. */
  predicate Linear(steps: seq<RelationStep>) {
    steps != [] && steps[0].ReadNamedTable? && forall k :: 1 <= k < |steps| ==> steps[k].Transform?
  }

  predicate IsFold(plan: Store, steps: seq<RelationStep>)
    requires Linear(steps)
  {
    && |plan| == |steps|
    && plan[0] == Read(steps[0].table)
    && forall k {:trigger FoldedAt(plan, steps, k)} :: 1 <= k < |plan| ==> FoldedAt(plan, steps, k)
  }

  predicate FoldedAt(plan: Store, steps: seq<RelationStep>, k: nat)
    requires 1 <= k < |plan| && k < |steps| && steps[k].Transform?
  {
    Does(plan[k], steps[k].transform) && plan[k].input == k - 1
  }

  /** The node does what the transform asks for; a selection that names columns shows no other ones. */
  predicate Does(n: Node, t: Transform) {
    match t
    case FilterBy(p) => n.Filter? && n.predicate_ == p
    case SelectColumns(assignments) =>
      (if assignments == [] then n.Project? else n.SelectProject?) && n.assignments == assignments
    case GroupOn(keys) => n.GroupBy? && n.keys == keys
    case AggregateBy(measures) => n.Aggregate? && n.keys == [] && n.measures == measures
    case OrderOn(keys) => n.OrderBy? && n.keys == keys
    case LimitTo(rows) => n.Limit? && n.rows == rows
  }

  lemma NodeDoes(n: Node, t: Transform, input: nat)
    ensures n == NodeFor(t, input) <==> Does(n, t) && n.input == input
  {
  }

  lemma {:induction false} RootedExactly(steps: seq<RelationStep>)
    ensures PlanOf(steps).None? <==> forall k :: 0 <= k < |steps| ==> steps[k].Transform?
    decreases |steps|
  {
    if steps != [] {
      var n := |steps| - 1;
      RootedExactly(steps[..n]);
      assert forall k :: 0 <= k < n ==> steps[..n][k] == steps[k];
    }
  }

  lemma LinearLast(steps: seq<RelationStep>, n: nat)
    requires |steps| == n + 1
    ensures Linear(steps) <==> if n == 0 then steps[n].ReadNamedTable? else Linear(steps[..n]) && steps[n].Transform?
  {
    assert forall k :: 0 <= k < n ==> steps[..n][k] == steps[k];
  }

  lemma {:induction false} SilentExactly(steps: seq<RelationStep>)
    ensures StepDiagnostics(steps) == [] <==> steps == [] || Linear(steps)
    decreases |steps|
  {
    if steps != [] {
      var n := |steps| - 1;
      SilentExactly(steps[..n]);
      LinearLast(steps, n);
      RootedLinear(steps[..n]);
    }
  }

  lemma RootedLinear(steps: seq<RelationStep>)
    ensures Linear(steps) ==> PlanOf(steps).Some?
    ensures steps == [] ==> PlanOf(steps).None?
  {
    RootedExactly(steps);
  }

  lemma {:induction false} LinearFolds(steps: seq<RelationStep>)
    requires Linear(steps)
    ensures PlanOf(steps).Some? && IsFold(PlanOf(steps).value, steps)
    decreases |steps|
  {
    var n := |steps| - 1;
    if n > 0 {
      assert forall k :: 0 <= k < n ==> steps[..n][k] == steps[k];
      LinearFolds(steps[..n]);
      var front, plan := PlanOf(steps[..n]).value, PlanOf(steps).value;
      forall k | 1 <= k < |plan| ensures FoldedAt(plan, steps, k) {
        if k < n {
          assert FoldedAt(front, steps[..n], k) && plan[k] == front[k];
        } else {
          NodeDoes(plan[k], steps[k].transform, k - 1);
        }
      }
    }
  }

  /** Main result: a plan is analyzed exactly when its steps are one read followed by transforms and it carries no
      command; the relation is then the left fold of the transforms over that read. No analysis ends as Unknown. */
  lemma AnalyzedExactly(steps: seq<RelationStep>, commands: seq<Command>, planTarget: string, refs: seq<string>)
    ensures var a := AnalysisOf(steps, commands, planTarget, refs);
            && a.status != Unknown
            && (a.status == Analyzed <==> Linear(steps) && commands == [])
            && (a.status == Analyzed ==> a.plan.Some? && IsFold(a.plan.value, steps))
            && |a.coverage| == |steps| + |commands|
            && (forall k :: 0 <= k < |steps| ==> a.coverage[k] == Supported(FeatureOf(steps[k])))
            && (forall k :: |steps| <= k < |a.coverage| ==>
                  a.coverage[k] == Unsupported(CommandFeature, CommandDiagnostic(commands[k - |steps|])))
  {
    SilentExactly(steps);
    if Linear(steps) {
      LinearFolds(steps);
    }
  }
}
