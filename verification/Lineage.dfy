/** Lineage extraction over authored plans (src/inspect.incn): which fields each output field and each relation
    output is said to depend on. Every edge list has a specification function and the loop that builds it. */
module Lineage {
  import opened Names
  import opened Expressions
  import opened Plans
  import opened Wrappers
  import opened Reachability

  datatype Target =
    | ReadRoot(node: nat, table: string)
    | Field(node: nat, ordinal: Option<nat>, name: string)
    | RelationOutput(node: nat)

  datatype Relationship = ValueOf | Control | Grouping | JoinKey | Sort | WindowOf
  datatype Transformation =
    Identity | Expression | AggregateStep | WindowStep | GeneratorStep | FilterStep | JoinStep | UnknownStep
  datatype Confidence = Exact | Conservative

  /** `expression` is the expression reference: the node that holds it and the dependency name; None when empty. */
  datatype Edge = Edge(
    source: Target,
    destination: Target,
    relationship: Relationship,
    transformation: Transformation,
    expression: Option<(nat, string)>,
    confidence: Confidence)

  function FieldTarget(node: nat, ordinal: int, name: string): Target {
    Field(node, if ordinal < 0 then None else Some(ordinal), name)
  }

  function IdentityEdge(source: Target, destination: Target): Edge {
    Edge(source, destination, ValueOf, Identity, None, Exact)
  }

  function ExpressionTransformation(e: ColumnExpr): Transformation {
    match e.node
    case ColumnRef(_) => Identity
    case Application(_, _, _) => UnknownStep
    case _ => Expression
  }

  // ----- one dependency -----

  /** A unique match is exact; anything else is conservative with no ordinal. */
  function DependencyEdge(
      names: seq<string>, source: nat, evidence: nat, name: string, destination: Target,
      relationship: Relationship, transformation: Transformation): Edge
  {
    if MatchCount(names, name) == 1 then
      Edge(FieldTarget(source, FirstIndex(names, name), name), destination, relationship, transformation,
           Some((evidence, name)), Exact)
    else
      Edge(FieldTarget(source, -1, name), destination, relationship, transformation,
           Some((evidence, name)), Conservative)
  }

  function DependencyEdges(
      names: seq<string>, source: nat, evidence: nat, es: seq<ColumnExpr>, destination: Target,
      relationship: Relationship, transformation: Transformation): (edges: seq<Edge>)
    ensures |edges| == |DependencyNames(es)|
  {
    var deps := DependencyNames(es);
    seq(|deps|, k requires 0 <= k < |deps| =>
      DependencyEdge(names, source, evidence, deps[k], destination, relationship, transformation))
  }

  method BuildDependencyEdges(
      names: seq<string>, source: nat, evidence: nat, es: seq<ColumnExpr>, destination: Target,
      relationship: Relationship, transformation: Transformation) returns (edges: seq<Edge>)
    ensures edges == DependencyEdges(names, source, evidence, es, destination, relationship, transformation)
  {
    edges := [];
    var deps := CollectDependencyNames(es);
    for k := 0 to |deps|
      invariant |edges| == k
      invariant forall j :: 0 <= j < k ==>
        edges[j] == DependencyEdge(names, source, evidence, deps[j], destination, relationship, transformation)
    {
      var index := IndexOf(names, deps[k]);
      var confidence := Exact;
      var matches := CountMatches(names, deps[k]);
      if matches != 1 {
        index := -1;
        confidence := Conservative;
      }
      edges := edges + [Edge(FieldTarget(source, index, deps[k]), destination, relationship, transformation,
                             Some((evidence, deps[k])), confidence)];
    }
  }

  // ----- node families -----

  /** Slot-by-slot value edges for nodes that keep their input columns. */
  function PassthroughEdges(input: nat, inNames: seq<string>, node: nat, outNames: seq<string>): seq<Edge> {
    var n := if |inNames| < |outNames| then |inNames| else |outNames|;
    seq(n, k requires 0 <= k < n =>
      IdentityEdge(FieldTarget(input, k, inNames[k]), FieldTarget(node, k, outNames[k])))
  }

  method BuildPassthroughEdges(input: nat, inNames: seq<string>, node: nat, outNames: seq<string>)
    returns (edges: seq<Edge>)
    ensures edges == PassthroughEdges(input, inNames, node, outNames)
  {
    edges := [];
    for k := 0 to |inNames|
      invariant |edges| == if k < |outNames| then k else |outNames|
      invariant forall j :: 0 <= j < |edges| ==>
        edges[j] == IdentityEdge(FieldTarget(input, j, inNames[j]), FieldTarget(node, j, outNames[j]))
    {
      if k < |outNames| {
        edges := edges + [IdentityEdge(FieldTarget(input, k, inNames[k]), FieldTarget(node, k, outNames[k]))];
      }
    }
  }

  function ReadEdges(node: nat, table: string, names: seq<string>): seq<Edge> {
    seq(|names|, k requires 0 <= k < |names| =>
      IdentityEdge(ReadRoot(node, table), FieldTarget(node, k, names[k])))
  }

  method BuildReadEdges(node: nat, table: string, names: seq<string>) returns (edges: seq<Edge>)
    ensures edges == ReadEdges(node, table, names)
  {
    edges := [];
    for k := 0 to |names|
      invariant |edges| == k
      invariant forall j :: 0 <= j < k ==>
        edges[j] == IdentityEdge(ReadRoot(node, table), FieldTarget(node, j, names[j]))
    {
      edges := edges + [IdentityEdge(ReadRoot(node, table), FieldTarget(node, k, names[k]))];
    }
  }

  /** Assignment k feeds the first output slot that carries its name. */
  function AssignmentEdges(
      input: nat, inNames: seq<string>, node: nat, outNames: seq<string>, assignments: seq<Assignment>): seq<Edge>
  {
    if assignments == [] then []
    else
      var k := |assignments| - 1;
      var a := assignments[k];
      var slot := FirstIndex(outNames, a.outputName);
      AssignmentEdges(input, inNames, node, outNames, assignments[..k])
      + if slot < 0 then [] else
          DependencyEdges(inNames, input, node, [a.expr], FieldTarget(node, slot, a.outputName),
                          ValueOf, ExpressionTransformation(a.expr))
  }

  method BuildAssignmentEdges(
      input: nat, inNames: seq<string>, node: nat, outNames: seq<string>, assignments: seq<Assignment>)
    returns (edges: seq<Edge>)
    ensures edges == AssignmentEdges(input, inNames, node, outNames, assignments)
  {
    edges := [];
    for k := 0 to |assignments|
      invariant edges == AssignmentEdges(input, inNames, node, outNames, assignments[..k])
    {
      var a := assignments[k];
      assert assignments[..k + 1][..k] == assignments[..k];
      var slot := IndexOf(outNames, a.outputName);
      if slot >= 0 {
        var more := BuildDependencyEdges(inNames, input, node, [a.expr], FieldTarget(node, slot, a.outputName),
                                         ValueOf, ExpressionTransformation(a.expr));
        edges := edges + more;
      }
    }
    assert assignments[..|assignments|] == assignments;
  }

  /** Expression k feeds output slot k: exclusive projections, groupings and grouping prefixes. */
  function PositionalEdges(
      input: nat, inNames: seq<string>, node: nat, outNames: seq<string>, es: seq<ColumnExpr>,
      relationship: Relationship): seq<Edge>
    requires |es| <= |outNames|
  {
    if es == [] then []
    else
      var k := |es| - 1;
      PositionalEdges(input, inNames, node, outNames, es[..k], relationship)
      + DependencyEdges(inNames, input, node, [es[k]], FieldTarget(node, k, outNames[k]),
                        relationship, ExpressionTransformation(es[k]))
  }

  method BuildPositionalEdges(
      input: nat, inNames: seq<string>, node: nat, outNames: seq<string>, es: seq<ColumnExpr>,
      relationship: Relationship) returns (edges: seq<Edge>)
    requires |es| <= |outNames|
    ensures edges == PositionalEdges(input, inNames, node, outNames, es, relationship)
  {
    edges := [];
    for k := 0 to |es|
      invariant edges == PositionalEdges(input, inNames, node, outNames, es[..k], relationship)
    {
      assert es[..k + 1][..k] == es[..k];
      var more := BuildDependencyEdges(inNames, input, node, [es[k]], FieldTarget(node, k, outNames[k]),
                                       relationship, ExpressionTransformation(es[k]));
      edges := edges + more;
    }
    assert es[..|es|] == es;
  }

  function AssignedExprs(assignments: seq<Assignment>): (r: seq<ColumnExpr>)
    ensures |r| == |assignments|
  {
    seq(|assignments|, k requires 0 <= k < |assignments| => assignments[k].expr)
  }

  // ----- join -----

  /** One predicate name: exact where it matches one field of a side, conservative where it matches several, and
      blamed on the left input when neither side has it. The right side is searched under its own, unqualified names. */
  function JoinNameEdges(
      left: nat, leftNames: seq<string>, right: nat, rightNames: seq<string>, node: nat, name: string): seq<Edge>
  {
    var out := RelationOutput(node);
    var lc := MatchCount(leftNames, name);
    var rc := MatchCount(rightNames, name);
    (if lc == 0 then [] else [DependencyEdge(leftNames, left, node, name, out, JoinKey, JoinStep)])
    + (if rc == 0 then [] else [DependencyEdge(rightNames, right, node, name, out, JoinKey, JoinStep)])
    + (if lc == 0 && rc == 0 then [DependencyEdge(leftNames, left, node, name, out, JoinKey, JoinStep)] else [])
  }

  function JoinPredicateEdges(
      left: nat, leftNames: seq<string>, right: nat, rightNames: seq<string>, node: nat, names: seq<string>)
    : seq<Edge>
  {
    if names == [] then []
    else
      var k := |names| - 1;
      JoinPredicateEdges(left, leftNames, right, rightNames, node, names[..k])
      + JoinNameEdges(left, leftNames, right, rightNames, node, names[k])
  }

  method BuildJoinPredicateEdges(
      left: nat, leftNames: seq<string>, right: nat, rightNames: seq<string>, node: nat, on: ColumnExpr)
    returns (edges: seq<Edge>)
    ensures edges == JoinPredicateEdges(left, leftNames, right, rightNames, node, DependencyNames([on]))
  {
    edges := [];
    var names := CollectDependencyNames([on]);
    for k := 0 to |names|
      invariant edges == JoinPredicateEdges(left, leftNames, right, rightNames, node, names[..k])
    {
      var name := names[k];
      assert names[..k + 1][..k] == names[..k];
      var more := BuildJoinNameEdges(left, leftNames, right, rightNames, node, name);
      edges := edges + more;
    }
    assert names[..|names|] == names;
  }

  /** The counting and branching for one predicate name. */
  method BuildJoinNameEdges(
      left: nat, leftNames: seq<string>, right: nat, rightNames: seq<string>, node: nat, name: string)
    returns (edges: seq<Edge>)
    ensures edges == JoinNameEdges(left, leftNames, right, rightNames, node, name)
  {
    var leftIndex := IndexOf(leftNames, name);
    var rightIndex := IndexOf(rightNames, name);
    var leftCount := CountMatches(leftNames, name);
    var rightCount := CountMatches(rightNames, name);
    var out := RelationOutput(node);
    edges := [];
    if leftCount == 1 {
      edges := edges + [Edge(FieldTarget(left, leftIndex, name), out, JoinKey, JoinStep, Some((node, name)), Exact)];
    } else if leftCount > 1 {
      edges := edges + [Edge(FieldTarget(left, -1, name), out, JoinKey, JoinStep, Some((node, name)), Conservative)];
    }
    if rightCount == 1 {
      edges := edges + [Edge(FieldTarget(right, rightIndex, name), out, JoinKey, JoinStep, Some((node, name)), Exact)];
    } else if rightCount > 1 {
      edges := edges + [Edge(FieldTarget(right, -1, name), out, JoinKey, JoinStep, Some((node, name)), Conservative)];
    }
    if leftCount == 0 && rightCount == 0 {
      edges := edges + [Edge(FieldTarget(left, -1, name), out, JoinKey, JoinStep, Some((node, name)), Conservative)];
    }
  }

  /** Right input slots land behind the left ones. */
  function JoinSideEdges(
      input: nat, inNames: seq<string>, node: nat, outNames: seq<string>, offset: nat): seq<Edge>
    requires offset + |inNames| <= |outNames|
  {
    seq(|inNames|, k requires 0 <= k < |inNames| =>
      IdentityEdge(FieldTarget(input, k, inNames[k]), FieldTarget(node, offset + k, outNames[offset + k])))
  }

  method BuildJoinSideEdges(
      input: nat, inNames: seq<string>, node: nat, outNames: seq<string>, offset: nat) returns (edges: seq<Edge>)
    requires offset + |inNames| <= |outNames|
    ensures edges == JoinSideEdges(input, inNames, node, outNames, offset)
  {
    edges := [];
    for k := 0 to |inNames|
      invariant |edges| == k
      invariant forall j :: 0 <= j < k ==>
        edges[j] == IdentityEdge(FieldTarget(input, j, inNames[j]), FieldTarget(node, offset + j, outNames[offset + j]))
    {
      edges := edges
        + [IdentityEdge(FieldTarget(input, k, inNames[k]), FieldTarget(node, offset + k, outNames[offset + k]))];
    }
  }

  // ----- aggregate -----

  /** The node whose fields measures read: a GroupBy right below is skipped. */
  function MeasureInput(plan: Store, i: nat): (r: nat)
    requires i < |plan| && plan[i].Aggregate?
    ensures r < i
  {
    assert plan[i].Inputs()[0] == plan[i].input;
    if plan[plan[i].input].GroupBy? then
      assert plan[plan[i].input].Inputs()[0] == plan[plan[i].input].input;
      plan[plan[i].input].input
    else plan[i].input
  }

  /** The grouping expressions lineage attributes to an aggregate. */
  function PrefixKeys(plan: Store, i: nat): seq<ColumnExpr>
    requires i < |plan| && plan[i].Aggregate?
  {
    assert plan[i].Inputs()[0] == plan[i].input;
    if plan[i].keys != [] then plan[i].keys
    else if plan[plan[i].input].GroupBy? then plan[plan[i].input].keys
    else []
  }

  /** A measure reads its arguments; without arguments it reads the relation as a whole. */
  function MeasureEdges(input: nat, inNames: seq<string>, node: nat, m: Measure, destination: Target): seq<Edge> {
    if m.arguments != [] then
      DependencyEdges(inNames, input, node, m.arguments, destination, ValueOf, AggregateStep)
    else [Edge(RelationOutput(input), destination, ValueOf, AggregateStep, None, Exact)]
  }

  function MeasuresEdges(
      input: nat, inNames: seq<string>, node: nat, outNames: seq<string>, prefix: nat, measures: seq<Measure>)
    : seq<Edge>
    requires prefix + |measures| <= |outNames|
  {
    if measures == [] then []
    else
      var k := |measures| - 1;
      MeasuresEdges(input, inNames, node, outNames, prefix, measures[..k])
      + MeasureEdges(input, inNames, node, measures[k], FieldTarget(node, prefix + k, outNames[prefix + k]))
  }

  lemma MeasuresEdgesExtend(
      input: nat, inNames: seq<string>, node: nat, outNames: seq<string>, prefix: nat, measures: seq<Measure>, k: nat)
    requires prefix + |measures| <= |outNames| && k < |measures|
    ensures MeasuresEdges(input, inNames, node, outNames, prefix, measures[..k + 1])
         == MeasuresEdges(input, inNames, node, outNames, prefix, measures[..k])
            + MeasureEdges(input, inNames, node, measures[k], FieldTarget(node, prefix + k, outNames[prefix + k]))
  {
    assert measures[..k + 1][..k] == measures[..k];
  }

  method BuildMeasureEdges(input: nat, inNames: seq<string>, node: nat, m: Measure, destination: Target)
    returns (edges: seq<Edge>)
    ensures edges == MeasureEdges(input, inNames, node, m, destination)
  {
    if m.arguments != [] {
      edges := BuildDependencyEdges(inNames, input, node, m.arguments, destination, ValueOf, AggregateStep);
    } else {
      edges := [Edge(RelationOutput(input), destination, ValueOf, AggregateStep, None, Exact)];
    }
  }

  method BuildMeasuresEdges(
      input: nat, inNames: seq<string>, node: nat, outNames: seq<string>, prefix: nat, measures: seq<Measure>)
    returns (edges: seq<Edge>)
    requires prefix + |measures| <= |outNames|
    ensures edges == MeasuresEdges(input, inNames, node, outNames, prefix, measures)
  {
    edges := [];
    for k := 0 to |measures|
      invariant edges == MeasuresEdges(input, inNames, node, outNames, prefix, measures[..k])
    {
      MeasuresEdgesExtend(input, inNames, node, outNames, prefix, measures, k);
      var more := BuildMeasureEdges(input, inNames, node, measures[k],
                                    FieldTarget(node, prefix + k, outNames[prefix + k]));
      edges := edges + more;
    }
    assert measures[..|measures|] == measures;
  }

  function Clip(keys: seq<ColumnExpr>, prefix: nat): seq<ColumnExpr> {
    if prefix < |keys| then keys[..prefix] else keys
  }

  function AggregateEdges(cat: Catalog, plan: Store, i: nat): seq<Edge>
    requires i < |plan| && plan[i].Aggregate?
  {
    var out := Columns(cat, plan, i);
    var measures := plan[i].measures;
    var prefix := |out| - |measures|;
    var input := MeasureInput(plan, i);
    var inNames := Columns(cat, plan, input);
    PositionalEdges(input, inNames, i, out, Clip(PrefixKeys(plan, i), prefix), Grouping)
    + MeasuresEdges(input, inNames, i, out, prefix, measures)
  }

  // ----- generator and window -----

  function GeneratedEdges(
      input: nat, inNames: seq<string>, node: nat, outNames: seq<string>, args: seq<ColumnExpr>, outputs: seq<string>)
    : seq<Edge>
  {
    if outputs == [] then []
    else
      var k := |outputs| - 1;
      var slot := FirstIndex(outNames, outputs[k]);
      GeneratedEdges(input, inNames, node, outNames, args, outputs[..k])
      + if slot < 0 then [] else
          DependencyEdges(inNames, input, node, args, FieldTarget(node, slot, outputs[k]), ValueOf, GeneratorStep)
  }

  method BuildGeneratedEdges(
      input: nat, inNames: seq<string>, node: nat, outNames: seq<string>, args: seq<ColumnExpr>, outputs: seq<string>)
    returns (edges: seq<Edge>)
    ensures edges == GeneratedEdges(input, inNames, node, outNames, args, outputs)
  {
    edges := [];
    for k := 0 to |outputs|
      invariant edges == GeneratedEdges(input, inNames, node, outNames, args, outputs[..k])
    {
      assert outputs[..k + 1][..k] == outputs[..k];
      var slot := IndexOf(outNames, outputs[k]);
      if slot >= 0 {
        var more := BuildDependencyEdges(inNames, input, node, args, FieldTarget(node, slot, outputs[k]),
                                         ValueOf, GeneratorStep);
        edges := edges + more;
      }
    }
    assert outputs[..|outputs|] == outputs;
  }

  function WindowEdges(
      input: nat, inNames: seq<string>, node: nat, outNames: seq<string>, projections: seq<WindowProjection>)
    : seq<Edge>
  {
    if projections == [] then []
    else
      var k := |projections| - 1;
      var w := projections[k];
      var slot := FirstIndex(outNames, w.outputName);
      WindowEdges(input, inNames, node, outNames, projections[..k])
      + if slot < 0 then [] else
          DependencyEdges(inNames, input, node, WindowInputs(w), FieldTarget(node, slot, w.outputName),
                          WindowOf, WindowStep)
  }

  method BuildWindowEdges(
      input: nat, inNames: seq<string>, node: nat, outNames: seq<string>, projections: seq<WindowProjection>)
    returns (edges: seq<Edge>)
    ensures edges == WindowEdges(input, inNames, node, outNames, projections)
  {
    edges := [];
    for k := 0 to |projections|
      invariant edges == WindowEdges(input, inNames, node, outNames, projections[..k])
    {
      assert projections[..k + 1][..k] == projections[..k];
      var w := projections[k];
      var slot := IndexOf(outNames, w.outputName);
      if slot >= 0 {
        var more := BuildDependencyEdges(inNames, input, node, WindowInputs(w), FieldTarget(node, slot, w.outputName),
                                         WindowOf, WindowStep);
        edges := edges + more;
      }
    }
    assert projections[..|projections|] == projections;
  }

  // ----- a whole node, a whole graph -----

  /** The single-input nodes other than aggregates. */
  predicate Unary(node: Node, out: seq<string>) {
    && !node.Read? && !node.Join? && !node.Aggregate?
    && (node.SelectProject? ==> |node.assignments| <= |out|)
    && (node.GroupBy? ==> |node.keys| <= |out|)
  }

  function UnaryEdges(names: seq<string>, i: nat, out: seq<string>, node: Node): seq<Edge>
    requires Unary(node, out)
  {
    var through := PassthroughEdges(node.input, names, i, out);
    match node
    case Filter(input, p) =>
      through + DependencyEdges(names, input, i, [p], RelationOutput(i), Control, FilterStep)
    case Project(input, assignments) => through + AssignmentEdges(input, names, i, out, assignments)
    case SelectProject(input, assignments) =>
      PositionalEdges(input, names, i, out, AssignedExprs(assignments), ValueOf)
    case GroupBy(input, keys) => PositionalEdges(input, names, i, out, keys, Grouping)
    case Generate(input, g) => through + GeneratedEdges(input, names, i, out, g.arguments, g.outputColumns)
    case Window(input, projections) => through + WindowEdges(input, names, i, out, projections)
    case OrderBy(input, keys) =>
      through + DependencyEdges(names, input, i, keys, RelationOutput(i), Sort, Expression)
    case Limit(_, _) => through
  }

  method BuildUnaryEdges(names: seq<string>, i: nat, out: seq<string>, node: Node) returns (edges: seq<Edge>)
    requires Unary(node, out)
    ensures edges == UnaryEdges(names, i, out, node)
  {
    var more := [];
    match node {
      case SelectProject(input, assignments) =>
        edges := BuildPositionalEdges(input, names, i, out, AssignedExprs(assignments), ValueOf);
        return;
      case GroupBy(input, keys) =>
        edges := BuildPositionalEdges(input, names, i, out, keys, Grouping);
        return;
      case Filter(input, p) =>
        more := BuildDependencyEdges(names, input, i, [p], RelationOutput(i), Control, FilterStep);
      case Project(input, assignments) =>
        more := BuildAssignmentEdges(input, names, i, out, assignments);
      case Generate(input, g) =>
        more := BuildGeneratedEdges(input, names, i, out, g.arguments, g.outputColumns);
      case Window(input, projections) =>
        more := BuildWindowEdges(input, names, i, out, projections);
      case OrderBy(input, keys) =>
        more := BuildDependencyEdges(names, input, i, keys, RelationOutput(i), Sort, Expression);
      case Limit(_, _) =>
    }
    edges := BuildPassthroughEdges(node.input, names, i, out);
    edges := edges + more;
  }

  function NodeEdges(cat: Catalog, plan: Store, i: nat): seq<Edge>
    requires i < |plan|
  {
    var out := Columns(cat, plan, i);
    match plan[i]
    case Read(table) => ReadEdges(i, table, out)
    case Join(left, right, _, _, on) =>
      assert plan[i].Inputs()[0] == left && plan[i].Inputs()[1] == right;
      var l := Columns(cat, plan, left);
      var r := Columns(cat, plan, right);
      JoinSideEdges(left, l, i, out, 0) + JoinSideEdges(right, r, i, out, |l|)
      + JoinPredicateEdges(left, l, right, r, i, DependencyNames([on]))
    case Aggregate(_, _, _) => AggregateEdges(cat, plan, i)
    case node =>
      assert plan[i].Inputs()[0] == node.input;
      UnaryEdges(Columns(cat, plan, node.input), i, out, node)
  }

  method BuildNodeEdges(cat: Catalog, plan: Store, i: nat) returns (edges: seq<Edge>)
    requires i < |plan|
    ensures edges == NodeEdges(cat, plan, i)
  {
    var out := Columns(cat, plan, i);
    match plan[i] {
      case Read(table) => edges := BuildReadEdges(i, table, out);
      case Join(left, right, _, _, on) =>
        assert plan[i].Inputs()[0] == left && plan[i].Inputs()[1] == right;
        var l := Columns(cat, plan, left);
        var r := Columns(cat, plan, right);
        var leftEdges := BuildJoinSideEdges(left, l, i, out, 0);
        var rightEdges := BuildJoinSideEdges(right, r, i, out, |l|);
        var keyEdges := BuildJoinPredicateEdges(left, l, right, r, i, on);
        edges := leftEdges + rightEdges + keyEdges;
      case Aggregate(_, _, measures) =>
        var prefix := |out| - |measures|;
        var input := MeasureInput(plan, i);
        var names := Columns(cat, plan, input);
        var keyEdges := BuildPositionalEdges(input, names, i, out, Clip(PrefixKeys(plan, i), prefix), Grouping);
        var measureEdges := BuildMeasuresEdges(input, names, i, out, prefix, measures);
        edges := keyEdges + measureEdges;
      case node =>
        assert plan[i].Inputs()[0] == node.input;
        edges := BuildUnaryEdges(Columns(cat, plan, node.input), i, out, node);
    }
  }

  function GraphEdges(cat: Catalog, plan: Store, ids: seq<nat>): seq<Edge>
    requires forall k :: 0 <= k < |ids| ==> ids[k] < |plan|
  {
    if ids == [] then []
    else
      var n := |ids| - 1;
      GraphEdges(cat, plan, ids[..n]) + NodeEdges(cat, plan, ids[n])
  }

  function LineageGraph(cat: Catalog, plan: Store, tip: nat): seq<Edge>
    requires tip < |plan|
  {
    GraphEdges(cat, plan, ReachableIds(plan, tip))
  }

  method BuildLineageGraph(cat: Catalog, plan: Store, tip: nat) returns (edges: seq<Edge>)
    requires tip < |plan|
    ensures edges == LineageGraph(cat, plan, tip)
  {
    var ids := ReachableNodeIds(plan, tip);
    edges := [];
    for k := 0 to |ids|
      invariant edges == GraphEdges(cat, plan, ids[..k])
    {
      var more := BuildNodeEdges(cat, plan, ids[k]);
      GraphEdgesNext(cat, plan, ids, k);
      edges := edges + more;
    }
    assert ids[..|ids|] == ids;
  }

  lemma GraphEdgesNext(cat: Catalog, plan: Store, ids: seq<nat>, k: nat)
    requires k < |ids| && forall j :: 0 <= j < |ids| ==> ids[j] < |plan|
    ensures GraphEdges(cat, plan, ids[..k + 1]) == GraphEdges(cat, plan, ids[..k]) + NodeEdges(cat, plan, ids[k])
  {
    assert ids[..k + 1][..k] == ids[..k];
  }
}
