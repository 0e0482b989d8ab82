/** The lineage graph is well formed and acyclic: edges go from read roots or earlier nodes to their own node, and
    ordinals say what the confidence claims. */
module LineageShape {
  import opened Names
  import opened Expressions
  import opened Plans
  import opened Wrappers
  import opened Reachability
  import opened Lineage

  /** The field at an ordinal carries the target's name. */
  predicate Located(cat: Catalog, plan: Store, t: Target) {
    && t.Field? && t.node < |plan| && t.ordinal.Some?
    && t.ordinal.value < |Columns(cat, plan, t.node)|
    && Columns(cat, plan, t.node)[t.ordinal.value] == t.name
  }

  predicate DestinationOf(cat: Catalog, plan: Store, i: nat, t: Target) {
    t == RelationOutput(i) || (t.Field? && t.node == i && Located(cat, plan, t))
  }

  /** An exact field source is the located one; an exact expression dependency is also the only field of its name;
      a conservative source never claims an ordinal. */
  predicate SourceBefore(cat: Catalog, plan: Store, i: nat, e: Edge)
    requires i < |plan|
  {
    match e.source
    case ReadRoot(n, table) => n == i && plan[i].Read? && plan[i].table == table
    case RelationOutput(n) => n < i
    case Field(n, ordinal, name) =>
      && n < i
      && (e.confidence == Exact ==> Located(cat, plan, e.source))
      && (e.confidence == Exact && e.expression.Some? ==> MatchCount(Columns(cat, plan, n), name) == 1)
      && (e.confidence == Conservative ==> ordinal.None? && MatchCount(Columns(cat, plan, n), name) != 1)
  }

  predicate WellFormed(cat: Catalog, plan: Store, i: nat, e: Edge)
    requires i < |plan|
  {
    && DestinationOf(cat, plan, i, e.destination)
    && SourceBefore(cat, plan, i, e)
    && (e.expression.Some? ==> e.expression.value.0 == i && e.source.Field? && e.expression.value.1 == e.source.name)
  }

  predicate AllWellFormed(cat: Catalog, plan: Store, i: nat, edges: seq<Edge>)
    requires i < |plan|
  {
    forall k :: 0 <= k < |edges| ==> WellFormed(cat, plan, i, edges[k])
  }

  // ----- the same, one pair of column lists at a time -----

  predicate Slotted(names: seq<string>, t: Target) {
    t.Field? && t.ordinal.Some? && t.ordinal.value < |names| && names[t.ordinal.value] == t.name
  }

  predicate Reaches(i: nat, out: seq<string>, t: Target) {
    t == RelationOutput(i) || (t.Field? && t.node == i && Slotted(out, t))
  }

  /** An edge from node n with these column names to node i with those. */
  predicate Fits(n: nat, names: seq<string>, i: nat, out: seq<string>, e: Edge) {
    && Reaches(i, out, e.destination)
    && (e.source == RelationOutput(n)
        || (e.source.Field? && e.source.node == n
            && (e.confidence == Exact ==> Slotted(names, e.source))
            && (e.confidence == Exact && e.expression.Some? ==> MatchCount(names, e.source.name) == 1)
            && (e.confidence == Conservative ==>
                  e.source.ordinal.None? && MatchCount(names, e.source.name) != 1)))
    && (e.expression.Some? ==> e.expression.value.0 == i && e.source.Field? && e.expression.value.1 == e.source.name)
  }

  predicate AllFit(n: nat, names: seq<string>, i: nat, out: seq<string>, edges: seq<Edge>) {
    forall k :: 0 <= k < |edges| ==> Fits(n, names, i, out, edges[k])
  }

  lemma FitsWellFormed(cat: Catalog, plan: Store, n: nat, i: nat, e: Edge)
    requires n < i < |plan| && Fits(n, Columns(cat, plan, n), i, Columns(cat, plan, i), e)
    ensures WellFormed(cat, plan, i, e)
  {
  }

  lemma AppendFits(n: nat, names: seq<string>, i: nat, out: seq<string>, a: seq<Edge>, b: seq<Edge>)
    requires AllFit(n, names, i, out, a) && AllFit(n, names, i, out, b)
    ensures AllFit(n, names, i, out, a + b)
  {
  }

  lemma DependencyFits(n: nat, names: seq<string>, i: nat, out: seq<string>, es: seq<ColumnExpr>, destination: Target,
                       relationship: Relationship, transformation: Transformation)
    requires Reaches(i, out, destination)
    ensures AllFit(n, names, i, out, DependencyEdges(names, n, i, es, destination, relationship, transformation))
  {
    var deps := DependencyNames(es);
    var edges := DependencyEdges(names, n, i, es, destination, relationship, transformation);
    forall k | 0 <= k < |edges|
      ensures Fits(n, names, i, out, edges[k])
    {
      assert edges[k] == DependencyEdge(names, n, i, deps[k], destination, relationship, transformation);
    }
  }

  lemma PassthroughFits(n: nat, names: seq<string>, i: nat, out: seq<string>)
    ensures AllFit(n, names, i, out, PassthroughEdges(n, names, i, out))
  {
  }

  lemma {:induction false} PositionalFit(
      n: nat, names: seq<string>, i: nat, out: seq<string>, es: seq<ColumnExpr>, relationship: Relationship)
    requires |es| <= |out|
    ensures AllFit(n, names, i, out, PositionalEdges(n, names, i, out, es, relationship))
    decreases |es|
  {
    if es != [] {
      var k := |es| - 1;
      PositionalFit(n, names, i, out, es[..k], relationship);
      DependencyFits(n, names, i, out, [es[k]], FieldTarget(i, k, out[k]), relationship,
                     ExpressionTransformation(es[k]));
    }
  }

  lemma {:induction false} AssignmentsFit(
      n: nat, names: seq<string>, i: nat, out: seq<string>, assignments: seq<Assignment>)
    ensures AllFit(n, names, i, out, AssignmentEdges(n, names, i, out, assignments))
    decreases |assignments|
  {
    if assignments != [] {
      var k := |assignments| - 1;
      var a := assignments[k];
      AssignmentsFit(n, names, i, out, assignments[..k]);
      var slot := FirstIndex(out, a.outputName);
      if slot >= 0 {
        DependencyFits(n, names, i, out, [a.expr], FieldTarget(i, slot, a.outputName),
                       ValueOf, ExpressionTransformation(a.expr));
      }
    }
  }

  lemma {:induction false} MeasuresFit(
      n: nat, names: seq<string>, i: nat, out: seq<string>, prefix: nat, measures: seq<Measure>)
    requires prefix + |measures| <= |out|
    ensures AllFit(n, names, i, out, MeasuresEdges(n, names, i, out, prefix, measures))
    decreases |measures|
  {
    if measures != [] {
      var k := |measures| - 1;
      var front := MeasuresEdges(n, names, i, out, prefix, measures[..k]);
      var last := MeasureEdges(n, names, i, measures[k], FieldTarget(i, prefix + k, out[prefix + k]));
      assert MeasuresEdges(n, names, i, out, prefix, measures) == front + last;
      assert AllFit(n, names, i, out, front) by { MeasuresFit(n, names, i, out, prefix, measures[..k]); }
      assert AllFit(n, names, i, out, last) by { MeasureFits(n, names, i, out, measures[k], prefix + k); }
      AppendFits(n, names, i, out, front, last);
    }
  }

  lemma MeasureFits(n: nat, names: seq<string>, i: nat, out: seq<string>, m: Measure, slot: nat)
    requires slot < |out|
    ensures AllFit(n, names, i, out, MeasureEdges(n, names, i, m, FieldTarget(i, slot, out[slot])))
  {
    if m.arguments != [] {
      DependencyFits(n, names, i, out, m.arguments, FieldTarget(i, slot, out[slot]), ValueOf, AggregateStep);
    }
  }

  lemma {:induction false} GeneratedFit(
      n: nat, names: seq<string>, i: nat, out: seq<string>, args: seq<ColumnExpr>, outputs: seq<string>)
    ensures AllFit(n, names, i, out, GeneratedEdges(n, names, i, out, args, outputs))
    decreases |outputs|
  {
    if outputs != [] {
      var k := |outputs| - 1;
      GeneratedFit(n, names, i, out, args, outputs[..k]);
      var slot := FirstIndex(out, outputs[k]);
      if slot >= 0 {
        DependencyFits(n, names, i, out, args, FieldTarget(i, slot, outputs[k]), ValueOf, GeneratorStep);
      }
    }
  }

  lemma {:induction false} WindowsFit(
      n: nat, names: seq<string>, i: nat, out: seq<string>, projections: seq<WindowProjection>)
    ensures AllFit(n, names, i, out, WindowEdges(n, names, i, out, projections))
    decreases |projections|
  {
    if projections != [] {
      var k := |projections| - 1;
      var w := projections[k];
      WindowsFit(n, names, i, out, projections[..k]);
      var slot := FirstIndex(out, w.outputName);
      if slot >= 0 {
        DependencyFits(n, names, i, out, WindowInputs(w), FieldTarget(i, slot, w.outputName), WindowOf, WindowStep);
      }
    }
  }

  lemma UnaryFits(names: seq<string>, i: nat, out: seq<string>, node: Node)
    requires Unary(node, out)
    ensures AllFit(node.input, names, i, out, UnaryEdges(names, i, out, node))
  {
    var n := node.input;
    PassthroughFits(n, names, i, out);
    match node {
      case Filter(_, p) => DependencyFits(n, names, i, out, [p], RelationOutput(i), Control, FilterStep);
      case Project(_, assignments) => AssignmentsFit(n, names, i, out, assignments);
      case SelectProject(_, assignments) => PositionalFit(n, names, i, out, AssignedExprs(assignments), ValueOf);
      case GroupBy(_, keys) => PositionalFit(n, names, i, out, keys, Grouping);
      case Generate(_, g) => GeneratedFit(n, names, i, out, g.arguments, g.outputColumns);
      case Window(_, ws) => WindowsFit(n, names, i, out, ws);
      case OrderBy(_, keys) => DependencyFits(n, names, i, out, keys, RelationOutput(i), Sort, Expression);
      case Limit(_, _) =>
    }
  }

  // ----- join -----

  predicate JoinFits(left: nat, l: seq<string>, right: nat, r: seq<string>, i: nat, out: seq<string>, e: Edge) {
    Fits(left, l, i, out, e) || Fits(right, r, i, out, e)
  }

  lemma {:induction false} JoinPredicateFits(
      left: nat, l: seq<string>, right: nat, r: seq<string>, i: nat, out: seq<string>, names: seq<string>)
    ensures forall e :: e in JoinPredicateEdges(left, l, right, r, i, names) ==> JoinFits(left, l, right, r, i, out, e)
    decreases |names|
  {
    if names != [] {
      JoinPredicateFits(left, l, right, r, i, out, names[..|names| - 1]);
    }
  }

  lemma JoinEdgesWellFormed(cat: Catalog, plan: Store, i: nat)
    requires i < |plan| && plan[i].Join? && plan[i].left < i && plan[i].right < i
    ensures AllWellFormed(cat, plan, i, NodeEdges(cat, plan, i))
  {
    var left, right, edges := plan[i].left, plan[i].right, NodeEdges(cat, plan, i);
    var l, r, out := Columns(cat, plan, left), Columns(cat, plan, right), Columns(cat, plan, i);
    JoinSidesFit(left, l, right, r, i, out, DependencyNames([plan[i].on]));
    forall k | 0 <= k < |edges| ensures WellFormed(cat, plan, i, edges[k]) {
      assert edges[k] in edges;
      if Fits(left, l, i, out, edges[k]) {
        FitsWellFormed(cat, plan, left, i, edges[k]);
      } else {
        FitsWellFormed(cat, plan, right, i, edges[k]);
      }
    }
  }

  lemma JoinSidesFit(
      left: nat, l: seq<string>, right: nat, r: seq<string>, i: nat, out: seq<string>, names: seq<string>)
    requires |l| + |r| == |out|
    ensures forall e ::
      e in JoinSideEdges(left, l, i, out, 0) + JoinSideEdges(right, r, i, out, |l|)
           + JoinPredicateEdges(left, l, right, r, i, names)
      ==> JoinFits(left, l, right, r, i, out, e)
  {
    JoinPredicateFits(left, l, right, r, i, out, names);
  }

  // ----- every node -----

  lemma AllFitWellFormed(cat: Catalog, plan: Store, n: nat, i: nat, edges: seq<Edge>)
    requires n < i < |plan| && AllFit(n, Columns(cat, plan, n), i, Columns(cat, plan, i), edges)
    ensures AllWellFormed(cat, plan, i, edges)
  {
    forall k | 0 <= k < |edges| ensures WellFormed(cat, plan, i, edges[k]) {
      FitsWellFormed(cat, plan, n, i, edges[k]);
    }
  }

  lemma AggregateWellFormed(cat: Catalog, plan: Store, i: nat)
    requires i < |plan| && plan[i].Aggregate?
    ensures AllWellFormed(cat, plan, i, AggregateEdges(cat, plan, i))
  {
    var out, measures := Columns(cat, plan, i), plan[i].measures;
    var prefix, source := |out| - |measures|, MeasureInput(plan, i);
    var names, keys := Columns(cat, plan, source), Clip(PrefixKeys(plan, i), prefix);
    PositionalFit(source, names, i, out, keys, Grouping);
    MeasuresFit(source, names, i, out, prefix, measures);
    AppendFits(source, names, i, out, PositionalEdges(source, names, i, out, keys, Grouping),
               MeasuresEdges(source, names, i, out, prefix, measures));
    AllFitWellFormed(cat, plan, source, i, AggregateEdges(cat, plan, i));
  }

  lemma NodeEdgesWellFormed(cat: Catalog, plan: Store, i: nat)
    requires i < |plan|
    ensures AllWellFormed(cat, plan, i, NodeEdges(cat, plan, i))
  {
    match plan[i] {
      case Read(_) =>
      case Join(left, right, _, _, _) =>
        assert plan[i].Inputs()[0] == left && plan[i].Inputs()[1] == right;
        JoinEdgesWellFormed(cat, plan, i);
      case Aggregate(_, _, _) => AggregateWellFormed(cat, plan, i);
      case node =>
        assert plan[i].Inputs()[0] == node.input;
        UnaryFits(Columns(cat, plan, node.input), i, Columns(cat, plan, i), plan[i]);
        AllFitWellFormed(cat, plan, node.input, i, NodeEdges(cat, plan, i));
    }
  }

  /** Main result: every edge of a plan's lineage graph is well formed at one node below the tip. */
  lemma {:induction false} GraphWellFormed(cat: Catalog, plan: Store, ids: seq<nat>, e: Edge)
    requires forall k :: 0 <= k < |ids| ==> ids[k] < |plan|
    requires e in GraphEdges(cat, plan, ids)
    ensures exists i: nat :: i in ids && WellFormed(cat, plan, i, e)
    decreases |ids|
  {
    var n := |ids| - 1;
    var front, last := GraphEdges(cat, plan, ids[..n]), NodeEdges(cat, plan, ids[n]);
    assert GraphEdges(cat, plan, ids) == front + last;
    if e in last {
      NodeEdgesWellFormed(cat, plan, ids[n]);
      assert ids[n] in ids && WellFormed(cat, plan, ids[n], e);
    } else {
      GraphWellFormed(cat, plan, ids[..n], e);
      var i: nat :| i in ids[..n] && WellFormed(cat, plan, i, e);
      assert i in ids;
    }
  }
}
