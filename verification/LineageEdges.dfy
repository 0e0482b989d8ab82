/** Exactly which edges a lineage graph has: per kind of node, where every edge starts and ends, which relationship
    and transformation it carries, and how confident it is (src/inspect.incn). Stated on edges alone, without the
    functions and loops that build the lists. */
module LineageEdges {
  import opened Names
  import opened Expressions
  import opened Plans
  import opened Wrappers
  import opened Reachability
  import opened Lineage

  // ----- what one edge says -----

  /** Slot k, and no other, carries the name. */
  predicate OnlyAt(names: seq<string>, name: string, k: nat) {
    k < |names| && names[k] == name && forall j :: 0 <= j < |names| && names[j] == name ==> j == k
  }

  /** A field that some input slot k hands on unchanged to slot `offset + k`. */
  predicate Through(input: nat, names: seq<string>, i: nat, out: seq<string>, offset: nat, e: Edge) {
    && e.source.Field? && e.source.ordinal.Some?
    && var k := e.source.ordinal.value;
    && k < |names| && offset + k < |out|
    && e == Edge(Field(input, Some(k), names[k]), Field(i, Some(offset + k), out[offset + k]),
                 ValueOf, Identity, None, Exact)
  }

  /** A mention of one column: the only field of that name, exactly, or else the bare name, conservatively. */
  predicate Mentions(
      input: nat, names: seq<string>, i: nat, name: string, destination: Target,
      relationship: Relationship, transformation: Transformation, e: Edge)
  {
    && e.destination == destination
    && e.relationship == relationship
    && e.transformation == transformation
    && e.expression == Some((i, name))
    && e.source.Field? && e.source.node == input && e.source.name == name
    && (e.source.ordinal.Some? ==> OnlyAt(names, name, e.source.ordinal.value) && e.confidence == Exact)
    && (e.source.ordinal.None? ==> (forall k :: 0 <= k < |names| ==> !OnlyAt(names, name, k)) && e.confidence == Conservative)
  }

  /** A mention of one of the columns an expression reads. */
  predicate Reads(
      input: nat, names: seq<string>, i: nat, refs: set<string>, destination: Target,
      relationship: Relationship, transformation: Transformation, e: Edge)
  {
    && e.expression.Some? && e.expression.value.1 in refs
    && Mentions(input, names, i, e.expression.value.1, destination, relationship, transformation, e)
  }

  /** A direct reference hands its column on; anything else that reads a column applies a function to it. */
  function Derivation(expr: ColumnExpr): Transformation {
    if expr.node.ColumnRef? then Identity else UnknownStep
  }

  /** Expression k feeds slot k. */
  predicate Fills(
      input: nat, names: seq<string>, i: nat, out: seq<string>, es: seq<ColumnExpr>, relationship: Relationship,
      e: Edge)
  {
    && e.destination.Field? && e.destination.ordinal.Some?
    && var k := e.destination.ordinal.value;
    && k < |es| && k < |out|
    && Reads(input, names, i, References(es[k]), Field(i, Some(k), out[k]), relationship, Derivation(es[k]), e)
  }

  /** The slot a name means among the output columns. */
  predicate Lands(i: nat, out: seq<string>, name: string, t: Target) {
    && t.Field? && t.node == i && t.name == name && t.ordinal.Some?
    && t.ordinal.value < |out| && out[t.ordinal.value] == name && name !in out[..t.ordinal.value]
  }

  predicate Assigns(input: nat, names: seq<string>, i: nat, out: seq<string>, a: Assignment, e: Edge) {
    && Lands(i, out, a.outputName, e.destination)
    && Reads(input, names, i, References(a.expr), e.destination, ValueOf, Derivation(a.expr), e)
  }

  predicate AnyAssigns(input: nat, names: seq<string>, i: nat, out: seq<string>, assignments: seq<Assignment>, e: Edge) {
    exists k :: 0 <= k < |assignments| && Assigns(input, names, i, out, assignments[k], e)
  }

  predicate Generates(
      input: nat, names: seq<string>, i: nat, out: seq<string>, args: seq<ColumnExpr>, outputs: seq<string>, e: Edge)
  {
    && e.destination.Field? && e.destination.name in outputs
    && Lands(i, out, e.destination.name, e.destination)
    && Reads(input, names, i, AllReferences(args), e.destination, ValueOf, GeneratorStep, e)
  }

  predicate Windows(input: nat, names: seq<string>, i: nat, out: seq<string>, w: WindowProjection, e: Edge) {
    && Lands(i, out, w.outputName, e.destination)
    && Reads(input, names, i, AllReferences(w.arguments) + AllReferences(w.partitions) + AllReferences(w.sorts),
             e.destination, WindowOf, WindowStep, e)
  }

  predicate AnyWindows(
      input: nat, names: seq<string>, i: nat, out: seq<string>, projections: seq<WindowProjection>, e: Edge)
  {
    exists k :: 0 <= k < |projections| && Windows(input, names, i, out, projections[k], e)
  }

  /** A measure reads its arguments, or the whole relation when it has none. */
  predicate Measures(input: nat, names: seq<string>, i: nat, m: Measure, destination: Target, e: Edge) {
    if m.arguments == [] then
      e == Edge(RelationOutput(input), destination, ValueOf, AggregateStep, None, Exact)
    else Reads(input, names, i, AllReferences(m.arguments), destination, ValueOf, AggregateStep, e)
  }

  /** Measure k feeds slot `prefix + k`. */
  predicate AnyMeasures(
      input: nat, names: seq<string>, i: nat, out: seq<string>, prefix: nat, measures: seq<Measure>, e: Edge)
  {
    && e.destination.Field? && e.destination.ordinal.Some?
    && var k := e.destination.ordinal.value;
    && prefix <= k < prefix + |measures| && k < |out|
    && Measures(input, names, i, measures[k - prefix], Field(i, Some(k), out[k]), e)
  }

  /** A predicate column names the left side if that has it or neither side has it, and the right side if that has
      it; both sides are searched under their own, unqualified names. */
  predicate Joins(
      left: nat, l: seq<string>, right: nat, r: seq<string>, i: nat, refs: set<string>, e: Edge)
  {
    && e.expression.Some?
    && var name := e.expression.value.1;
    && name in refs
    && (((name in l || name !in r) && Mentions(left, l, i, name, RelationOutput(i), JoinKey, JoinStep, e))
        || (name in r && Mentions(right, r, i, name, RelationOutput(i), JoinKey, JoinStep, e)))
  }

  // ----- what one node states -----

  predicate StatedAggregate(cat: Catalog, plan: Store, i: nat, e: Edge)
    requires i < |plan| && plan[i].Aggregate?
  {
    assert plan[i].Inputs()[0] == plan[i].input;
    var below := plan[plan[i].input];
    assert below.GroupBy? ==> below.Inputs()[0] == below.input;
    var source := if below.GroupBy? then below.input else plan[i].input;
    var keys := if plan[i].keys == [] && below.GroupBy? then below.keys else plan[i].keys;
    var names, out := Columns(cat, plan, source), Columns(cat, plan, i);
    var prefix := |out| - |plan[i].measures|;
    || Fills(source, names, i, out[..prefix], keys, Grouping, e)
    || AnyMeasures(source, names, i, out, prefix, plan[i].measures, e)
  }

  /** Node i states the edge. */
  predicate Stated(cat: Catalog, plan: Store, i: nat, e: Edge)
    requires i < |plan|
  {
    var out := Columns(cat, plan, i);
    match plan[i]
    case Read(table) =>
      && e.destination.Field? && e.destination.ordinal.Some?
      && var k := e.destination.ordinal.value;
      && k < |out|
      && e == Edge(ReadRoot(i, table), Field(i, Some(k), out[k]), ValueOf, Identity, None, Exact)
    case Join(left, right, _, _, on) =>
      assert plan[i].Inputs()[0] == left && plan[i].Inputs()[1] == right;
      var l, r := Columns(cat, plan, left), Columns(cat, plan, right);
      || Through(left, l, i, out, 0, e)
      || Through(right, r, i, out, |l|, e)
      || Joins(left, l, right, r, i, References(on), e)
    case Aggregate(_, _, _) => StatedAggregate(cat, plan, i, e)
    case node =>
      assert plan[i].Inputs()[0] == node.input;
      StatedUnary(Columns(cat, plan, node.input), i, out, node, e)
  }

  predicate StatedUnary(names: seq<string>, i: nat, out: seq<string>, node: Node, e: Edge)
    requires Unary(node, out)
  {
    match node
    case Filter(input, p) =>
      || Through(input, names, i, out, 0, e)
      || Reads(input, names, i, References(p), RelationOutput(i), Control, FilterStep, e)
    case OrderBy(input, keys) =>
      || Through(input, names, i, out, 0, e)
      || Reads(input, names, i, AllReferences(keys), RelationOutput(i), Sort, Expression, e)
    case Limit(input, _) => Through(input, names, i, out, 0, e)
    case Project(input, assignments) =>
      || Through(input, names, i, out, 0, e)
      || AnyAssigns(input, names, i, out, assignments, e)
    case SelectProject(input, assignments) =>
      Fills(input, names, i, out, AssignedExprs(assignments), ValueOf, e)
    case GroupBy(input, keys) => Fills(input, names, i, out, keys, Grouping, e)
    case Generate(input, g) =>
      || Through(input, names, i, out, 0, e)
      || Generates(input, names, i, out, g.arguments, g.outputColumns, e)
    case Window(input, projections) =>
      || Through(input, names, i, out, 0, e)
      || AnyWindows(input, names, i, out, projections, e)
  }

  // ----- one family at a time -----

  lemma {:induction false} CountOnlyAt(names: seq<string>, name: string)
    ensures MatchCount(names, name) == 1 <==> exists k: nat :: OnlyAt(names, name, k)
  {
    if MatchCount(names, name) == 1 {
      assert OnlyAt(names, name, FirstIndex(names, name));
    }
    if k: nat :| OnlyAt(names, name, k) {
      OnlyAtCounts(names, name, k);
    }
  }

  lemma {:induction false} OnlyAtCounts(names: seq<string>, name: string, k: nat)
    requires OnlyAt(names, name, k)
    ensures MatchCount(names, name) == 1 && FirstIndex(names, name) == k
  {
    var rest := names[1..];
    assert forall j :: 0 <= j < |rest| ==> rest[j] == names[j + 1];
    if k == 0 {
      assert name !in rest;
    } else {
      assert OnlyAt(rest, name, k - 1);
      OnlyAtCounts(rest, name, k - 1);
    }
  }

  lemma DependencyMentions(
      names: seq<string>, input: nat, i: nat, name: string, destination: Target,
      relationship: Relationship, transformation: Transformation, e: Edge)
    ensures e == DependencyEdge(names, input, i, name, destination, relationship, transformation)
       <==> Mentions(input, names, i, name, destination, relationship, transformation, e)
  {
    CountOnlyAt(names, name);
    if k: nat :| OnlyAt(names, name, k) {
      OnlyAtCounts(names, name, k);
    }
  }

  lemma DependenciesRead(
      names: seq<string>, input: nat, i: nat, es: seq<ColumnExpr>, destination: Target,
      relationship: Relationship, transformation: Transformation, e: Edge)
    ensures e in DependencyEdges(names, input, i, es, destination, relationship, transformation)
       <==> Reads(input, names, i, AllReferences(es), destination, relationship, transformation, e)
  {
    var deps := DependencyNames(es);
    var edges := DependencyEdges(names, input, i, es, destination, relationship, transformation);
    DependencyNamesExact(es);
    if e in edges {
      var k :| 0 <= k < |edges| && edges[k] == e;
      assert deps[k] in deps;
      DependencyMentions(names, input, i, deps[k], destination, relationship, transformation, e);
    }
    if Reads(input, names, i, AllReferences(es), destination, relationship, transformation, e) {
      var name := e.expression.value.1;
      var k :| 0 <= k < |deps| && deps[k] == name;
      DependencyMentions(names, input, i, name, destination, relationship, transformation, e);
      assert edges[k] == e;
    }
  }

  lemma OneReads(
      names: seq<string>, input: nat, i: nat, expr: ColumnExpr, destination: Target,
      relationship: Relationship, e: Edge)
    ensures e in DependencyEdges(names, input, i, [expr], destination, relationship, ExpressionTransformation(expr))
       <==> Reads(input, names, i, References(expr), destination, relationship, Derivation(expr), e)
  {
    DependenciesRead(names, input, i, [expr], destination, relationship, ExpressionTransformation(expr), e);
    OneReference(expr);
  }

  lemma OneReference(expr: ColumnExpr)
    ensures AllReferences([expr]) == References(expr)
  {
    assert [expr][0] == expr;
  }

  lemma PassthroughThrough(input: nat, names: seq<string>, i: nat, out: seq<string>, e: Edge)
    ensures e in PassthroughEdges(input, names, i, out) <==> Through(input, names, i, out, 0, e)
  {
    var edges := PassthroughEdges(input, names, i, out);
    if Through(input, names, i, out, 0, e) {
      assert edges[e.source.ordinal.value] == e;
    }
  }

  lemma JoinSideThrough(input: nat, names: seq<string>, i: nat, out: seq<string>, offset: nat, e: Edge)
    requires offset + |names| <= |out|
    ensures e in JoinSideEdges(input, names, i, out, offset) <==> Through(input, names, i, out, offset, e)
  {
    var edges := JoinSideEdges(input, names, i, out, offset);
    if Through(input, names, i, out, offset, e) {
      assert edges[e.source.ordinal.value] == e;
    }
  }

  lemma {:induction false} PositionalFills(
      input: nat, names: seq<string>, i: nat, out: seq<string>, es: seq<ColumnExpr>, relationship: Relationship,
      e: Edge)
    requires |es| <= |out|
    ensures e in PositionalEdges(input, names, i, out, es, relationship)
       <==> Fills(input, names, i, out, es, relationship, e)
    decreases |es|
  {
    if es != [] {
      var k := |es| - 1;
      PositionalFills(input, names, i, out, es[..k], relationship, e);
      OneReads(names, input, i, es[k], FieldTarget(i, k, out[k]), relationship, e);
    }
  }

  lemma LandsAtFirst(i: nat, out: seq<string>, name: string, t: Target)
    ensures Lands(i, out, name, t) <==> name in out && t == FieldTarget(i, FirstIndex(out, name), name)
  {
    if Lands(i, out, name, t) {
      var k := t.ordinal.value;
      forall j | 0 <= j < k ensures out[j] != name {
        assert out[..k][j] == out[j];
      }
      FirstIndexIs(out, name, k);
    }
  }

  lemma AssignmentAssigns(input: nat, names: seq<string>, i: nat, out: seq<string>, a: Assignment, e: Edge)
    ensures Assigns(input, names, i, out, a, e)
       <==> a.outputName in out
            && e in DependencyEdges(names, input, i, [a.expr], FieldTarget(i, FirstIndex(out, a.outputName), a.outputName),
                                    ValueOf, ExpressionTransformation(a.expr))
  {
    OneReads(names, input, i, a.expr, FieldTarget(i, FirstIndex(out, a.outputName), a.outputName), ValueOf, e);
    LandsAtFirst(i, out, a.outputName, e.destination);
  }

  lemma {:induction false} AssignmentsAssign(
      input: nat, names: seq<string>, i: nat, out: seq<string>, assignments: seq<Assignment>, e: Edge)
    ensures e in AssignmentEdges(input, names, i, out, assignments)
       <==> AnyAssigns(input, names, i, out, assignments, e)
    decreases |assignments|
  {
    if assignments != [] {
      var k := |assignments| - 1;
      AssignmentsAssign(input, names, i, out, assignments[..k], e);
      AssignmentAssigns(input, names, i, out, assignments[k], e);
      assert AnyAssigns(input, names, i, out, assignments, e)
        <==> AnyAssigns(input, names, i, out, assignments[..k], e)
             || Assigns(input, names, i, out, assignments[k], e);
    }
  }

  lemma {:induction false} GeneratedGenerate(
      input: nat, names: seq<string>, i: nat, out: seq<string>, args: seq<ColumnExpr>, outputs: seq<string>, e: Edge)
    ensures e in GeneratedEdges(input, names, i, out, args, outputs)
       <==> Generates(input, names, i, out, args, outputs, e)
    decreases |outputs|
  {
    if outputs != [] {
      var k := |outputs| - 1;
      GeneratedGenerate(input, names, i, out, args, outputs[..k], e);
      DependenciesRead(names, input, i, args, FieldTarget(i, FirstIndex(out, outputs[k]), outputs[k]),
                       ValueOf, GeneratorStep, e);
      LandsAtFirst(i, out, outputs[k], e.destination);
      assert outputs == outputs[..k] + [outputs[k]];
    }
  }

  lemma WindowReads(w: WindowProjection)
    ensures AllReferences(WindowInputs(w))
         == AllReferences(w.arguments) + AllReferences(w.partitions) + AllReferences(w.sorts)
  {
    ReferencesAppend(w.arguments + w.partitions, w.sorts);
    ReferencesAppend(w.arguments, w.partitions);
  }

  lemma ReferencesAppend(a: seq<ColumnExpr>, b: seq<ColumnExpr>)
    ensures AllReferences(a + b) == AllReferences(a) + AllReferences(b)
  {
    forall x | x in AllReferences(a) ensures x in AllReferences(a + b) {
      var k :| 0 <= k < |a| && x in References(a[k]);
      assert (a + b)[k] == a[k];
    }
    forall x | x in AllReferences(b) ensures x in AllReferences(a + b) {
      var k :| 0 <= k < |b| && x in References(b[k]);
      assert (a + b)[|a| + k] == b[k];
    }
  }

  lemma WindowWindows(input: nat, names: seq<string>, i: nat, out: seq<string>, w: WindowProjection, e: Edge)
    ensures Windows(input, names, i, out, w, e)
       <==> w.outputName in out
            && e in DependencyEdges(names, input, i, WindowInputs(w),
                                    FieldTarget(i, FirstIndex(out, w.outputName), w.outputName), WindowOf, WindowStep)
  {
    DependenciesRead(names, input, i, WindowInputs(w), FieldTarget(i, FirstIndex(out, w.outputName), w.outputName),
                     WindowOf, WindowStep, e);
    WindowReads(w);
    LandsAtFirst(i, out, w.outputName, e.destination);
  }

  lemma {:induction false} WindowsWindow(
      input: nat, names: seq<string>, i: nat, out: seq<string>, projections: seq<WindowProjection>, e: Edge)
    ensures e in WindowEdges(input, names, i, out, projections)
       <==> AnyWindows(input, names, i, out, projections, e)
    decreases |projections|
  {
    if projections != [] {
      var k := |projections| - 1;
      WindowsWindow(input, names, i, out, projections[..k], e);
      WindowWindows(input, names, i, out, projections[k], e);
      assert AnyWindows(input, names, i, out, projections, e)
        <==> AnyWindows(input, names, i, out, projections[..k], e)
             || Windows(input, names, i, out, projections[k], e);
    }
  }

  lemma MeasureMeasures(input: nat, names: seq<string>, i: nat, m: Measure, destination: Target, e: Edge)
    ensures e in MeasureEdges(input, names, i, m, destination) <==> Measures(input, names, i, m, destination, e)
  {
    DependenciesRead(names, input, i, m.arguments, destination, ValueOf, AggregateStep, e);
  }

  /** One more measure fills one more slot. */
  lemma MeasuresLast(
      input: nat, names: seq<string>, i: nat, out: seq<string>, prefix: nat, measures: seq<Measure>, e: Edge)
    requires measures != [] && prefix + |measures| <= |out|
    ensures AnyMeasures(input, names, i, out, prefix, measures, e)
       <==> || AnyMeasures(input, names, i, out, prefix, measures[..|measures| - 1], e)
            || Measures(input, names, i, measures[|measures| - 1],
                        FieldTarget(i, prefix + |measures| - 1, out[prefix + |measures| - 1]), e)
  {
    var k := |measures| - 1;
    if Measures(input, names, i, measures[k], FieldTarget(i, prefix + k, out[prefix + k]), e) {
      assert e.destination == Field(i, Some(prefix + k), out[prefix + k]);
    }
  }

  lemma {:induction false} MeasuresMeasure(
      input: nat, names: seq<string>, i: nat, out: seq<string>, prefix: nat, measures: seq<Measure>, e: Edge)
    requires prefix + |measures| <= |out|
    ensures e in MeasuresEdges(input, names, i, out, prefix, measures)
       <==> AnyMeasures(input, names, i, out, prefix, measures, e)
    decreases |measures|
  {
    if measures != [] {
      var k := |measures| - 1;
      MeasuresMeasure(input, names, i, out, prefix, measures[..k], e);
      MeasureMeasures(input, names, i, measures[k], FieldTarget(i, prefix + k, out[prefix + k]), e);
      MeasuresLast(input, names, i, out, prefix, measures, e);
    }
  }

  lemma NameJoins(left: nat, l: seq<string>, right: nat, r: seq<string>, i: nat, name: string, e: Edge)
    ensures e in JoinNameEdges(left, l, right, r, i, name)
       <==> ((name in l || name !in r) && Mentions(left, l, i, name, RelationOutput(i), JoinKey, JoinStep, e))
            || (name in r && Mentions(right, r, i, name, RelationOutput(i), JoinKey, JoinStep, e))
  {
    DependencyMentions(l, left, i, name, RelationOutput(i), JoinKey, JoinStep, e);
    DependencyMentions(r, right, i, name, RelationOutput(i), JoinKey, JoinStep, e);
  }

  /** The same, over an ordered list of names. */
  predicate JoinsNamed(left: nat, l: seq<string>, right: nat, r: seq<string>, i: nat, names: seq<string>, e: Edge) {
    Joins(left, l, right, r, i, (set x | x in names), e)
  }

  lemma {:induction false} NamesJoin(
      left: nat, l: seq<string>, right: nat, r: seq<string>, i: nat, names: seq<string>, e: Edge)
    ensures e in JoinPredicateEdges(left, l, right, r, i, names) <==> JoinsNamed(left, l, right, r, i, names, e)
    decreases |names|
  {
    if names != [] {
      var k := |names| - 1;
      NamesJoin(left, l, right, r, i, names[..k], e);
      NameJoins(left, l, right, r, i, names[k], e);
      assert names == names[..k] + [names[k]];
    }
  }

  lemma PredicateJoins(left: nat, l: seq<string>, right: nat, r: seq<string>, i: nat, on: ColumnExpr, e: Edge)
    ensures e in JoinPredicateEdges(left, l, right, r, i, DependencyNames([on]))
       <==> Joins(left, l, right, r, i, References(on), e)
  {
    var names := DependencyNames([on]);
    NamesJoin(left, l, right, r, i, names, e);
    DependencyNamesExact([on]);
    OneReference(on);
    assert (set x | x in names) == References(on);
  }

  // ----- whole nodes, whole graphs -----

  lemma UnaryStates(names: seq<string>, i: nat, out: seq<string>, node: Node, e: Edge)
    requires Unary(node, out)
    ensures e in UnaryEdges(names, i, out, node) <==> StatedUnary(names, i, out, node, e)
  {
    PassthroughThrough(node.input, names, i, out, e);
    match node {
      case Filter(input, p) =>
        DependenciesRead(names, input, i, [p], RelationOutput(i), Control, FilterStep, e);
        OneReference(p);
      case Project(input, assignments) => AssignmentsAssign(input, names, i, out, assignments, e);
      case SelectProject(input, assignments) =>
        PositionalFills(input, names, i, out, AssignedExprs(assignments), ValueOf, e);
      case GroupBy(input, keys) => PositionalFills(input, names, i, out, keys, Grouping, e);
      case Generate(input, g) => GeneratedGenerate(input, names, i, out, g.arguments, g.outputColumns, e);
      case Window(input, projections) => WindowsWindow(input, names, i, out, projections, e);
      case OrderBy(input, keys) =>
        DependenciesRead(names, input, i, keys, RelationOutput(i), Sort, Expression, e);
      case Limit(_, _) =>
    }
  }

  lemma ClippedFills(
      input: nat, names: seq<string>, i: nat, out: seq<string>, prefix: nat, keys: seq<ColumnExpr>, e: Edge)
    requires prefix <= |out|
    ensures e in PositionalEdges(input, names, i, out, Clip(keys, prefix), Grouping)
       <==> Fills(input, names, i, out[..prefix], keys, Grouping, e)
  {
    PositionalFills(input, names, i, out, Clip(keys, prefix), Grouping, e);
  }

  lemma AggregateStates(cat: Catalog, plan: Store, i: nat, e: Edge)
    requires i < |plan| && plan[i].Aggregate?
    ensures e in AggregateEdges(cat, plan, i) <==> StatedAggregate(cat, plan, i, e)
  {
    var out, measures := Columns(cat, plan, i), plan[i].measures;
    var prefix, source := |out| - |measures|, MeasureInput(plan, i);
    var names := Columns(cat, plan, source);
    ClippedFills(source, names, i, out, prefix, PrefixKeys(plan, i), e);
    MeasuresMeasure(source, names, i, out, prefix, measures, e);
  }

  /** Main result: the edges of a node are exactly the ones its kind states, labels included. */
  lemma NodeEdgesExactly(cat: Catalog, plan: Store, i: nat, e: Edge)
    requires i < |plan|
    ensures e in NodeEdges(cat, plan, i) <==> Stated(cat, plan, i, e)
  {
    var out := Columns(cat, plan, i);
    match plan[i] {
      case Read(table) =>
        if Stated(cat, plan, i, e) {
          assert ReadEdges(i, table, out)[e.destination.ordinal.value] == e;
        }
      case Join(left, right, _, _, on) =>
        assert plan[i].Inputs()[0] == left && plan[i].Inputs()[1] == right;
        var l, r := Columns(cat, plan, left), Columns(cat, plan, right);
        JoinSideThrough(left, l, i, out, 0, e);
        JoinSideThrough(right, r, i, out, |l|, e);
        PredicateJoins(left, l, right, r, i, on, e);
      case Aggregate(_, _, _) => AggregateStates(cat, plan, i, e);
      case node =>
        assert plan[i].Inputs()[0] == node.input;
        UnaryStates(Columns(cat, plan, node.input), i, out, node, e);
    }
  }

  lemma {:induction false} GraphEdgesStated(cat: Catalog, plan: Store, ids: seq<nat>, e: Edge)
    requires forall k :: 0 <= k < |ids| ==> ids[k] < |plan|
    ensures e in GraphEdges(cat, plan, ids) <==> exists i :: i in ids && Stated(cat, plan, i, e)
    decreases |ids|
  {
    if ids != [] {
      var n := |ids| - 1;
      GraphEdgesStated(cat, plan, ids[..n], e);
      NodeEdgesExactly(cat, plan, ids[n], e);
      LastMember(ids);
    }
  }

  lemma LastMember(ids: seq<nat>)
    requires ids != []
    ensures forall i :: i in ids <==> i in ids[..|ids| - 1] || i == ids[|ids| - 1]
  {
    assert ids == ids[..|ids| - 1] + [ids[|ids| - 1]];
  }

  /** Main result: a lineage graph holds exactly what the nodes that feed its tip state. */
  lemma GraphExactly(cat: Catalog, plan: Store, tip: nat, e: Edge)
    requires tip < |plan|
    ensures e in LineageGraph(cat, plan, tip)
       <==> exists i: nat :: i < |plan| && Feeds(plan, i, tip) && Stated(cat, plan, i, e)
  {
    GraphEdgesStated(cat, plan, ReachableIds(plan, tip), e);
  }
}
