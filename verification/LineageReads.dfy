/** What a plan node reads, and exactly when its lineage edges reach all of it.

    What a node reads is taken from its meaning: the input fields its rows depend on, and the input fields each output
    column depends on. What its edges reach is taken from the edge list alone. */
module LineageReads {
  import opened Names
  import opened Expressions
  import opened Plans
  import opened Wrappers
  import opened Lineage
  import opened LineageReach

  // ----- what a node reads -----

  function At(node: nat, columns: set<nat>): set<(nat, nat)> {
    set o | o in columns :: (node, o)
  }

  /** The input columns behind a name after some assignments: those its last binding reads, or the column itself. */
  function Origin(inNames: seq<string>, earlier: seq<Assignment>, x: string): (columns: set<nat>)
    ensures forall o :: o in columns ==> o < |inNames|
    decreases |earlier|, 0
  {
    if earlier == [] then if x in inNames then {FirstIndex(inNames, x)} else {}
    else
      var n := |earlier| - 1;
      if earlier[n].outputName == x then Reads(inNames, earlier[..n], earlier[n].expr)
      else Origin(inNames, earlier[..n], x)
  }

  /** The input columns an expression reads through the earlier bindings of its own node. */
  function Reads(inNames: seq<string>, earlier: seq<Assignment>, e: ColumnExpr): (columns: set<nat>)
    ensures forall o :: o in columns ==> o < |inNames|
    decreases |earlier|, 1
  {
    set x, o | x in References(e) && o in Origin(inNames, earlier, x) :: o
  }

  /** The input columns behind slot c of an add-or-replace projection: assignments only reach the first slot of a
      name. */
  function SlotReads(names: seq<string>, out: seq<string>, assignments: seq<Assignment>, c: nat): set<nat>
    requires c < |out|
  {
    if FirstIndex(out, out[c]) == c then Origin(names, assignments, out[c]) else {c}
  }

  /** The right columns a join predicate reads: names the left side does not have, under their qualified spelling. */
  function RightReads(l: seq<string>, q: seq<string>, refs: set<string>): set<nat> {
    set x | x in refs && x !in l && x in q :: FirstIndex(q, x)
  }

  /** Only an aggregate with keys of its own reads a grouping's output. The rows of a grouping depend on its keys alone,
      which its own edges trace. */
  predicate ReadsGrouping(plan: Store, i: nat)
    requires i < |plan| && plan[i].Aggregate?
  {
    assert plan[i].Inputs()[0] == plan[i].input;
    plan[i].keys != [] && plan[plan[i].input].GroupBy?
  }

  /** The input fields that decide which rows a node has. */
  function RowReads(cat: Catalog, plan: Store, i: nat): set<(nat, nat)>
    requires i < |plan|
  {
    match plan[i]
    case Filter(input, p) =>
      assert plan[i].Inputs()[0] == input;
      At(input, Resolved(Columns(cat, plan, input), References(p)))
    case Join(left, right, _, relation, on) =>
      assert plan[i].Inputs()[0] == left && plan[i].Inputs()[1] == right;
      var l, q := Columns(cat, plan, left), Qualify(Columns(cat, plan, right), relation);
      At(left, Resolved(l, References(on))) + At(right, RightReads(l, q, References(on)))
    case GroupBy(input, keys) =>
      assert plan[i].Inputs()[0] == input;
      At(input, Resolved(Columns(cat, plan, input), AllReferences(keys)))
    case Aggregate(_, _, _) =>
      var (source, keys) := AggregateSource(plan, i);
      if ReadsGrouping(plan, i) then {} else At(source, Resolved(Columns(cat, plan, source), AllReferences(keys)))
    case Generate(input, g) =>
      assert plan[i].Inputs()[0] == input;
      At(input, Resolved(Columns(cat, plan, input), AllReferences(g.arguments)))
    case OrderBy(input, keys) =>
      assert plan[i].Inputs()[0] == input;
      At(input, Resolved(Columns(cat, plan, input), AllReferences(keys)))
    case _ => {}
  }

  /** The input fields an output column depends on beyond that. */
  function ColumnReads(cat: Catalog, plan: Store, i: nat, c: nat): set<(nat, nat)>
    requires i < |plan| && c < |Columns(cat, plan, i)|
  {
    match plan[i]
    case Filter(input, _) => {(input, c)}
    case OrderBy(input, _) => {(input, c)}
    case Limit(input, _) => {(input, c)}
    case Join(left, right, _, _, _) =>
      assert plan[i].Inputs()[0] == left;
      var l := Columns(cat, plan, left);
      if c < |l| then {(left, c)} else {(right, c - |l|)}
    case Project(input, assignments) =>
      assert plan[i].Inputs()[0] == input;
      At(input, SlotReads(Columns(cat, plan, input), Columns(cat, plan, i), assignments, c))
    case SelectProject(input, assignments) =>
      assert plan[i].Inputs()[0] == input;
      At(input, Reads(Columns(cat, plan, input), assignments[..c], assignments[c].expr))
    case Aggregate(_, _, measures) =>
      var (source, keys) := AggregateSource(plan, i);
      if ReadsGrouping(plan, i) || !(|keys| <= c < |keys| + |measures|) then {}
      else At(source, Resolved(Columns(cat, plan, source), AllReferences(MeasureInputs(measures[c - |keys|]))))
    case Generate(input, g) =>
      assert plan[i].Inputs()[0] == input;
      if g.preservesInput && c < |Columns(cat, plan, input)| then {(input, c)} else {}
    case Window(input, ws) =>
      assert plan[i].Inputs()[0] == input;
      var names := Columns(cat, plan, input);
      if c < |names| then {(input, c)} else At(input, Resolved(names, AllReferences(WindowInputs(ws[c - |names|]))))
    case _ => {}
  }

  /** Nodes read earlier nodes. */
  lemma RowsEarlier(cat: Catalog, plan: Store, i: nat)
    requires i < |plan|
    ensures forall f :: f in RowReads(cat, plan, i) ==> f.0 < i
  {
    match plan[i] {
      case Read(_) =>
      case Join(left, right, _, _, _) =>
        assert plan[i].Inputs()[0] == left && plan[i].Inputs()[1] == right;
      case node =>
        assert plan[i].Inputs()[0] == node.input;
    }
  }

  lemma ColumnEarlier(cat: Catalog, plan: Store, i: nat, c: nat)
    requires i < |plan| && c < |Columns(cat, plan, i)|
    ensures forall f :: f in ColumnReads(cat, plan, i, c) ==> f.0 < i
  {
    match plan[i] {
      case Read(_) =>
      case Join(left, right, _, _, _) =>
        assert plan[i].Inputs()[0] == left && plan[i].Inputs()[1] == right;
      case node =>
        assert plan[i].Inputs()[0] == node.input;
    }
  }

  // ----- completeness -----

  /** Field o of node n is a source of an edge of node i that bears on its rows (no column) or on the column. */
  predicate ReachedAt(cat: Catalog, plan: Store, i: nat, column: Option<nat>, n: nat, o: nat)
    requires i < |plan|
  {
    n < |plan| && Reached(NodeEdges(cat, plan, i), Probe(i, column, n, o, |Columns(cat, plan, n)|))
  }

  /** Marks the fields a proof looks at. */
  predicate Asked(n: nat, o: nat) {
    true
  }

  ghost predicate Complete(cat: Catalog, plan: Store, i: nat, column: Option<nat>, fields: set<(nat, nat)>)
    requires i < |plan|
  {
    forall n, o {:trigger Asked(n, o)} :: (n, o) in fields ==>
      ReachedAt(cat, plan, i, column, n, o)
  }

  ghost predicate ColumnComplete(cat: Catalog, plan: Store, i: nat, c: nat)
    requires i < |plan|
  {
    c < |Columns(cat, plan, i)| ==> Complete(cat, plan, i, Some(c), ColumnReads(cat, plan, i, c))
  }

  /** The node's lineage edges reach everything it reads, where it reads it. */
  ghost predicate EdgesComplete(cat: Catalog, plan: Store, i: nat)
    requires i < |plan|
  {
    && Complete(cat, plan, i, None, RowReads(cat, plan, i))
    && forall c: nat :: ColumnComplete(cat, plan, i, c)
  }

  /** Reads at one node are reached exactly when they lie in the columns the edges name. */
  lemma CompleteAt(
      cat: Catalog, plan: Store, i: nat, column: Option<nat>, source: nat, read: set<nat>, named: set<nat>)
    requires i < |plan|
    requires forall o :: o in read ==> (ReachedAt(cat, plan, i, column, source, o) <==> o in named)
    ensures Complete(cat, plan, i, column, At(source, read)) <==> read <= named
  {
    if Complete(cat, plan, i, column, At(source, read)) {
      forall o | o in read ensures o in named {
        assert (source, o) in At(source, read) && Asked(source, o);
      }
    }
  }

  // ----- the conditions -----

  /** Every right column the predicate reads is named by some name of the predicate that the right side has under its
      own spelling. Joining a node with itself needs nothing: an unknown name is blamed on the left input, which is the
      right input too. */
  predicate JoinTraceable(left: nat, l: seq<string>, right: nat, r: seq<string>, relation: string, on: ColumnExpr) {
    left == right || RightReads(l, Qualify(r, relation), References(on)) <= RightNamedAll(r, References(on))
  }

  function RightNamedAll(r: seq<string>, refs: set<string>): set<nat> {
    set x, o | x in refs && o in RightNamed(r, x) :: o
  }

  /** Every column the measure reads is named by its arguments or by the grouping keys. */
  predicate MeasureTraceable(names: seq<string>, keys: seq<ColumnExpr>, m: Measure) {
    Resolved(names, AllReferences(MeasureInputs(m)))
      <= NamedAll(names, AllReferences(m.arguments) + AllReferences(keys))
  }

  predicate MeasuresTraceable(names: seq<string>, keys: seq<ColumnExpr>, measures: seq<Measure>) {
    forall k {:trigger MeasureTraceable(names, keys, measures[k])} :: 0 <= k < |measures| ==>
      MeasureTraceable(names, keys, measures[k])
  }

  function Named(inNames: seq<string>, e: ColumnExpr): set<nat> {
    NamedAll(inNames, References(e))
  }

  /** Every earlier binding that hides an input column from this expression reads only columns the expression names
      itself. */
  predicate ShadowsNamed(inNames: seq<string>, earlier: seq<Assignment>, e: ColumnExpr) {
    forall x :: x in References(e) && x in inNames && x in AssignedNames(earlier) ==>
      Origin(inNames, earlier, x) <= Named(inNames, e)
  }

  predicate AllShadowsNamed(inNames: seq<string>, assignments: seq<Assignment>) {
    forall k {:trigger assignments[..k]} :: 0 <= k < |assignments| ==>
      ShadowsNamed(inNames, assignments[..k], assignments[k].expr)
  }

  /** The input column of a name, and the columns named by some assignment to the name. */
  function NameSources(names: seq<string>, assignments: seq<Assignment>, x: string): set<nat> {
    Resolved(names, {x})
    + set m, o | 0 <= m < |assignments| && assignments[m].outputName == x && o in Named(names, assignments[m].expr) :: o
  }

  /** What the last binding of each assigned name reads is named by some assignment to that name. */
  predicate BindingsTraceable(names: seq<string>, assignments: seq<Assignment>) {
    forall x {:trigger Origin(names, assignments, x)} :: x in AssignedNames(assignments) ==>
      Origin(names, assignments, x) <= NameSources(names, assignments, x)
  }

  predicate SlotOwn(names: seq<string>, projections: seq<WindowProjection>, k: nat)
    requires k < |projections|
  {
    projections[k].outputName !in names && projections[k].outputName !in WindowNames(projections)[..k]
  }

  /** The window's output is the first column of its name, or it reads no column. */
  predicate WindowTraceable(names: seq<string>, projections: seq<WindowProjection>, k: nat)
    requires k < |projections|
  {
    SlotOwn(names, projections, k) || Resolved(names, AllReferences(WindowInputs(projections[k]))) == {}
  }

  predicate WindowsTraceable(names: seq<string>, projections: seq<WindowProjection>) {
    forall k {:trigger WindowTraceable(names, projections, k)} :: 0 <= k < |projections| ==>
      WindowTraceable(names, projections, k)
  }

  /** The generator has an output column, or it reads no column. */
  predicate GeneratorTraceable(names: seq<string>, g: Generator) {
    g.outputColumns != [] || Resolved(names, AllReferences(g.arguments)) == {}
  }

  /** What one node must meet for its edges to reach everything it reads. */
  predicate Traceable(cat: Catalog, plan: Store, i: nat)
    requires i < |plan|
  {
    match plan[i]
    case Join(left, right, _, relation, on) =>
      assert plan[i].Inputs()[0] == left && plan[i].Inputs()[1] == right;
      JoinTraceable(left, Columns(cat, plan, left), right, Columns(cat, plan, right), relation, on)
    case Aggregate(_, _, measures) =>
      var (source, keys) := AggregateSource(plan, i);
      ReadsGrouping(plan, i) || MeasuresTraceable(Columns(cat, plan, source), keys, measures)
    case Project(input, assignments) =>
      assert plan[i].Inputs()[0] == input;
      BindingsTraceable(Columns(cat, plan, input), assignments)
    case SelectProject(input, assignments) =>
      assert plan[i].Inputs()[0] == input;
      AllShadowsNamed(Columns(cat, plan, input), assignments)
    case Generate(input, g) =>
      assert plan[i].Inputs()[0] == input;
      GeneratorTraceable(Columns(cat, plan, input), g)
    case Window(input, projections) =>
      assert plan[i].Inputs()[0] == input;
      WindowsTraceable(Columns(cat, plan, input), projections)
    case _ => true
  }

  /** An aggregate whose width is not what lineage plans with has its edges on the wrong columns. */
  predicate Aligned(plan: Store, i: nat)
    requires i < |plan|
  {
    plan[i].Aggregate? ==> AggregateKeepsWidth(plan, i)
  }

  // ----- filters, orderings, limits, groupings -----

  lemma FilterComplete(cat: Catalog, plan: Store, i: nat)
    requires i < |plan| && plan[i].Filter?
    ensures EdgesComplete(cat, plan, i)
  {
    var input, p := plan[i].input, plan[i].predicate_;
    assert plan[i].Inputs()[0] == input;
    var names := Columns(cat, plan, input);
    OneReference(p);
    ResolvedNamed(names, References(p));
    forall column, o: nat ensures ReachedAt(cat, plan, i, column, input, o)
                         <==> (o < |names| && column == Some(o)) || o in NamedAll(names, References(p)) {
      ControlledReach(cat, plan, i, [p], Control, FilterStep, column, o);
    }
  }

  lemma OrderByComplete(cat: Catalog, plan: Store, i: nat)
    requires i < |plan| && plan[i].OrderBy?
    ensures EdgesComplete(cat, plan, i)
  {
    var input, keys := plan[i].input, plan[i].keys;
    assert plan[i].Inputs()[0] == input;
    var names := Columns(cat, plan, input);
    ResolvedNamed(names, AllReferences(keys));
    forall column, o: nat ensures ReachedAt(cat, plan, i, column, input, o)
                         <==> (o < |names| && column == Some(o)) || o in NamedAll(names, AllReferences(keys)) {
      ControlledReach(cat, plan, i, keys, Sort, Expression, column, o);
    }
  }

  /** Passthrough edges and control edges of some expressions. */
  lemma ControlledReach(
      cat: Catalog, plan: Store, i: nat, es: seq<ColumnExpr>, relationship: Relationship, transformation: Transformation,
      column: Option<nat>, o: nat)
    requires i < |plan| && (plan[i].Filter? || plan[i].OrderBy?) && plan[i].input < i && relationship in {Control, Sort}
    requires var input, out := plan[i].input, Columns(cat, plan, i);
             && out == Columns(cat, plan, input)
             && NodeEdges(cat, plan, i) == PassthroughEdges(input, out, i, out)
                  + DependencyEdges(out, input, i, es, RelationOutput(i), relationship, transformation)
    ensures var names := Columns(cat, plan, plan[i].input);
            ReachedAt(cat, plan, i, column, plan[i].input, o)
            <==> (o < |names| && column == Some(o)) || o in NamedAll(names, AllReferences(es))
  {
    var input, out := plan[i].input, Columns(cat, plan, i);
    var q := Probe(i, column, input, o, |out|);
    PassthroughReaches(input, out, i, out, q);
    DependenciesReach(input, out, i, es, RelationOutput(i), relationship, transformation, q);
    ReachedOr(PassthroughEdges(input, out, i, out),
              DependencyEdges(out, input, i, es, RelationOutput(i), relationship, transformation), q);
  }

  lemma LimitComplete(cat: Catalog, plan: Store, i: nat)
    requires i < |plan| && plan[i].Limit?
    ensures EdgesComplete(cat, plan, i)
  {
    var input, out := plan[i].input, Columns(cat, plan, i);
    assert plan[i].Inputs()[0] == input;
    forall c: nat ensures ColumnComplete(cat, plan, i, c) {
      PassthroughReaches(input, out, i, out, Probe(i, Some(c), input, c, |out|));
      assert Asked(input, c);
    }
  }

  lemma GroupByComplete(cat: Catalog, plan: Store, i: nat)
    requires i < |plan| && plan[i].GroupBy?
    ensures EdgesComplete(cat, plan, i)
  {
    var input, keys, out := plan[i].input, plan[i].keys, Columns(cat, plan, i);
    assert plan[i].Inputs()[0] == input;
    var names := Columns(cat, plan, input);
    var read := Resolved(names, AllReferences(keys));
    ResolvedNamed(names, AllReferences(keys));
    forall o | o in read ensures ReachedAt(cat, plan, i, None, input, o) <==> o in NamedAll(names, AllReferences(keys)) {
      KeysReach(input, names, i, out, keys, Probe(i, None, input, o, |names|));
    }
    CompleteAt(cat, plan, i, None, input, read, NamedAll(names, AllReferences(keys)));
  }

  // ----- joins -----

  /** A join's edges reach a column of either side at its place in the output, and what the predicate's names name. */
  predicate JoinReached(left: nat, l: seq<string>, right: nat, r: seq<string>, names: seq<string>, q: Probe) {
    || (q.source == left && q.ordinal < |l| && q.column == Some(q.ordinal))
    || (q.source == right && q.ordinal < |r| && q.column == Some(|l| + q.ordinal))
    || AnyJoinNamed(left, l, right, r, names, q)
  }

  /** Exactly what a join's edges reach. */
  lemma JoinReaches(cat: Catalog, plan: Store, i: nat, column: Option<nat>, n: nat, o: nat)
    requires i < |plan| && plan[i].Join? && n < |plan|
    ensures plan[i].left < i && plan[i].right < i
    ensures ReachedAt(cat, plan, i, column, n, o)
        <==> JoinReached(plan[i].left, Columns(cat, plan, plan[i].left),
                         plan[i].right, Columns(cat, plan, plan[i].right), DependencyNames([plan[i].on]),
                         Probe(i, column, n, o, |Columns(cat, plan, n)|))
  {
    JoinNodeEdges(cat, plan, i);
    JoinEdgesReach(plan[i].left, Columns(cat, plan, plan[i].left), plan[i].right, Columns(cat, plan, plan[i].right),
                   i, Columns(cat, plan, i), DependencyNames([plan[i].on]),
                   Probe(i, column, n, o, |Columns(cat, plan, n)|));
  }

  lemma JoinNodeEdges(cat: Catalog, plan: Store, i: nat)
    requires i < |plan| && plan[i].Join?
    ensures plan[i].left < i && plan[i].right < i
    ensures |Columns(cat, plan, i)| == |Columns(cat, plan, plan[i].left)| + |Columns(cat, plan, plan[i].right)|
    ensures NodeEdges(cat, plan, i)
        == JoinSideEdges(plan[i].left, Columns(cat, plan, plan[i].left), i, Columns(cat, plan, i), 0)
           + JoinSideEdges(plan[i].right, Columns(cat, plan, plan[i].right), i, Columns(cat, plan, i),
                           |Columns(cat, plan, plan[i].left)|)
           + JoinPredicateEdges(plan[i].left, Columns(cat, plan, plan[i].left),
                                plan[i].right, Columns(cat, plan, plan[i].right), i, DependencyNames([plan[i].on]))
  {
    assert plan[i].Inputs()[0] == plan[i].left && plan[i].Inputs()[1] == plan[i].right;
  }

  lemma JoinEdgesReach(
      left: nat, l: seq<string>, right: nat, r: seq<string>, i: nat, out: seq<string>, names: seq<string>, q: Probe)
    requires q.node == i && Fits(left, l, q) && Fits(right, r, q) && |out| == |l| + |r|
    ensures Reached(JoinSideEdges(left, l, i, out, 0) + JoinSideEdges(right, r, i, out, |l|)
                    + JoinPredicateEdges(left, l, right, r, i, names), q)
        <==> JoinReached(left, l, right, r, names, q)
  {
    JoinSideReaches(left, l, i, out, 0, q);
    JoinSideReaches(right, r, i, out, |l|, q);
    JoinPredicateReaches(left, l, right, r, i, names, q);
    ReachedAmongThree(JoinSideEdges(left, l, i, out, 0), JoinSideEdges(right, r, i, out, |l|),
                      JoinPredicateEdges(left, l, right, r, i, names), q);
  }

  lemma ReachedAmongThree(a: seq<Edge>, b: seq<Edge>, c: seq<Edge>, q: Probe)
    ensures Reached(a + b + c, q) <==> Reached(a, q) || Reached(b, q) || Reached(c, q)
  {
    ReachedOr(a, b, q);
    ReachedOr(a + b, c, q);
  }

  lemma LeftColumnComplete(cat: Catalog, plan: Store, i: nat, c: nat)
    requires i < |plan| && plan[i].Join? && plan[i].left < i && c < |Columns(cat, plan, plan[i].left)|
    ensures ColumnComplete(cat, plan, i, c)
  {
    JoinReaches(cat, plan, i, Some(c), plan[i].left, c);
  }

  lemma RightColumnComplete(cat: Catalog, plan: Store, i: nat, o: nat, c: nat)
    requires i < |plan| && plan[i].Join? && plan[i].left < i && plan[i].right < i
    requires c == |Columns(cat, plan, plan[i].left)| + o && o < |Columns(cat, plan, plan[i].right)|
    ensures ColumnComplete(cat, plan, i, c)
  {
    JoinColumnReads(cat, plan, i, o, c);
    RightReached(cat, plan, i, o, c);
    OneComplete(cat, plan, i, Some(c), plan[i].right, o);
    CompleteAsRead(cat, plan, i, c, {(plan[i].right, o)});
  }

  lemma JoinColumnReads(cat: Catalog, plan: Store, i: nat, o: nat, c: nat)
    requires i < |plan| && plan[i].Join? && plan[i].left < i && plan[i].right < i
    requires c == |Columns(cat, plan, plan[i].left)| + o && o < |Columns(cat, plan, plan[i].right)|
    ensures c < |Columns(cat, plan, i)|
    ensures ColumnReads(cat, plan, i, c) == {(plan[i].right, o)}
  {
  }

  lemma RightReached(cat: Catalog, plan: Store, i: nat, o: nat, c: nat)
    requires i < |plan| && plan[i].Join? && plan[i].left < i && plan[i].right < i
    requires c == |Columns(cat, plan, plan[i].left)| + o && o < |Columns(cat, plan, plan[i].right)|
    ensures ReachedAt(cat, plan, i, Some(c), plan[i].right, o)
  {
    JoinReaches(cat, plan, i, Some(c), plan[i].right, o);
    RightOnes(plan[i].left, Columns(cat, plan, plan[i].left), plan[i].right, Columns(cat, plan, plan[i].right),
              DependencyNames([plan[i].on]),
              Probe(i, Some(c), plan[i].right, o, |Columns(cat, plan, plan[i].right)|));
  }

  lemma RightOnes(left: nat, l: seq<string>, right: nat, r: seq<string>, names: seq<string>, q: Probe)
    requires q.source == right && q.ordinal < |r| && q.column == Some(|l| + q.ordinal)
    ensures JoinReached(left, l, right, r, names, q)
  {
  }

  lemma OneComplete(cat: Catalog, plan: Store, i: nat, column: Option<nat>, n: nat, o: nat)
    requires i < |plan| && ReachedAt(cat, plan, i, column, n, o)
    ensures Complete(cat, plan, i, column, {(n, o)})
  {
  }

  lemma JoinColumnsComplete(cat: Catalog, plan: Store, i: nat)
    requires i < |plan| && plan[i].Join?
    ensures forall c: nat :: ColumnComplete(cat, plan, i, c)
  {
    JoinNodeEdges(cat, plan, i);
    forall c: nat ensures ColumnComplete(cat, plan, i, c) {
      if c < |Columns(cat, plan, plan[i].left)| {
        LeftColumnComplete(cat, plan, i, c);
      } else if c < |Columns(cat, plan, i)| {
        RightColumnComplete(cat, plan, i, c - |Columns(cat, plan, plan[i].left)|, c);
      }
    }
  }

  lemma LeftReached(
      left: nat, l: seq<string>, right: nat, r: seq<string>, names: seq<string>, refs: set<string>, q: Probe)
    requires (forall x :: x in names <==> x in refs) && q.source == left && q.ordinal in Resolved(l, refs)
    ensures AnyJoinNamed(left, l, right, r, names, q)
  {
    var x :| x in refs && x in l && q.ordinal == FirstIndex(l, x);
    assert JoinNamed(left, l, right, r, x, q);
  }

  /** A right column the predicate reads is reached under one of the predicate's unqualified names, or because both
      sides are one node. */
  lemma RightReachedExactly(
      left: nat, l: seq<string>, right: nat, r: seq<string>, relation: string, names: seq<string>, refs: set<string>,
      q: Probe)
    requires (forall x :: x in names <==> x in refs) && (left == right ==> l == r) && q.source == right
    requires q.ordinal in RightReads(l, Qualify(r, relation), refs)
    ensures AnyJoinNamed(left, l, right, r, names, q) <==> left == right || q.ordinal in RightNamedAll(r, refs)
  {
    if left == right {
      var x :| x in refs && x !in l && x in Qualify(r, relation) && q.ordinal == FirstIndex(Qualify(r, relation), x);
      assert MatchCount(l, x) == 0;
      assert JoinNamed(left, l, right, r, x, q);
    } else if AnyJoinNamed(left, l, right, r, names, q) {
      var x :| x in names && JoinNamed(left, l, right, r, x, q);
      assert x in refs && q.ordinal in RightNamed(r, x);
    }
  }

  lemma PredicateNames(on: ColumnExpr)
    ensures forall x :: x in DependencyNames([on]) <==> x in References(on)
  {
    DependencyNamesExact([on]);
    OneReference(on);
  }

  lemma JoinLeftComplete(cat: Catalog, plan: Store, i: nat)
    requires i < |plan| && plan[i].Join?
    ensures plan[i].left < i
    ensures Complete(cat, plan, i, None, At(plan[i].left, Resolved(Columns(cat, plan, plan[i].left), References(plan[i].on))))
  {
    var left, right, on := plan[i].left, plan[i].right, plan[i].on;
    assert plan[i].Inputs()[0] == left && plan[i].Inputs()[1] == right;
    var l, r := Columns(cat, plan, left), Columns(cat, plan, right);
    PredicateNames(on);
    forall o: nat | o in Resolved(l, References(on)) ensures ReachedAt(cat, plan, i, None, left, o) {
      JoinReaches(cat, plan, i, None, left, o);
      LeftReached(left, l, right, r, DependencyNames([on]), References(on), Probe(i, None, left, o, |l|));
    }
  }

  lemma JoinRightExactly(cat: Catalog, plan: Store, i: nat)
    requires i < |plan| && plan[i].Join?
    ensures plan[i].left < i && plan[i].right < i
    ensures var l, r := Columns(cat, plan, plan[i].left), Columns(cat, plan, plan[i].right);
            Complete(cat, plan, i, None,
                     At(plan[i].right, RightReads(l, Qualify(r, plan[i].relationName), References(plan[i].on))))
            <==> JoinTraceable(plan[i].left, l, plan[i].right, r, plan[i].relationName, plan[i].on)
  {
    var left, right, on, relation := plan[i].left, plan[i].right, plan[i].on, plan[i].relationName;
    assert plan[i].Inputs()[0] == left && plan[i].Inputs()[1] == right;
    var l, r := Columns(cat, plan, left), Columns(cat, plan, right);
    var refs := References(on);
    var read := RightReads(l, Qualify(r, relation), refs);
    var named := if left == right then read else RightNamedAll(r, refs);
    PredicateNames(on);
    forall o: nat | o in read ensures ReachedAt(cat, plan, i, None, right, o) <==> o in named {
      JoinReaches(cat, plan, i, None, right, o);
      RightReachedExactly(left, l, right, r, relation, DependencyNames([on]), refs, Probe(i, None, right, o, |r|));
    }
    CompleteAt(cat, plan, i, None, right, read, named);
  }

  /** A join's edges reach every right column its predicate reads exactly when its condition holds; everything else it
      reads they always reach. */
  lemma JoinCompleteExactly(cat: Catalog, plan: Store, i: nat)
    requires i < |plan| && plan[i].Join?
    ensures EdgesComplete(cat, plan, i) <==> Traceable(cat, plan, i)
  {
    assert plan[i].Inputs()[0] == plan[i].left && plan[i].Inputs()[1] == plan[i].right;
    JoinColumnsComplete(cat, plan, i);
    JoinLeftComplete(cat, plan, i);
    JoinRightExactly(cat, plan, i);
    var l, r := Columns(cat, plan, plan[i].left), Columns(cat, plan, plan[i].right);
    CompleteBoth(cat, plan, i, None, At(plan[i].left, Resolved(l, References(plan[i].on))),
                 At(plan[i].right, RightReads(l, Qualify(r, plan[i].relationName), References(plan[i].on))));
  }

  lemma CompleteBoth(
      cat: Catalog, plan: Store, i: nat, column: Option<nat>, a: set<(nat, nat)>, b: set<(nat, nat)>)
    requires i < |plan|
    ensures Complete(cat, plan, i, column, a + b)
      <==> Complete(cat, plan, i, column, a) && Complete(cat, plan, i, column, b)
  {
    if Complete(cat, plan, i, column, a) && Complete(cat, plan, i, column, b) {
      forall n, o | (n, o) in a + b ensures ReachedAt(cat, plan, i, column, n, o) {
        assert Asked(n, o);
      }
    }
    if Complete(cat, plan, i, column, a + b) {
      forall n, o | (n, o) in a || (n, o) in b ensures ReachedAt(cat, plan, i, column, n, o) {
        assert Asked(n, o) && (n, o) in a + b;
      }
    }
  }

  // ----- aggregates -----

  /** Lineage looks at the node and keys the meaning uses, unless the aggregate reads a grouping's output. */
  lemma AggregateEdgesAre(cat: Catalog, plan: Store, i: nat)
    requires i < |plan| && plan[i].Aggregate? && AggregateKeepsWidth(plan, i) && !ReadsGrouping(plan, i)
    ensures var (source, keys) := AggregateSource(plan, i);
            var names, out := Columns(cat, plan, source), Columns(cat, plan, i);
            && |out| == |keys| + |plan[i].measures|
            && NodeEdges(cat, plan, i)
                 == PositionalEdges(source, names, i, out, keys, Grouping)
                    + MeasuresEdges(source, names, i, out, |keys|, plan[i].measures)
  {
    var (source, keys) := AggregateSource(plan, i);
    assert source == MeasureInput(plan, i) && keys == PrefixKeys(plan, i);
    assert Clip(keys, |keys|) == keys;
  }

  /** An aggregate that keeps its width, with where it reads its rows and which keys group them. */
  predicate AggregateOf(plan: Store, i: nat, source: nat, keys: seq<ColumnExpr>) {
    && i < |plan| && plan[i].Aggregate? && AggregateKeepsWidth(plan, i) && !ReadsGrouping(plan, i)
    && AggregateSource(plan, i) == (source, keys)
  }

  /** Exactly what an aggregate's edges reach. */
  lemma AggregateReaches(
      cat: Catalog, plan: Store, i: nat, source: nat, keys: seq<ColumnExpr>, column: Option<nat>, o: nat)
    requires AggregateOf(plan, i, source, keys)
    ensures ReachedAt(cat, plan, i, column, source, o)
        <==> || IsNamed(source, Columns(cat, plan, source), AllReferences(keys),
                        Probe(i, column, source, o, |Columns(cat, plan, source)|))
             || MeasureNamed(source, Columns(cat, plan, source), |keys|, plan[i].measures,
                             Probe(i, column, source, o, |Columns(cat, plan, source)|))
  {
    var names, out := Columns(cat, plan, source), Columns(cat, plan, i);
    var q := Probe(i, column, source, o, |names|);
    AggregateEdgesAre(cat, plan, i);
    KeysReach(source, names, i, out, keys, q);
    MeasuresReach(source, names, i, out, |keys|, plan[i].measures, q);
    ReachedOr(PositionalEdges(source, names, i, out, keys, Grouping),
              MeasuresEdges(source, names, i, out, |keys|, plan[i].measures), q);
  }

  lemma AggregateRowsComplete(cat: Catalog, plan: Store, i: nat)
    requires i < |plan| && plan[i].Aggregate? && AggregateKeepsWidth(plan, i)
    ensures Complete(cat, plan, i, None, RowReads(cat, plan, i))
  {
    if !ReadsGrouping(plan, i) {
      var (source, keys) := AggregateSource(plan, i);
      var names := Columns(cat, plan, source);
      ResolvedNamed(names, AllReferences(keys));
      forall o: nat | o in Resolved(names, AllReferences(keys)) ensures ReachedAt(cat, plan, i, None, source, o) {
        AggregateReaches(cat, plan, i, source, keys, None, o);
      }
    }
  }

  lemma MeasureOrKeys(
      i: nat, source: nat, names: seq<string>, keys: seq<ColumnExpr>, measures: seq<Measure>, k: nat, c: nat, o: nat)
    requires k < |measures| && c == |keys| + k
    ensures IsNamed(source, names, AllReferences(keys), Probe(i, Some(c), source, o, |names|))
            || MeasureNamed(source, names, |keys|, measures, Probe(i, Some(c), source, o, |names|))
        <==> o in NamedAll(names, AllReferences(measures[k].arguments) + AllReferences(keys))
  {
    NamedSplits(names, AllReferences(measures[k].arguments), AllReferences(keys));
  }

  lemma MeasureReachesExactly(
      cat: Catalog, plan: Store, i: nat, source: nat, keys: seq<ColumnExpr>, k: nat, c: nat, o: nat)
    requires AggregateOf(plan, i, source, keys) && k < |plan[i].measures| && c == |keys| + k
    ensures ReachedAt(cat, plan, i, Some(c), source, o)
        <==> o in NamedAll(Columns(cat, plan, source), AllReferences(plan[i].measures[k].arguments) + AllReferences(keys))
  {
    AggregateReaches(cat, plan, i, source, keys, Some(c), o);
    MeasureOrKeys(i, source, Columns(cat, plan, source), keys, plan[i].measures, k, c, o);
  }

  lemma AggregateColumnCount(cat: Catalog, plan: Store, i: nat, source: nat, keys: seq<ColumnExpr>)
    requires AggregateOf(plan, i, source, keys)
    ensures |Columns(cat, plan, i)| == |keys| + |plan[i].measures|
  {
    AggregateEdgesAre(cat, plan, i);
  }

  lemma MeasureReadsAre(cat: Catalog, plan: Store, i: nat, source: nat, keys: seq<ColumnExpr>, k: nat, c: nat)
    requires AggregateOf(plan, i, source, keys) && k < |plan[i].measures| && c == |keys| + k
    ensures c < |Columns(cat, plan, i)|
    ensures ColumnReads(cat, plan, i, c)
         == At(source, Resolved(Columns(cat, plan, source), AllReferences(MeasureInputs(plan[i].measures[k]))))
  {
    AggregateColumnCount(cat, plan, i, source, keys);
  }

  /** The edges of measure k's column, with the grouping edges, reach all the measure reads exactly when its filter and
      ordering read only columns that its arguments or the grouping keys name. Its column c follows the key columns. */
  lemma MeasureCompleteExactly(
      cat: Catalog, plan: Store, i: nat, source: nat, keys: seq<ColumnExpr>, k: nat, c: nat)
    requires AggregateOf(plan, i, source, keys) && k < |plan[i].measures| && c == |keys| + k
    ensures ColumnComplete(cat, plan, i, c)
        <==> MeasureTraceable(Columns(cat, plan, source), keys, plan[i].measures[k])
  {
    var names, m := Columns(cat, plan, source), plan[i].measures[k];
    var read := Resolved(names, AllReferences(MeasureInputs(m)));
    var named := NamedAll(names, AllReferences(m.arguments) + AllReferences(keys));
    MeasureReadsAre(cat, plan, i, source, keys, k, c);
    forall o: nat | o in read ensures ReachedAt(cat, plan, i, Some(c), source, o) <==> o in named {
      MeasureReachesExactly(cat, plan, i, source, keys, k, c, o);
    }
    CompleteAt(cat, plan, i, Some(c), source, read, named);
    CompleteAsRead(cat, plan, i, c, At(source, read));
  }

  /** Key columns need nothing of their own. */
  lemma KeyColumnComplete(cat: Catalog, plan: Store, i: nat, source: nat, keys: seq<ColumnExpr>, c: nat)
    requires AggregateOf(plan, i, source, keys) && !(|keys| <= c < |keys| + |plan[i].measures|)
    ensures ColumnComplete(cat, plan, i, c)
  {
  }

  lemma ColumnsFromMeasures(cat: Catalog, plan: Store, i: nat, source: nat, keys: seq<ColumnExpr>)
    requires AggregateOf(plan, i, source, keys)
    requires MeasuresTraceable(Columns(cat, plan, source), keys, plan[i].measures)
    ensures forall c: nat :: ColumnComplete(cat, plan, i, c)
  {
    forall c: nat ensures ColumnComplete(cat, plan, i, c) {
      AggregateColumnComplete(cat, plan, i, source, keys, c);
    }
  }

  lemma AggregateColumnComplete(cat: Catalog, plan: Store, i: nat, source: nat, keys: seq<ColumnExpr>, c: nat)
    requires AggregateOf(plan, i, source, keys)
    requires MeasuresTraceable(Columns(cat, plan, source), keys, plan[i].measures)
    ensures ColumnComplete(cat, plan, i, c)
  {
    if |keys| <= c < |keys| + |plan[i].measures| {
      MeasureColumnComplete(cat, plan, i, source, keys, c - |keys|, c);
    } else {
      KeyColumnComplete(cat, plan, i, source, keys, c);
    }
  }

  lemma MeasureColumnComplete(
      cat: Catalog, plan: Store, i: nat, source: nat, keys: seq<ColumnExpr>, k: nat, c: nat)
    requires AggregateOf(plan, i, source, keys) && k < |plan[i].measures| && c == |keys| + k
    requires MeasuresTraceable(Columns(cat, plan, source), keys, plan[i].measures)
    ensures ColumnComplete(cat, plan, i, c)
  {
    assert MeasureTraceable(Columns(cat, plan, source), keys, plan[i].measures[k]);
    MeasureCompleteExactly(cat, plan, i, source, keys, k, c);
  }

  lemma MeasuresFromColumns(cat: Catalog, plan: Store, i: nat, source: nat, keys: seq<ColumnExpr>)
    requires AggregateOf(plan, i, source, keys) && forall c: nat :: ColumnComplete(cat, plan, i, c)
    ensures MeasuresTraceable(Columns(cat, plan, source), keys, plan[i].measures)
  {
    forall k | 0 <= k < |plan[i].measures|
      ensures MeasureTraceable(Columns(cat, plan, source), keys, plan[i].measures[k])
    {
      assert ColumnComplete(cat, plan, i, |keys| + k);
      MeasureCompleteExactly(cat, plan, i, source, keys, k, |keys| + k);
    }
  }

  lemma AggregateCompleteExactly(cat: Catalog, plan: Store, i: nat)
    requires i < |plan| && plan[i].Aggregate? && AggregateKeepsWidth(plan, i)
    ensures EdgesComplete(cat, plan, i) <==> Traceable(cat, plan, i)
  {
    var (source, keys) := AggregateSource(plan, i);
    AggregateRowsComplete(cat, plan, i);
    if ReadsGrouping(plan, i) {
      forall c: nat ensures ColumnComplete(cat, plan, i, c) {
      }
    } else {
      if MeasuresTraceable(Columns(cat, plan, source), keys, plan[i].measures) {
        ColumnsFromMeasures(cat, plan, i, source, keys);
      }
      if forall c: nat :: ColumnComplete(cat, plan, i, c) {
        MeasuresFromColumns(cat, plan, i, source, keys);
      }
    }
  }

  // ----- exclusive projections -----

  /** What an expression reads is named by it exactly when every shadow it reads is. */
  lemma ReadsNamedExactly(inNames: seq<string>, earlier: seq<Assignment>, e: ColumnExpr)
    ensures Reads(inNames, earlier, e) <= Named(inNames, e) <==> ShadowsNamed(inNames, earlier, e)
  {
    if ShadowsNamed(inNames, earlier, e) {
      ReadsNamed(inNames, earlier, e);
    }
    forall x | x in References(e) ensures Origin(inNames, earlier, x) <= Reads(inNames, earlier, e) {
    }
  }

  lemma ReadsNamed(inNames: seq<string>, earlier: seq<Assignment>, e: ColumnExpr)
    requires ShadowsNamed(inNames, earlier, e)
    ensures Reads(inNames, earlier, e) <= Named(inNames, e)
  {
    forall x, o | x in References(e) && o in Origin(inNames, earlier, x) ensures o in Named(inNames, e) {
      if !(x in inNames && x in AssignedNames(earlier)) {
        UnshadowedOrigin(inNames, earlier, x);
        assert o in NamedBy(inNames, x);
      }
    }
  }

  lemma {:induction false} UnshadowedOrigin(inNames: seq<string>, earlier: seq<Assignment>, x: string)
    requires !(x in inNames && x in AssignedNames(earlier))
    ensures Origin(inNames, earlier, x) <= NamedBy(inNames, x)
    decreases |earlier|
  {
    if x in inNames && earlier != [] {
      var n := |earlier| - 1;
      assert AssignedNames(earlier)[n] == earlier[n].outputName;
      assert AssignedNames(earlier[..n]) == AssignedNames(earlier)[..n];
      UnshadowedOrigin(inNames, earlier[..n], x);
    }
  }

  lemma SelectReaches(cat: Catalog, plan: Store, i: nat, c: nat, o: nat)
    requires i < |plan| && plan[i].SelectProject? && c < |plan[i].assignments|
    ensures plan[i].input < i
    ensures ReachedAt(cat, plan, i, Some(c), plan[i].input, o)
        <==> o in Named(Columns(cat, plan, plan[i].input), plan[i].assignments[c].expr)
  {
    var input, es := plan[i].input, AssignedExprs(plan[i].assignments);
    assert plan[i].Inputs()[0] == input;
    var names := Columns(cat, plan, input);
    ValuesReach(input, names, i, Columns(cat, plan, i), es, Probe(i, Some(c), input, o, |names|));
  }

  /** The edges of assignment c of an exclusive projection reach all it reads, through earlier bindings of its node too,
      exactly when each earlier binding that hides an input column from it reads only columns it names itself. */
  lemma SelectColumnExactly(cat: Catalog, plan: Store, i: nat, c: nat)
    requires i < |plan| && plan[i].SelectProject? && c < |plan[i].assignments|
    ensures plan[i].input < i
    ensures ColumnComplete(cat, plan, i, c)
      <==> ShadowsNamed(Columns(cat, plan, plan[i].input), plan[i].assignments[..c], plan[i].assignments[c].expr)
  {
    var input, a := plan[i].input, plan[i].assignments;
    assert plan[i].Inputs()[0] == input;
    var names := Columns(cat, plan, input);
    var read, named := Reads(names, a[..c], a[c].expr), Named(names, a[c].expr);
    ReadsNamedExactly(names, a[..c], a[c].expr);
    forall o: nat | o in read ensures ReachedAt(cat, plan, i, Some(c), input, o) <==> o in named {
      SelectReaches(cat, plan, i, c, o);
    }
    CompleteAt(cat, plan, i, Some(c), input, read, named);
  }

  lemma SelectCompleteExactly(cat: Catalog, plan: Store, i: nat)
    requires i < |plan| && plan[i].SelectProject?
    ensures EdgesComplete(cat, plan, i) <==> Traceable(cat, plan, i)
  {
    var a := plan[i].assignments;
    assert plan[i].Inputs()[0] == plan[i].input;
    var names := Columns(cat, plan, plan[i].input);
    forall c: nat ensures ColumnComplete(cat, plan, i, c) <==> (c < |a| ==> ShadowsNamed(names, a[..c], a[c].expr)) {
      if c < |a| {
        SelectColumnExactly(cat, plan, i, c);
      }
    }
    if EdgesComplete(cat, plan, i) {
      forall k | 0 <= k < |a| ensures ShadowsNamed(names, a[..k], a[k].expr) {
        assert ColumnComplete(cat, plan, i, k);
      }
    }
  }

  // ----- add-or-replace projections -----

  /** Columns a projection adds are the first of their names. */
  lemma {:induction false} AddedIsFirst(names: seq<string>, more: seq<string>, c: nat)
    requires |names| <= c < |InsertAll(names, more)|
    ensures FirstIndex(InsertAll(names, more), InsertAll(names, more)[c]) == c
    decreases |more|
  {
    var out, names' := InsertAll(names, more), Insert(names, more[0]);
    InsertAllFacts(names', more[1..]);
    if c >= |names'| {
      AddedIsFirst(names', more[1..], c);
    } else {
      assert out == names' + out[|names'|..];
      assert names'[c] == more[0] == out[c];
      FirstIndexAppend(names', out[|names'|..], more[0]);
      FirstIndexAppend(names, [more[0]], more[0]);
    }
  }

  /** A name no assignment gives stands for its input column. */
  lemma {:induction false} UnassignedOrigin(names: seq<string>, earlier: seq<Assignment>, x: string)
    requires x !in AssignedNames(earlier)
    ensures Origin(names, earlier, x) == Resolved(names, {x})
    decreases |earlier|
  {
    if earlier != [] {
      var n := |earlier| - 1;
      assert AssignedNames(earlier)[n] == earlier[n].outputName;
      assert AssignedNames(earlier[..n]) == AssignedNames(earlier)[..n];
      UnassignedOrigin(names, earlier[..n], x);
    }
  }

  lemma ProjectReaches(cat: Catalog, plan: Store, i: nat, c: nat, o: nat)
    requires i < |plan| && plan[i].Project? && c < |Columns(cat, plan, i)|
    ensures plan[i].input < i
    ensures var input, names, out := plan[i].input, Columns(cat, plan, plan[i].input), Columns(cat, plan, i);
            ReachedAt(cat, plan, i, Some(c), input, o)
            <==> || (c == o && o < |names|)
                 || AnyAssigned(input, names, out, plan[i].assignments, Probe(i, Some(c), input, o, |names|))
  {
    var input, assignments := plan[i].input, plan[i].assignments;
    assert plan[i].Inputs()[0] == input;
    var names, out := Columns(cat, plan, input), Columns(cat, plan, i);
    InsertAllFacts(names, AssignedNames(assignments));
    ProjectEdgesReach(input, names, i, out, assignments, Probe(i, Some(c), input, o, |names|));
  }

  lemma ProjectEdgesReach(
      input: nat, names: seq<string>, i: nat, out: seq<string>, assignments: seq<Assignment>, q: Probe)
    requires q.node == i && q.source == input && q.width == |names| && |names| <= |out|
    ensures Reached(PassthroughEdges(input, names, i, out) + AssignmentEdges(input, names, i, out, assignments), q)
        <==> || (q.column == Some(q.ordinal) && q.ordinal < |names|)
             || AnyAssigned(input, names, out, assignments, q)
  {
    PassthroughReaches(input, names, i, out, q);
    AssignmentsReach(input, names, i, out, assignments, q);
    ReachedOr(PassthroughEdges(input, names, i, out), AssignmentEdges(input, names, i, out, assignments), q);
  }

  /** The first slot of a name is reached from the sources of the name. */
  lemma SlotSources(input: nat, names: seq<string>, assignments: seq<Assignment>, out: seq<string>, c: nat, q: Probe)
    requires out == InsertAll(names, AssignedNames(assignments)) && c < |out| && FirstIndex(out, out[c]) == c
    requires q.source == input && q.column == Some(c)
    ensures (c == q.ordinal && q.ordinal < |names|) || AnyAssigned(input, names, out, assignments, q)
        <==> q.ordinal in NameSources(names, assignments, out[c])
  {
    var x, o := out[c], q.ordinal;
    InsertAllFacts(names, AssignedNames(assignments));
    FirstSlot(names, out, c);
    forall m: nat ensures AssignedFrom(input, names, out, assignments, m, q)
                     <==> m < |assignments| && assignments[m].outputName == x && o in Named(names, assignments[m].expr) {
      if m < |assignments| {
        assert AssignedNames(assignments)[m] == assignments[m].outputName;
      }
    }
    if m: nat :| AssignedFrom(input, names, out, assignments, m, q) {
      assert o in Named(names, assignments[m].expr);
    }
    if m: nat, o' :| m < |assignments| && assignments[m].outputName == x && o' in Named(names, assignments[m].expr) && o' == o {
      assert AssignedFrom(input, names, out, assignments, m, q);
    }
  }

  /** The first slot of a name is the name's input column, if the input has it. */
  lemma FirstSlot(names: seq<string>, out: seq<string>, c: nat)
    requires names <= out && c < |out| && FirstIndex(out, out[c]) == c
    ensures Resolved(names, {out[c]}) == if c < |names| then {c} else {}
  {
    assert out == names + out[|names|..];
    FirstIndexAppend(names, out[|names|..], out[c]);
    if c < |names| {
      assert names[c] == out[c];
    }
  }

  lemma LaterSlotComplete(cat: Catalog, plan: Store, i: nat, c: nat)
    requires i < |plan| && plan[i].Project? && c < |Columns(cat, plan, i)|
    requires FirstIndex(Columns(cat, plan, i), Columns(cat, plan, i)[c]) != c
    ensures ColumnComplete(cat, plan, i, c)
  {
    assert plan[i].Inputs()[0] == plan[i].input;
    var names, more := Columns(cat, plan, plan[i].input), AssignedNames(plan[i].assignments);
    if c >= |names| {
      AddedIsFirst(names, more, c);
    }
    ProjectReaches(cat, plan, i, c, c);
  }

  lemma FirstSlotExactly(cat: Catalog, plan: Store, i: nat, c: nat)
    requires i < |plan| && plan[i].Project? && c < |Columns(cat, plan, i)|
    requires FirstIndex(Columns(cat, plan, i), Columns(cat, plan, i)[c]) == c
    ensures plan[i].input < i
    ensures var names, x := Columns(cat, plan, plan[i].input), Columns(cat, plan, i)[c];
            ColumnComplete(cat, plan, i, c)
            <==> Origin(names, plan[i].assignments, x) <= NameSources(names, plan[i].assignments, x)
  {
    var input, assignments := plan[i].input, plan[i].assignments;
    assert plan[i].Inputs()[0] == input;
    var names, out := Columns(cat, plan, input), Columns(cat, plan, i);
    var read, named := Origin(names, assignments, out[c]), NameSources(names, assignments, out[c]);
    forall o: nat | o in read ensures ReachedAt(cat, plan, i, Some(c), input, o) <==> o in named {
      ProjectReaches(cat, plan, i, c, o);
      SlotSources(input, names, assignments, out, c, Probe(i, Some(c), input, o, |names|));
    }
    CompleteAt(cat, plan, i, Some(c), input, read, named);
  }

  /** A projection's edges reach all it reads exactly when what the last binding of each assigned name reads is named by
      some assignment to that name. */
  lemma ProjectCompleteExactly(cat: Catalog, plan: Store, i: nat)
    requires i < |plan| && plan[i].Project?
    ensures EdgesComplete(cat, plan, i) <==> Traceable(cat, plan, i)
  {
    var input, assignments := plan[i].input, plan[i].assignments;
    assert plan[i].Inputs()[0] == input;
    var names, out := Columns(cat, plan, input), Columns(cat, plan, i);
    InsertAllFacts(names, AssignedNames(assignments));
    if BindingsTraceable(names, assignments) {
      forall c: nat ensures ColumnComplete(cat, plan, i, c) {
        if c < |out| {
          SlotComplete(cat, plan, i, c);
        }
      }
    }
    if EdgesComplete(cat, plan, i) {
      forall x | x in AssignedNames(assignments)
        ensures Origin(names, assignments, x) <= NameSources(names, assignments, x)
      {
        var c := FirstIndex(out, x);
        assert ColumnComplete(cat, plan, i, c);
        FirstSlotExactly(cat, plan, i, c);
      }
    }
  }

  lemma SlotComplete(cat: Catalog, plan: Store, i: nat, c: nat)
    requires i < |plan| && plan[i].Project? && c < |Columns(cat, plan, i)| && Traceable(cat, plan, i)
    ensures ColumnComplete(cat, plan, i, c)
  {
    var input, assignments := plan[i].input, plan[i].assignments;
    assert plan[i].Inputs()[0] == input;
    var names, out := Columns(cat, plan, input), Columns(cat, plan, i);
    if FirstIndex(out, out[c]) != c {
      LaterSlotComplete(cat, plan, i, c);
    } else {
      if out[c] !in AssignedNames(assignments) {
        UnassignedOrigin(names, assignments, out[c]);
      }
      FirstSlotExactly(cat, plan, i, c);
    }
  }

  // ----- generators -----

  lemma GenerateReaches(cat: Catalog, plan: Store, i: nat, column: Option<nat>, o: nat)
    requires i < |plan| && plan[i].Generate?
    ensures plan[i].input < i
    ensures var input, names, g := plan[i].input, Columns(cat, plan, plan[i].input), plan[i].generator;
            ReachedAt(cat, plan, i, column, input, o)
            <==> || (o < |names| && o < |Columns(cat, plan, i)| && column == Some(o))
                 || (g.outputColumns != [] && o in NamedAll(names, AllReferences(g.arguments)))
  {
    var input, g := plan[i].input, plan[i].generator;
    assert plan[i].Inputs()[0] == input;
    var names, out := Columns(cat, plan, input), Columns(cat, plan, i);
    var q := Probe(i, column, input, o, |names|);
    assert forall k :: 0 <= k < |g.outputColumns| ==> out[|out| - |g.outputColumns| + k] == g.outputColumns[k];
    PassthroughReaches(input, names, i, out, q);
    GeneratedReach(input, names, i, out, g.arguments, g.outputColumns, q);
    ReachedOr(PassthroughEdges(input, names, i, out),
              GeneratedEdges(input, names, i, out, g.arguments, g.outputColumns), q);
  }

  /** A generator's edges reach all it reads exactly when it has an output column or reads no column. */
  lemma GenerateCompleteExactly(cat: Catalog, plan: Store, i: nat)
    requires i < |plan| && plan[i].Generate?
    ensures EdgesComplete(cat, plan, i) <==> Traceable(cat, plan, i)
  {
    var input, g := plan[i].input, plan[i].generator;
    assert plan[i].Inputs()[0] == input;
    var names := Columns(cat, plan, input);
    var read := Resolved(names, AllReferences(g.arguments));
    var named := if g.outputColumns != [] then read else {};
    ResolvedNamed(names, AllReferences(g.arguments));
    forall o: nat | o in read ensures ReachedAt(cat, plan, i, None, input, o) <==> o in named {
      GenerateReaches(cat, plan, i, None, o);
    }
    CompleteAt(cat, plan, i, None, input, read, named);
    forall c: nat ensures ColumnComplete(cat, plan, i, c) {
      GenerateReaches(cat, plan, i, Some(c), c);
    }
  }

  // ----- windows -----

  lemma WindowReaches(cat: Catalog, plan: Store, i: nat, c: nat, o: nat)
    requires i < |plan| && plan[i].Window? && c < |Columns(cat, plan, i)|
    ensures plan[i].input < i
    ensures var input, names, out := plan[i].input, Columns(cat, plan, plan[i].input), Columns(cat, plan, i);
            ReachedAt(cat, plan, i, Some(c), input, o)
            <==> || (c == o && o < |names|)
                 || AnyWindow(input, names, out, plan[i].projections, Probe(i, Some(c), input, o, |names|))
  {
    var input, ws := plan[i].input, plan[i].projections;
    assert plan[i].Inputs()[0] == input;
    var names, out := Columns(cat, plan, input), Columns(cat, plan, i);
    WindowNodeReach(input, names, i, out, ws, Probe(i, Some(c), input, o, |names|));
  }

  lemma WindowNodeReach(
      input: nat, names: seq<string>, i: nat, out: seq<string>, ws: seq<WindowProjection>, q: Probe)
    requires q.node == i && q.source == input && q.width == |names| && |names| <= |out|
    ensures Reached(PassthroughEdges(input, names, i, out) + WindowEdges(input, names, i, out, ws), q)
        <==> (q.column == Some(q.ordinal) && q.ordinal < |names|) || AnyWindow(input, names, out, ws, q)
  {
    PassthroughReaches(input, names, i, out, q);
    WindowsReach(input, names, i, out, ws, q);
    ReachedOr(PassthroughEdges(input, names, i, out), WindowEdges(input, names, i, out, ws), q);
  }

  /** An appended name is found in its own slot exactly when no earlier slot holds it. */
  lemma SlotExactly(names: seq<string>, more: seq<string>, k: nat)
    requires k < |more|
    ensures FirstIndex(names + more, more[k]) == |names| + k <==> more[k] !in names && more[k] !in more[..k]
  {
    var out, name := names + more, more[k];
    assert out[|names| + k] == name;
    if name in names {
      FirstIndexAppend(names, more, name);
    } else if name in more[..k] {
      var j :| 0 <= j < k && more[..k][j] == name;
      assert out[|names| + j] == name;
    } else {
      forall j | 0 <= j < |names| + k
        ensures out[j] != name
      {
        if j >= |names| {
          assert more[..k][j - |names|] == out[j];
        }
      }
      FirstIndexIs(out, name, |names| + k);
    }
  }

  /** Window k's slot is reached exactly by its own arguments, and only when its output name is new. */
  lemma WindowSlotFrom(input: nat, names: seq<string>, ws: seq<WindowProjection>, k: nat, q: Probe)
    requires k < |ws| && q.source == input && q.column == Some(|names| + k)
    requires q.ordinal in Resolved(names, AllReferences(WindowInputs(ws[k])))
    ensures AnyWindow(input, names, names + WindowNames(ws), ws, q) <==> SlotOwn(names, ws, k)
  {
    var out := names + WindowNames(ws);
    SlotExactly(names, WindowNames(ws), k);
    ResolvedNamed(names, AllReferences(WindowInputs(ws[k])));
    if m: nat :| WindowFrom(input, names, out, ws, m, q) {
      assert out[|names| + k] == ws[k].outputName;
      assert ws[m].outputName == ws[k].outputName;
    }
    if SlotOwn(names, ws, k) {
      assert WindowFrom(input, names, out, ws, k, q);
    }
  }

  lemma WindowReadsAre(cat: Catalog, plan: Store, i: nat, k: nat)
    requires i < |plan| && plan[i].Window? && k < |plan[i].projections|
    ensures plan[i].input < i
    ensures var names := Columns(cat, plan, plan[i].input);
            && Columns(cat, plan, i) == names + WindowNames(plan[i].projections)
            && ColumnReads(cat, plan, i, |names| + k)
                 == At(plan[i].input, Resolved(names, AllReferences(WindowInputs(plan[i].projections[k]))))
  {
    assert plan[i].Inputs()[0] == plan[i].input;
  }

  lemma WindowReachedExactly(cat: Catalog, plan: Store, i: nat, k: nat, names: seq<string>, o: nat)
    requires i < |plan| && plan[i].Window? && plan[i].input < i && k < |plan[i].projections|
    requires names == Columns(cat, plan, plan[i].input)
    requires o in Resolved(names, AllReferences(WindowInputs(plan[i].projections[k])))
    ensures ReachedAt(cat, plan, i, Some(|names| + k), plan[i].input, o) <==> SlotOwn(names, plan[i].projections, k)
  {
    WindowReadsAre(cat, plan, i, k);
    WindowReaches(cat, plan, i, |names| + k, o);
    WindowSlotFrom(plan[i].input, names, plan[i].projections, k, Probe(i, Some(|names| + k), plan[i].input, o, |names|));
  }

  lemma WindowCompleteAt(cat: Catalog, plan: Store, i: nat, k: nat, names: seq<string>, read: set<nat>)
    requires i < |plan| && plan[i].Window? && plan[i].input < i && k < |plan[i].projections|
    requires names == Columns(cat, plan, plan[i].input)
    requires read == Resolved(names, AllReferences(WindowInputs(plan[i].projections[k])))
    ensures Complete(cat, plan, i, Some(|names| + k), At(plan[i].input, read))
        <==> WindowTraceable(names, plan[i].projections, k)
  {
    var input := plan[i].input;
    var named := if SlotOwn(names, plan[i].projections, k) then read else {};
    forall o: nat | o in read ensures ReachedAt(cat, plan, i, Some(|names| + k), input, o) <==> o in named {
      WindowReachedExactly(cat, plan, i, k, names, o);
    }
    CompleteAt(cat, plan, i, Some(|names| + k), input, read, named);
  }

  lemma WindowColumnExactly(cat: Catalog, plan: Store, i: nat, k: nat)
    requires i < |plan| && plan[i].Window? && k < |plan[i].projections|
    ensures plan[i].input < i
    ensures var names := Columns(cat, plan, plan[i].input);
            ColumnComplete(cat, plan, i, |names| + k) <==> WindowTraceable(names, plan[i].projections, k)
  {
    WindowReadsAre(cat, plan, i, k);
    var names := Columns(cat, plan, plan[i].input);
    var read := Resolved(names, AllReferences(WindowInputs(plan[i].projections[k])));
    WindowCompleteAt(cat, plan, i, k, names, read);
    CompleteAsRead(cat, plan, i, |names| + k, At(plan[i].input, read));
  }

  lemma CompleteAsRead(cat: Catalog, plan: Store, i: nat, c: nat, fields: set<(nat, nat)>)
    requires i < |plan| && c < |Columns(cat, plan, i)| && ColumnReads(cat, plan, i, c) == fields
    ensures ColumnComplete(cat, plan, i, c) <==> Complete(cat, plan, i, Some(c), fields)
  {
  }

  lemma WindowColumnComplete(cat: Catalog, plan: Store, i: nat, c: nat)
    requires i < |plan| && plan[i].Window? && Traceable(cat, plan, i)
    ensures ColumnComplete(cat, plan, i, c)
  {
    assert plan[i].Inputs()[0] == plan[i].input;
    var names, ws := Columns(cat, plan, plan[i].input), plan[i].projections;
    if c < |names| {
      WindowReaches(cat, plan, i, c, c);
    } else if c < |names| + |ws| {
      assert WindowTraceable(names, ws, c - |names|);
      WindowColumnExactly(cat, plan, i, c - |names|);
    }
  }

  /** A window node's edges reach all it reads exactly when each of its outputs is the first column of its name or reads
      no column. */
  lemma WindowCompleteExactly(cat: Catalog, plan: Store, i: nat)
    requires i < |plan| && plan[i].Window?
    ensures EdgesComplete(cat, plan, i) <==> Traceable(cat, plan, i)
  {
    assert plan[i].Inputs()[0] == plan[i].input;
    var names, ws := Columns(cat, plan, plan[i].input), plan[i].projections;
    if Traceable(cat, plan, i) {
      forall c: nat ensures ColumnComplete(cat, plan, i, c) {
        WindowColumnComplete(cat, plan, i, c);
      }
    }
    if EdgesComplete(cat, plan, i) {
      forall k | 0 <= k < |ws| ensures WindowTraceable(names, ws, k) {
        assert ColumnComplete(cat, plan, i, |names| + k);
        WindowColumnExactly(cat, plan, i, k);
      }
    }
  }

  // ----- every node -----

  /** Main result: the edges of a node reach everything the node reads exactly when it meets its condition. */
  lemma TraceableExactly(cat: Catalog, plan: Store, i: nat)
    requires i < |plan| && Aligned(plan, i)
    ensures EdgesComplete(cat, plan, i) <==> Traceable(cat, plan, i)
  {
    match plan[i] {
      case Read(_) =>
        forall c: nat ensures ColumnComplete(cat, plan, i, c) {
        }
      case Filter(_, _) => FilterComplete(cat, plan, i);
      case Join(_, _, _, _, _) => JoinCompleteExactly(cat, plan, i);
      case Project(_, _) => ProjectCompleteExactly(cat, plan, i);
      case SelectProject(_, _) => SelectCompleteExactly(cat, plan, i);
      case GroupBy(_, _) => GroupByComplete(cat, plan, i);
      case Aggregate(_, _, _) => AggregateCompleteExactly(cat, plan, i);
      case Generate(_, _) => GenerateCompleteExactly(cat, plan, i);
      case Window(_, _) => WindowCompleteExactly(cat, plan, i);
      case OrderBy(_, _) => OrderByComplete(cat, plan, i);
      case Limit(_, _) => LimitComplete(cat, plan, i);
    }
  }
}
