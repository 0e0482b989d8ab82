/** What the structural comparison of src/prism/store.incn tells apart: two nodes compare as equal exactly when nothing
    is left to tell them by once typed facts, sketch types, declared row counts and input ids are erased. */
module NodeShapes {
  import opened Expressions
  import opened Plans
  import opened Wrappers
  import opened Adoption

  // ----- expressions -----

  /** The tree without what its typed helpers claim. */
  function Bare(e: ColumnExpr): ColumnExpr
    decreases e, 1
  {
    match e.node
    case Application(name, args, options) => ColumnExpr(Untyped, Application(name, Bares(args), options))
    case _ => ColumnExpr(Untyped, e.node)
  }

  function Bares(es: seq<ColumnExpr>): (r: seq<ColumnExpr>)
    ensures |r| == |es| && forall k :: 0 <= k < |es| ==> r[k] == Bare(es[k])
    decreases es, 0
  {
    seq(|es|, k requires 0 <= k < |es| => Bare(es[k]))
  }

  lemma {:induction false} SameExprExactly(a: ColumnExpr, b: ColumnExpr)
    ensures SameExpr(a, b) <==> Bare(a) == Bare(b)
    decreases a
  {
    if a.node.Application? && b.node.Application? && |a.node.arguments| == |b.node.arguments| {
      var xs, ys := a.node.arguments, b.node.arguments;
      forall k | 0 <= k < |xs| ensures SameExpr(xs[k], ys[k]) <==> Bare(xs[k]) == Bare(ys[k]) {
        SameExprExactly(xs[k], ys[k]);
      }
      SameBares(xs, ys);
    } else if a.node.Application? && b.node.Application? {
      assert |Bares(a.node.arguments)| != |Bares(b.node.arguments)|;
    }
  }

  lemma SameBares(xs: seq<ColumnExpr>, ys: seq<ColumnExpr>)
    requires |xs| == |ys|
    ensures Bares(xs) == Bares(ys) <==> forall k :: 0 <= k < |xs| ==> Bare(xs[k]) == Bare(ys[k])
  {
    if Bares(xs) == Bares(ys) {
      forall k | 0 <= k < |xs| ensures Bare(xs[k]) == Bare(ys[k]) {
        assert Bares(xs)[k] == Bares(ys)[k];
      }
    }
  }

  lemma SameExprsExactly(xs: seq<ColumnExpr>, ys: seq<ColumnExpr>)
    ensures SameExprs(xs, ys) <==> Bares(xs) == Bares(ys)
  {
    if |xs| == |ys| {
      forall k | 0 <= k < |xs| ensures SameExpr(xs[k], ys[k]) <==> Bare(xs[k]) == Bare(ys[k]) {
        SameExprExactly(xs[k], ys[k]);
      }
      SameBares(xs, ys);
    } else {
      assert |Bares(xs)| != |Bares(ys)|;
    }
  }

  // ----- what nodes carry -----

  function BareOption(e: Option<ColumnExpr>): Option<ColumnExpr> {
    if e.Some? then Some(Bare(e.value)) else None
  }

  function BareAssignments(assignments: seq<Assignment>): (r: seq<Assignment>)
    ensures |r| == |assignments|
  {
    seq(|assignments|, k requires 0 <= k < |assignments| =>
      Assignment(assignments[k].outputName, Bare(assignments[k].expr)))
  }

  /** A measure without its sketch type. */
  function BareMeasure(m: Measure): Measure {
    Measure(m.kind, Bares(m.arguments), m.isDistinct, BareOption(m.filter), Bares(m.ordering), "", m.alias)
  }

  function BareMeasures(measures: seq<Measure>): (r: seq<Measure>)
    ensures |r| == |measures|
  {
    seq(|measures|, k requires 0 <= k < |measures| => BareMeasure(measures[k]))
  }

  function BareWindow(w: WindowProjection): WindowProjection {
    WindowProjection(w.outputName, w.function_, Bares(w.arguments), Bares(w.partitions), Bares(w.sorts), w.frame,
                     w.requiresOrdering)
  }

  function BareWindows(projections: seq<WindowProjection>): (r: seq<WindowProjection>)
    ensures |r| == |projections|
  {
    seq(|projections|, k requires 0 <= k < |projections| => BareWindow(projections[k]))
  }

  /** A node without inputs, typed facts, sketch types and a generator's declared row count. */
  function Shape(n: Node): Node {
    match n
    case Read(table) => n
    case Filter(_, p) => Filter(0, Bare(p))
    case Join(_, _, kind, relation, on) => Join(0, 0, kind, relation, Bare(on))
    case Project(_, assignments) => Project(0, BareAssignments(assignments))
    case SelectProject(_, assignments) => SelectProject(0, BareAssignments(assignments))
    case GroupBy(_, keys) => GroupBy(0, Bares(keys))
    case Aggregate(_, keys, measures) => Aggregate(0, Bares(keys), BareMeasures(measures))
    case Generate(_, g) => Generate(0, Generator(g.name, 0, Bares(g.arguments), g.outputColumns, g.preservesInput))
    case Window(_, projections) => Window(0, BareWindows(projections))
    case OrderBy(_, keys) => OrderBy(0, Bares(keys))
    case Limit(_, rows) => Limit(0, rows)
  }

  lemma SameAssignmentsExactly(a: seq<Assignment>, b: seq<Assignment>)
    ensures SameAssignments(a, b) <==> BareAssignments(a) == BareAssignments(b)
  {
    if |a| == |b| {
      forall k | 0 <= k < |a|
        ensures a[k].outputName == b[k].outputName && SameExpr(a[k].expr, b[k].expr)
            <==> BareAssignments(a)[k] == BareAssignments(b)[k]
      {
        SameExprExactly(a[k].expr, b[k].expr);
      }
    } else {
      assert |BareAssignments(a)| != |BareAssignments(b)|;
    }
  }

  lemma SameMeasureExactly(a: Measure, b: Measure)
    ensures SameMeasure(a, b) <==> BareMeasure(a) == BareMeasure(b)
  {
    SameExprsExactly(a.arguments, b.arguments);
    SameExprsExactly(a.ordering, b.ordering);
    if a.filter.Some? && b.filter.Some? {
      SameExprExactly(a.filter.value, b.filter.value);
    }
  }

  lemma SameMeasuresExactly(a: seq<Measure>, b: seq<Measure>)
    ensures SameMeasures(a, b) <==> BareMeasures(a) == BareMeasures(b)
  {
    if |a| == |b| {
      forall k | 0 <= k < |a| ensures SameMeasure(a[k], b[k]) <==> BareMeasures(a)[k] == BareMeasures(b)[k] {
        SameMeasureExactly(a[k], b[k]);
      }
    } else {
      assert |BareMeasures(a)| != |BareMeasures(b)|;
    }
  }

  lemma SameWindowExactly(a: WindowProjection, b: WindowProjection)
    ensures SameWindow(a, b) <==> BareWindow(a) == BareWindow(b)
  {
    SameExprsExactly(a.arguments, b.arguments);
    SameExprsExactly(a.partitions, b.partitions);
    SameExprsExactly(a.sorts, b.sorts);
  }

  lemma SameWindowsExactly(a: seq<WindowProjection>, b: seq<WindowProjection>)
    ensures SameWindows(a, b) <==> BareWindows(a) == BareWindows(b)
  {
    if |a| == |b| {
      forall k | 0 <= k < |a| ensures SameWindow(a[k], b[k]) <==> BareWindows(a)[k] == BareWindows(b)[k] {
        SameWindowExactly(a[k], b[k]);
      }
    } else {
      assert |BareWindows(a)| != |BareWindows(b)|;
    }
  }

  /** Main result: a candidate stands in for a node exactly when both have the same inputs and the same shape. */
  lemma SameNodeExactly(a: Node, b: Node)
    ensures SamePayload(a, b) <==> Shape(a) == Shape(b)
    ensures SameNode(a, b) <==> a.Inputs() == b.Inputs() && Shape(a) == Shape(b)
  {
    match a {
      case Filter(_, p) => if b.Filter? { SameExprExactly(p, b.predicate_); }
      case Join(_, _, _, _, on) => if b.Join? { SameExprExactly(on, b.on); }
      case Project(_, assignments) => if b.Project? { SameAssignmentsExactly(assignments, b.assignments); }
      case SelectProject(_, assignments) => if b.SelectProject? { SameAssignmentsExactly(assignments, b.assignments); }
      case GroupBy(_, keys) => if b.GroupBy? { SameExprsExactly(keys, b.keys); }
      case Aggregate(_, keys, measures) =>
        if b.Aggregate? {
          SameExprsExactly(keys, b.keys);
          SameMeasuresExactly(measures, b.measures);
        }
      case Generate(_, g) => if b.Generate? { SameExprsExactly(g.arguments, b.generator.arguments); }
      case Window(_, projections) => if b.Window? { SameWindowsExactly(projections, b.projections); }
      case OrderBy(_, keys) => if b.OrderBy? { SameExprsExactly(keys, b.keys); }
      case _ =>
    }
  }
}
