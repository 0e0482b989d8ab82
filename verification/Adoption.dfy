/** Copying a subgraph of one Prism store into another (src/prism/store.incn), as a join across stores does, and the
    compaction of a rewritten view (src/prism/rewrite.incn): a copy means what its original means. */
module Adoption {
  import opened Names
  import opened Tables
  import opened Expressions
  import opened Plans
  import opened Wrappers
  import opened Reachability
  import opened Rewrites

  // ----- structural equality -----

  predicate SameAssignments(a: seq<Assignment>, b: seq<Assignment>) {
    |a| == |b| && forall k :: 0 <= k < |a| ==> a[k].outputName == b[k].outputName && SameExpr(a[k].expr, b[k].expr)
  }

  /** Everything but the sketch type, which the name's suffix and the aggregate's options come from. */
  predicate SameMeasure(a: Measure, b: Measure) {
    && a.kind == b.kind && a.isDistinct == b.isDistinct && a.alias == b.alias
    && SameExprs(a.arguments, b.arguments) && SameExprs(a.ordering, b.ordering)
    && a.filter.Some? == b.filter.Some?
    && (a.filter.Some? ==> SameExpr(a.filter.value, b.filter.value))
  }

  predicate SameMeasures(a: seq<Measure>, b: seq<Measure>) {
    |a| == |b| && forall k :: 0 <= k < |a| ==> SameMeasure(a[k], b[k])
  }

  /** Everything but the declared row count. */
  predicate SameGenerator(a: Generator, b: Generator) {
    && a.name == b.name && a.preservesInput == b.preservesInput && a.outputColumns == b.outputColumns
    && SameExprs(a.arguments, b.arguments)
  }

  predicate SameWindow(a: WindowProjection, b: WindowProjection) {
    && a.outputName == b.outputName && a.function_ == b.function_ && a.frame == b.frame
    && a.requiresOrdering == b.requiresOrdering
    && SameExprs(a.arguments, b.arguments) && SameExprs(a.partitions, b.partitions) && SameExprs(a.sorts, b.sorts)
  }

  predicate SameWindows(a: seq<WindowProjection>, b: seq<WindowProjection>) {
    |a| == |b| && forall k :: 0 <= k < |a| ==> SameWindow(a[k], b[k])
  }

  /** Whether a candidate may stand in for a node with remapped inputs. */
  predicate SameNode(a: Node, b: Node) {
    a.Inputs() == b.Inputs() && SamePayload(a, b)
  }

  predicate SamePayload(a: Node, b: Node) {
    match a
    case Read(table) => b.Read? && table == b.table
    case Filter(_, p) => b.Filter? && SameExpr(p, b.predicate_)
    case Join(_, _, kind, relation, on) =>
      b.Join? && kind == b.kind && relation == b.relationName && SameExpr(on, b.on)
    case Project(_, assignments) => b.Project? && SameAssignments(assignments, b.assignments)
    case SelectProject(_, assignments) => b.SelectProject? && SameAssignments(assignments, b.assignments)
    case GroupBy(_, keys) => b.GroupBy? && SameExprs(keys, b.keys)
    case Aggregate(_, keys, measures) =>
      b.Aggregate? && SameExprs(keys, b.keys) && SameMeasures(measures, b.measures)
    case Generate(_, g) => b.Generate? && SameGenerator(g, b.generator)
    case Window(_, projections) => b.Window? && SameWindows(projections, b.projections)
    case OrderBy(_, keys) => b.OrderBy? && SameExprs(keys, b.keys)
    case Limit(_, rows) => b.Limit? && rows == b.rows
  }

  /** What the comparison does not look at. */
  function Unseen(n: Node): (seq<string>, nat) {
    match n
    case Aggregate(_, _, measures) =>
      (seq(|measures|, k requires 0 <= k < |measures| => measures[k].suffix), 0)
    case Generate(_, g) => ([], g.rowCount)
    case _ => ([], 0)
  }

  // ----- structurally equal parts mean the same -----

  lemma SameColumn(eng: Engine, names: seq<string>, t: Table, a: ColumnExpr, b: ColumnExpr)
    requires SameExpr(a, b)
    ensures ExprColumn(eng, names, t, a) == ExprColumn(eng, names, t, b)
    ensures Resolves(names, a) <==> Resolves(names, b)
  {
    SameReferences(a, b);
    forall j | 0 <= j < t.count
      ensures EvalExpr(eng, names, RowAt(t, j), a) == EvalExpr(eng, names, RowAt(t, j), b)
    {
      SameExprMeans(eng, names, RowAt(t, j), a, b);
    }
  }

  lemma SameTuple(eng: Engine, names: seq<string>, row: Row, a: seq<ColumnExpr>, b: seq<ColumnExpr>)
    requires SameExprs(a, b)
    ensures EvalAll(eng, names, row, a) == EvalAll(eng, names, row, b)
  {
    forall k | 0 <= k < |a| ensures EvalExpr(eng, names, row, a[k]) == EvalExpr(eng, names, row, b[k]) {
      SameExprMeans(eng, names, row, a[k], b[k]);
    }
  }

  lemma SameResolve(names: seq<string>, a: seq<ColumnExpr>, b: seq<ColumnExpr>)
    requires SameExprs(a, b)
    ensures AllResolve(names, a) <==> AllResolve(names, b)
  {
    forall k | 0 <= k < |a| ensures Resolves(names, a[k]) <==> Resolves(names, b[k]) {
      SameReferences(a[k], b[k]);
    }
  }

  lemma SameRows(eng: Engine, names: seq<string>, t: Table, a: seq<ColumnExpr>, b: seq<ColumnExpr>)
    requires SameExprs(a, b)
    ensures ExprRows(eng, names, t, a) == ExprRows(eng, names, t, b)
    ensures AllResolve(names, a) <==> AllResolve(names, b)
  {
    SameResolve(names, a, b);
    forall j | 0 <= j < t.count
      ensures EvalAll(eng, names, RowAt(t, j), a) == EvalAll(eng, names, RowAt(t, j), b)
    {
      SameTuple(eng, names, RowAt(t, j), a, b);
    }
  }

  lemma SameKeys(eng: Engine, names: seq<string>, t: Table, a: seq<ColumnExpr>, b: seq<ColumnExpr>)
    requires SameExprs(a, b)
    ensures ExprColumns(eng, names, t, a) == ExprColumns(eng, names, t, b)
    ensures AllResolve(names, a) <==> AllResolve(names, b)
  {
    SameResolve(names, a, b);
    forall k | 0 <= k < |a| ensures ExprColumn(eng, names, t, a[k]) == ExprColumn(eng, names, t, b[k]) {
      SameColumn(eng, names, t, a[k], b[k]);
    }
  }

  lemma SameGroupNames(a: seq<ColumnExpr>, b: seq<ColumnExpr>)
    requires SameExprs(a, b)
    ensures GroupNames(a) == GroupNames(b)
  {
    forall k | 0 <= k < |a| ensures GroupNames(a)[k] == GroupNames(b)[k] {
      assert SameExpr(a[k], b[k]);
    }
  }

  lemma SameJoined(a: seq<ColumnExpr>, b: seq<ColumnExpr>, c: seq<ColumnExpr>, d: seq<ColumnExpr>)
    requires SameExprs(a, b) && SameExprs(c, d)
    ensures SameExprs(a + c, b + d)
  {
  }

  lemma {:induction false} SameAssign(
      eng: Engine, names: seq<string>, t: Table, a: seq<Assignment>, b: seq<Assignment>)
    requires SameAssignments(a, b) && |names| == |t.cols|
    ensures Assign(eng, names, t, a) == Assign(eng, names, t, b)
    decreases |a|
  {
    if a != [] {
      SameColumn(eng, names, t, a[0].expr, b[0].expr);
      if Resolves(names, a[0].expr) {
        SameAssign(eng, Insert(names, a[0].outputName),
                   Bind(names, t, a[0].outputName, ExprColumn(eng, names, t, a[0].expr)), a[1..], b[1..]);
      }
    }
  }

  lemma {:induction false} SameSelect(
      eng: Engine, names: seq<string>, t: Table, a: seq<Assignment>, b: seq<Assignment>)
    requires SameAssignments(a, b) && |names| == |t.cols|
    ensures Select(eng, names, t, a) == Select(eng, names, t, b)
    decreases |a|
  {
    if a != [] {
      SameColumn(eng, names, t, a[0].expr, b[0].expr);
      if Resolves(names, a[0].expr) {
        SameSelect(eng, Insert(names, a[0].outputName),
                   Bind(names, t, a[0].outputName, ExprColumn(eng, names, t, a[0].expr)), a[1..], b[1..]);
      }
    }
  }

  lemma SameAssignedNames(a: seq<Assignment>, b: seq<Assignment>)
    requires SameAssignments(a, b)
    ensures AssignedNames(a) == AssignedNames(b)
  {
  }

  // ----- measures -----

  lemma SameMeasureInputs(a: Measure, b: Measure)
    requires SameMeasure(a, b)
    ensures SameExprs(MeasureInputs(a), MeasureInputs(b))
  {
    var fa := if a.filter.Some? then [a.filter.value] else [];
    var fb := if b.filter.Some? then [b.filter.value] else [];
    SameJoined(a.arguments, b.arguments, a.ordering, b.ordering);
    SameJoined(a.arguments + a.ordering, b.arguments + b.ordering, fa, fb);
  }

  lemma SameTuples(eng: Engine, names: seq<string>, t: Table, rows: seq<nat>, a: seq<ColumnExpr>, b: seq<ColumnExpr>)
    requires SameExprs(a, b) && forall k :: 0 <= k < |rows| ==> rows[k] < t.count
    ensures seq(|rows|, k requires 0 <= k < |rows| => EvalAll(eng, names, RowAt(t, rows[k]), a))
         == seq(|rows|, k requires 0 <= k < |rows| => EvalAll(eng, names, RowAt(t, rows[k]), b))
  {
    forall k | 0 <= k < |rows|
      ensures EvalAll(eng, names, RowAt(t, rows[k]), a) == EvalAll(eng, names, RowAt(t, rows[k]), b)
    {
      SameTuple(eng, names, RowAt(t, rows[k]), a, b);
    }
  }

  lemma SameMeasureRows(eng: Engine, names: seq<string>, t: Table, a: Measure, b: Measure, members: seq<nat>)
    requires SameMeasure(a, b) && forall k :: 0 <= k < |members| ==> members[k] < t.count
    ensures MeasureRows(eng, names, t, a, members) == MeasureRows(eng, names, t, b, members)
  {
    if a.filter.Some? {
      forall k | 0 <= k < |members|
        ensures EvalExpr(eng, names, RowAt(t, members[k]), a.filter.value)
             == EvalExpr(eng, names, RowAt(t, members[k]), b.filter.value)
      {
        SameExprMeans(eng, names, RowAt(t, members[k]), a.filter.value, b.filter.value);
      }
      assert seq(|members|, k requires 0 <= k < |members| =>
               Holds(EvalExpr(eng, names, RowAt(t, members[k]), a.filter.value)))
          == seq(|members|, k requires 0 <= k < |members| =>
               Holds(EvalExpr(eng, names, RowAt(t, members[k]), b.filter.value)));
    }
  }

  lemma SameMeasureValue(eng: Engine, names: seq<string>, t: Table, a: Measure, b: Measure, members: seq<nat>)
    requires SameMeasure(a, b) && a.suffix == b.suffix && forall k :: 0 <= k < |members| ==> members[k] < t.count
    ensures MeasureValue(eng, names, t, a, members) == MeasureValue(eng, names, t, b, members)
  {
    SameMeasureRows(eng, names, t, a, b, members);
    var rows := MeasureRows(eng, names, t, a, members);
    SameTuples(eng, names, t, rows, a.arguments, b.arguments);
    SameTuples(eng, names, t, rows, a.ordering, b.ordering);
  }

  lemma SameMeasureName(a: Measure, b: Measure)
    requires SameMeasure(a, b) && a.suffix == b.suffix
    ensures MeasureName(a) == MeasureName(b)
  {
    assert a.arguments != [] ==> SameExpr(a.arguments[0], b.arguments[0]);
  }

  /** Measures that agree on everything, sketch type included. */
  predicate EqualMeasures(a: seq<Measure>, b: seq<Measure>) {
    SameMeasures(a, b) && forall k :: 0 <= k < |a| ==> a[k].suffix == b[k].suffix
  }

  lemma EqualMeasureNames(a: seq<Measure>, b: seq<Measure>)
    requires EqualMeasures(a, b)
    ensures MeasureNames(a) == MeasureNames(b)
  {
    forall k | 0 <= k < |a| ensures MeasureNames(a)[k] == MeasureNames(b)[k] {
      SameMeasureName(a[k], b[k]);
    }
  }

  lemma EqualMeasureColumns(
      eng: Engine, names: seq<string>, t: Table, a: seq<Measure>, b: seq<Measure>, groups: seq<seq<nat>>)
    requires EqualMeasures(a, b)
    requires forall g, k :: 0 <= g < |groups| && 0 <= k < |groups[g]| ==> groups[g][k] < t.count
    ensures MeasureColumns(eng, names, t, a, groups) == MeasureColumns(eng, names, t, b, groups)
  {
    forall k | 0 <= k < |a|
      ensures MeasureColumn(eng, names, t, a[k], groups) == MeasureColumn(eng, names, t, b[k], groups)
    {
      forall g | 0 <= g < |groups|
        ensures MeasureValue(eng, names, t, a[k], groups[g]) == MeasureValue(eng, names, t, b[k], groups[g])
      {
        SameMeasureValue(eng, names, t, a[k], b[k], groups[g]);
      }
    }
  }

  lemma EqualMeasuresResolve(names: seq<string>, a: seq<Measure>, b: seq<Measure>)
    requires EqualMeasures(a, b)
    ensures MeasuresResolve(names, a) <==> MeasuresResolve(names, b)
  {
    forall k | 0 <= k < |a|
      ensures AllResolve(names, MeasureInputs(a[k])) <==> AllResolve(names, MeasureInputs(b[k]))
    {
      SameMeasureInputs(a[k], b[k]);
      SameResolve(names, MeasureInputs(a[k]), MeasureInputs(b[k]));
    }
  }

  lemma EqualAggregate(eng: Engine, names: seq<string>, t: Option<Table>, keysA: seq<ColumnExpr>, a: seq<Measure>,
                       keysB: seq<ColumnExpr>, b: seq<Measure>)
    requires SameExprs(keysA, keysB) && EqualMeasures(a, b)
    ensures EvalAggregate(eng, names, t, keysA, a) == EvalAggregate(eng, names, t, keysB, b)
  {
    SameResolve(names, keysA, keysB);
    EqualMeasuresResolve(names, a, b);
    if t.Some? {
      SameKeys(eng, names, t.value, keysA, keysB);
      var keyCols := ExprColumns(eng, names, t.value, keysA);
      EqualMeasureColumns(eng, names, t.value, a, b, Groups(keyCols, t.value.count));
    }
  }

  // ----- windows and generators -----

  lemma SameWindowInputs(a: WindowProjection, b: WindowProjection)
    requires SameWindow(a, b)
    ensures SameExprs(WindowInputs(a), WindowInputs(b))
  {
    SameJoined(a.arguments, b.arguments, a.partitions, b.partitions);
    SameJoined(a.arguments + a.partitions, b.arguments + b.partitions, a.sorts, b.sorts);
  }

  lemma SameWindowNames(a: seq<WindowProjection>, b: seq<WindowProjection>)
    requires SameWindows(a, b)
    ensures WindowNames(a) == WindowNames(b)
  {
    assert forall k :: 0 <= k < |a| ==> SameWindow(a[k], b[k]);
  }

  /** Equal windows share a boundary with the same windows. */
  lemma BoundaryCarries(a0: WindowProjection, b0: WindowProjection, a: WindowProjection, b: WindowProjection)
    requires SameWindow(a0, b0) && SameWindow(a, b) && SameBoundary(a0, a)
    ensures SameBoundary(b0, b)
  {
    SharedBoundary(a0, b0, a);
    ReverseBoundary(b0, a);
    SharedBoundary(a, b0, b);
  }

  lemma ReverseBoundary(a: WindowProjection, b: WindowProjection)
    requires SameBoundary(a, b)
    ensures SameBoundary(b, a)
  {
    SameExprsItself(a.partitions);
    SameExprsItself(a.sorts);
    SharedBoundary(a, b, a);
  }

  lemma ReverseWindow(a: WindowProjection, b: WindowProjection)
    requires SameWindow(a, b)
    ensures SameWindow(b, a)
  {
    ReverseBoundary(a, b);
    SameExprsItself(a.arguments);
    SameExprsShared(a.arguments, b.arguments, a.arguments);
  }

  lemma SameWindowColumn(eng: Engine, names: seq<string>, t: Table, a: WindowProjection, b: WindowProjection)
    requires SameWindow(a, b)
    ensures WindowColumn(eng, names, t, a) == WindowColumn(eng, names, t, b)
  {
    SameWindowInputs(a, b);
    SameRows(eng, names, t, WindowInputs(a), WindowInputs(b));
  }

  lemma SameWindowTable(eng: Engine, names: seq<string>, t: Table, a: seq<WindowProjection>, b: seq<WindowProjection>)
    requires SameWindows(a, b)
    ensures WindowTable(eng, names, t, a) == WindowTable(eng, names, t, b)
  {
    forall k | 0 <= k < |a| ensures WindowColumn(eng, names, t, a[k]) == WindowColumn(eng, names, t, b[k]) {
      SameWindowColumn(eng, names, t, a[k], b[k]);
    }
    assert seq(|a|, k requires 0 <= k < |a| => WindowColumn(eng, names, t, a[k]))
        == seq(|b|, k requires 0 <= k < |b| => WindowColumn(eng, names, t, b[k]));
  }

  lemma SameGenerated(eng: Engine, names: seq<string>, t: Table, a: Generator, b: Generator)
    requires SameGenerator(a, b) && a.rowCount == b.rowCount
    ensures GenerateTable(eng, names, t, a) == GenerateTable(eng, names, t, b)
    ensures AllResolve(names, a.arguments) <==> AllResolve(names, b.arguments)
  {
    SameRows(eng, names, t, a.arguments, b.arguments);
  }

  lemma SameWindowsAccepted(names: seq<string>, a: seq<WindowProjection>, b: seq<WindowProjection>)
    requires SameWindows(a, b)
    ensures WindowsAccepted(names, a) <==> WindowsAccepted(names, b)
  {
    forall k | 0 <= k < |a|
      ensures AllResolve(names, WindowInputs(a[k])) <==> AllResolve(names, WindowInputs(b[k]))
      ensures SameBoundary(a[0], a[k]) <==> SameBoundary(b[0], b[k])
    {
      SameWindowInputs(a[k], b[k]);
      SameResolve(names, WindowInputs(a[k]), WindowInputs(b[k]));
      if SameBoundary(a[0], a[k]) {
        BoundaryCarries(a[0], b[0], a[k], b[k]);
      } else if SameBoundary(b[0], b[k]) {
        ReverseWindow(a[0], b[0]);
        ReverseWindow(a[k], b[k]);
        BoundaryCarries(b[0], a[0], b[k], a[k]);
      }
    }
  }

  // ----- one node over its input -----

  lemma SameUnary(eng: Engine, names: seq<string>, t: Option<Table>, a: Node, b: Node)
    requires IsUnary(a) && SamePayload(a, b) && Unseen(a) == Unseen(b)
    ensures IsUnary(b) && UnaryColumns(names, a) == UnaryColumns(names, b)
    ensures EvalUnary(eng, names, t, a) == EvalUnary(eng, names, t, b)
  {
    match a {
      case Filter(_, p) =>
        if t.Some? { SameColumn(eng, names, t.value, p, b.predicate_); }
      case Project(_, assignments) =>
        SameAssignedNames(assignments, b.assignments);
        if t.Some? && |names| == |t.value.cols| { SameAssign(eng, names, t.value, assignments, b.assignments); }
      case SelectProject(_, assignments) =>
        SameAssignedNames(assignments, b.assignments);
        if t.Some? && |names| == |t.value.cols| { SameSelect(eng, names, t.value, assignments, b.assignments); }
      case GroupBy(_, keys) =>
        SameGroupNames(keys, b.keys);
        if t.Some? { SameKeys(eng, names, t.value, keys, b.keys); }
      case Generate(_, g) =>
        if t.Some? { SameGenerated(eng, names, t.value, g, b.generator); }
      case Window(_, projections) =>
        SameWindowsAccepted(names, projections, b.projections);
        SameWindowNames(projections, b.projections);
        if t.Some? { SameWindowTable(eng, names, t.value, projections, b.projections); }
      case OrderBy(_, keys) =>
        if t.Some? { SameRows(eng, names, t.value, keys, b.keys); }
      case Limit(_, _) =>
    }
  }

  // ----- a faithful copy means the same -----

  /** Node i with its inputs sent through the id map. */
  function Remapped(plan: Store, v: View, i: nat): (n: Node)
    requires i < |plan| && InputsMapped(plan, v, i)
    ensures forall x :: x in n.Inputs() ==> x < |v.nodes|
  {
    var n := plan[i];
    if n.Read? then n
    else if n.Join? then
      assert n.Inputs()[0] == n.left && n.Inputs()[1] == n.right;
      Redirected(n, v.ids[n.left], v.ids[n.right])
    else
      assert n.Inputs()[0] == n.input;
      Redirected(n, v.ids[n.input], 0)
  }

  /** The node i is mapped to compares as equal to it, its inputs being the images of its inputs. */
  predicate Stands(plan: Store, v: View, i: nat)
    requires i < |plan|
  {
    Mapped(plan, v, i) && InputsMapped(plan, v, i) && SameNode(v.nodes[v.ids[i]], Remapped(plan, v, i))
  }

  predicate AllStand(plan: Store, v: View) {
    |v.ids| == |plan| && forall i: nat :: i < |plan| && Mapped(plan, v, i) ==> Stands(plan, v, i)
  }

  /** The node i is mapped to agrees with it in everything. */
  predicate Copied(plan: Store, v: View, i: nat)
    requires i < |plan|
  {
    Stands(plan, v, i) && Unseen(v.nodes[v.ids[i]]) == Unseen(plan[i])
  }

  predicate AllCopied(plan: Store, v: View) {
    |v.ids| == |plan| && forall i: nat :: i < |plan| && Mapped(plan, v, i) ==> Copied(plan, v, i)
  }

  lemma CopiedUnary(plan: Store, v: View, i: nat)
    requires i < |plan| && AllCopied(plan, v) && Mapped(plan, v, i) && !plan[i].Read? && !plan[i].Join?
    ensures plan[i].input < i && Mapped(plan, v, plan[i].input)
    ensures var n := v.nodes[v.ids[i]];
            && !n.Read? && !n.Join? && n.input == v.ids[plan[i].input] && n.input < v.ids[i]
            && SamePayload(n, Redirected(plan[i], n.input, 0))
  {
    assert Copied(plan, v, i);
    assert plan[i].Inputs()[0] == plan[i].input;
    var n := v.nodes[v.ids[i]];
    assert n.Inputs()[0] == Remapped(plan, v, i).Inputs()[0];
  }

  lemma CopiedJoin(plan: Store, v: View, i: nat)
    requires i < |plan| && AllCopied(plan, v) && Mapped(plan, v, i) && plan[i].Join?
    ensures plan[i].left < i && Mapped(plan, v, plan[i].left)
    ensures plan[i].right < i && Mapped(plan, v, plan[i].right)
    ensures var n := v.nodes[v.ids[i]];
            && n.Join? && n.left == v.ids[plan[i].left] < v.ids[i] && n.right == v.ids[plan[i].right] < v.ids[i]
            && n.kind == plan[i].kind && n.relationName == plan[i].relationName && SameExpr(n.on, plan[i].on)
  {
    assert Copied(plan, v, i);
    assert plan[i].Inputs()[0] == plan[i].left && plan[i].Inputs()[1] == plan[i].right;
    var n, m := v.nodes[v.ids[i]], Remapped(plan, v, i);
    assert n.Inputs()[0] == m.Inputs()[0] && n.Inputs()[1] == m.Inputs()[1];
  }

  lemma {:induction false} CopiedPrefix(plan: Store, v: View, i: nat)
    requires i < |plan| && AllCopied(plan, v) && Mapped(plan, v, i) && plan[i].Aggregate?
    ensures v.nodes[v.ids[i]].Aggregate?
    ensures AggregatePrefix(v.nodes, v.ids[i]) == AggregatePrefix(plan, i)
    decreases i
  {
    CopiedUnary(plan, v, i);
    var n, input := v.nodes[v.ids[i]], plan[i].input;
    assert Copied(plan, v, input);
    SameGroupNames(n.keys, plan[i].keys);
    if plan[input].GroupBy? {
      SameGroupNames(v.nodes[n.input].keys, plan[input].keys);
    } else if plan[input].Aggregate? {
      CopiedPrefix(plan, v, input);
    }
  }

  /** Every mapped node has the columns and the table of its original, on every database and backend. */
  lemma {:induction false} CopyMeans(eng: Engine, cat: Catalog, db: Database, plan: Store, v: View, i: nat)
    requires i < |plan| && AllCopied(plan, v) && Mapped(plan, v, i)
    ensures SameMeaning(eng, cat, db, plan, i, v.nodes, v.ids[i])
    decreases i
  {
    assert Copied(plan, v, i);
    match plan[i] {
      case Read(_) =>
      case Join(left, right, _, _, _) =>
        CopiedJoin(plan, v, i);
        CopyMeans(eng, cat, db, plan, v, left);
        CopyMeans(eng, cat, db, plan, v, right);
        CopiedJoinMeans(eng, cat, db, plan, v, i);
      case Aggregate(input, _, _) =>
        CopiedUnary(plan, v, i);
        CopiedSource(plan, v, i);
        CopyMeans(eng, cat, db, plan, v, AggregateSource(plan, i).0);
        CopiedAggregateMeans(eng, cat, db, plan, v, i);
      case node =>
        CopiedUnary(plan, v, i);
        CopyMeans(eng, cat, db, plan, v, node.input);
        UnaryMeaning(eng, cat, db, plan, i);
        UnaryMeaning(eng, cat, db, v.nodes, v.ids[i]);
        var names, t := Columns(cat, plan, node.input), Eval(eng, cat, db, plan, node.input);
        SameUnary(eng, names, t, v.nodes[v.ids[i]], node);
    }
  }

  lemma CopiedSource(plan: Store, v: View, i: nat)
    requires i < |plan| && AllCopied(plan, v) && Mapped(plan, v, i) && plan[i].Aggregate?
    ensures v.nodes[v.ids[i]].Aggregate?
    ensures var (source, keys) := AggregateSource(plan, i);
            var (copy, copiedKeys) := AggregateSource(v.nodes, v.ids[i]);
            Mapped(plan, v, source) && copy == v.ids[source] && SameExprs(copiedKeys, keys)
  {
    CopiedUnary(plan, v, i);
    var input := plan[i].input;
    assert Copied(plan, v, input);
    if plan[i].keys == [] && plan[input].GroupBy? {
      CopiedUnary(plan, v, input);
    }
  }

  lemma CopiedAggregateMeans(eng: Engine, cat: Catalog, db: Database, plan: Store, v: View, i: nat)
    requires i < |plan| && AllCopied(plan, v) && Mapped(plan, v, i) && plan[i].Aggregate?
    requires var source := AggregateSource(plan, i).0;
             Mapped(plan, v, source) && SameMeaning(eng, cat, db, plan, source, v.nodes, v.ids[source])
    ensures SameMeaning(eng, cat, db, plan, i, v.nodes, v.ids[i])
  {
    assert Copied(plan, v, i);
    CopiedUnary(plan, v, i);
    CopiedSource(plan, v, i);
    CopiedPrefix(plan, v, i);
    var n := v.nodes[v.ids[i]];
    UnseenMeasures(n, plan[i]);
    EqualMeasureNames(n.measures, plan[i].measures);
    var (source, keys) := AggregateSource(plan, i);
    EqualAggregate(eng, Columns(cat, plan, source), Eval(eng, cat, db, plan, source),
                   AggregateSource(v.nodes, v.ids[i]).1, n.measures, keys, plan[i].measures);
  }

  lemma UnseenMeasures(a: Node, b: Node)
    requires a.Aggregate? && b.Aggregate? && SameMeasures(a.measures, b.measures) && Unseen(a) == Unseen(b)
    ensures EqualMeasures(a.measures, b.measures)
  {
    forall k | 0 <= k < |a.measures| ensures a.measures[k].suffix == b.measures[k].suffix {
      assert Unseen(a).0[k] == Unseen(b).0[k];
    }
  }

  lemma CopiedJoinMeans(eng: Engine, cat: Catalog, db: Database, plan: Store, v: View, i: nat)
    requires i < |plan| && AllCopied(plan, v) && Mapped(plan, v, i) && plan[i].Join?
    requires plan[i].left < |plan| && Mapped(plan, v, plan[i].left) && plan[i].right < |plan|
    requires Mapped(plan, v, plan[i].right)
    requires SameMeaning(eng, cat, db, plan, plan[i].left, v.nodes, v.ids[plan[i].left])
    requires SameMeaning(eng, cat, db, plan, plan[i].right, v.nodes, v.ids[plan[i].right])
    ensures SameMeaning(eng, cat, db, plan, i, v.nodes, v.ids[i])
  {
    CopiedJoin(plan, v, i);
    var left, right := plan[i].left, plan[i].right;
    var names := Columns(cat, plan, left) + Qualify(Columns(cat, plan, right), plan[i].relationName);
    var l, r := Eval(eng, cat, db, plan, left), Eval(eng, cat, db, plan, right);
    var on, copied := plan[i].on, v.nodes[v.ids[i]].on;
    SameReferences(copied, on);
    if l.Some? && r.Some? {
      SameHits(eng, names, l.value, r.value, copied, on);
    }
  }

  lemma SameHits(eng: Engine, names: seq<string>, l: Table, r: Table, a: ColumnExpr, b: ColumnExpr)
    requires SameExpr(a, b)
    ensures Hits(eng, names, l, r, a) == Hits(eng, names, l, r, b)
  {
    forall i | 0 <= i < l.count ensures Hits(eng, names, l, r, a)[i] == Hits(eng, names, l, r, b)[i] {
      forall j | 0 <= j < r.count
        ensures EvalExpr(eng, names, RowAt(l, i) + RowAt(r, j), a)
             == EvalExpr(eng, names, RowAt(l, i) + RowAt(r, j), b)
      {
        SameExprMeans(eng, names, RowAt(l, i) + RowAt(r, j), a, b);
      }
    }
  }

  // ----- equality with itself -----

  lemma SamePayloadItself(n: Node)
    ensures SamePayload(n, n)
  {
    match n {
      case Filter(_, p) => SameExprItself(p);
      case Join(_, _, _, _, on) => SameExprItself(on);
      case Project(_, assignments) => SameAssignmentsItself(assignments);
      case SelectProject(_, assignments) => SameAssignmentsItself(assignments);
      case GroupBy(_, keys) => SameExprsItself(keys);
      case Aggregate(_, keys, measures) => SameExprsItself(keys); SameMeasuresItself(measures);
      case Generate(_, g) => SameExprsItself(g.arguments);
      case Window(_, projections) => SameWindowsItself(projections);
      case OrderBy(_, keys) => SameExprsItself(keys);
      case _ =>
    }
  }

  lemma SameAssignmentsItself(a: seq<Assignment>)
    ensures SameAssignments(a, a)
  {
    forall k | 0 <= k < |a| ensures SameExpr(a[k].expr, a[k].expr) {
      SameExprItself(a[k].expr);
    }
  }

  lemma SameMeasuresItself(a: seq<Measure>)
    ensures SameMeasures(a, a)
  {
    forall k | 0 <= k < |a| ensures SameMeasure(a[k], a[k]) {
      SameExprsItself(a[k].arguments);
      SameExprsItself(a[k].ordering);
      if a[k].filter.Some? { SameExprItself(a[k].filter.value); }
    }
  }

  lemma SameWindowsItself(a: seq<WindowProjection>)
    ensures SameWindows(a, a)
  {
    forall k | 0 <= k < |a| ensures SameWindow(a[k], a[k]) {
      SameExprsItself(a[k].arguments);
      SameExprsItself(a[k].partitions);
      SameExprsItself(a[k].sorts);
    }
  }

  lemma SameAssignmentsShared(a: seq<Assignment>, b: seq<Assignment>, c: seq<Assignment>)
    requires SameAssignments(a, b) && SameAssignments(a, c)
    ensures SameAssignments(b, c)
  {
    forall k | 0 <= k < |a| ensures SameExpr(b[k].expr, c[k].expr) {
      SameExprShared(a[k].expr, b[k].expr, c[k].expr);
    }
  }

  lemma SameMeasuresShared(a: seq<Measure>, b: seq<Measure>, c: seq<Measure>)
    requires SameMeasures(a, b) && SameMeasures(a, c)
    ensures SameMeasures(b, c)
  {
    forall k | 0 <= k < |a| ensures SameMeasure(b[k], c[k]) {
      assert SameMeasure(a[k], b[k]) && SameMeasure(a[k], c[k]);
      SameExprsShared(a[k].arguments, b[k].arguments, c[k].arguments);
      SameExprsShared(a[k].ordering, b[k].ordering, c[k].ordering);
      if a[k].filter.Some? { SameExprShared(a[k].filter.value, b[k].filter.value, c[k].filter.value); }
    }
  }

  lemma SameWindowsShared(a: seq<WindowProjection>, b: seq<WindowProjection>, c: seq<WindowProjection>)
    requires SameWindows(a, b) && SameWindows(a, c)
    ensures SameWindows(b, c)
  {
    forall k | 0 <= k < |a| ensures SameWindow(b[k], c[k]) {
      assert SameWindow(a[k], b[k]) && SameWindow(a[k], c[k]);
      SharedBoundary(a[k], b[k], c[k]);
      SameExprsShared(a[k].arguments, b[k].arguments, c[k].arguments);
    }
  }

  lemma SamePayloadShared(a: Node, b: Node, c: Node)
    requires SamePayload(a, b) && SamePayload(a, c)
    ensures SamePayload(b, c)
  {
    match a {
      case Filter(_, p) => SameExprShared(p, b.predicate_, c.predicate_);
      case Join(_, _, _, _, on) => SameExprShared(on, b.on, c.on);
      case Project(_, assignments) => SameAssignmentsShared(assignments, b.assignments, c.assignments);
      case SelectProject(_, assignments) => SameAssignmentsShared(assignments, b.assignments, c.assignments);
      case GroupBy(_, keys) => SameExprsShared(keys, b.keys, c.keys);
      case Aggregate(_, keys, measures) =>
        SameExprsShared(keys, b.keys, c.keys);
        SameMeasuresShared(measures, b.measures, c.measures);
      case Generate(_, g) => SameExprsShared(g.arguments, b.generator.arguments, c.generator.arguments);
      case Window(_, projections) => SameWindowsShared(projections, b.projections, c.projections);
      case OrderBy(_, keys) => SameExprsShared(keys, b.keys, c.keys);
      case _ =>
    }
  }

  lemma SamePayloadReversed(a: Node, b: Node)
    requires SamePayload(a, b)
    ensures SamePayload(b, a)
  {
    SamePayloadItself(a);
    SamePayloadShared(a, b, a);
  }

  /** Structurally equal all the way down: what sharing may merge. */
  predicate SameTree(plan: Store, i: nat, j: nat)
    requires i < |plan| && j < |plan|
    decreases i
  {
    var xs, ys := plan[i].Inputs(), plan[j].Inputs();
    SamePayload(plan[i], plan[j]) && |xs| == |ys| && forall k :: 0 <= k < |xs| ==> SameTree(plan, xs[k], ys[k])
  }

  /** No two nodes to be copied compare as equal all the way down and still differ in a sketch type or a row count. */
  predicate Telling(plan: Store, order: seq<nat>)
    requires forall k :: 0 <= k < |order| ==> order[k] < |plan|
  {
    forall j, k :: 0 <= j < |order| && 0 <= k < |order| && SameTree(plan, order[j], order[k]) ==>
      Unseen(plan[order[j]]) == Unseen(plan[order[k]])
  }

  /** A comparison looks through remapping. */
  lemma RemappedPayload(plan: Store, v: View, i: nat, n: Node)
    requires i < |plan| && InputsMapped(plan, v, i)
    ensures SamePayload(n, Remapped(plan, v, i)) <==> SamePayload(n, plan[i])
    ensures |Remapped(plan, v, i).Inputs()| == |plan[i].Inputs()|
    ensures forall k :: 0 <= k < |plan[i].Inputs()| ==>
      Remapped(plan, v, i).Inputs()[k] == v.ids[plan[i].Inputs()[k]]
  {
    if plan[i].Join? {
      assert plan[i].Inputs()[0] == plan[i].left && plan[i].Inputs()[1] == plan[i].right;
    } else if !plan[i].Read? {
      assert plan[i].Inputs()[0] == plan[i].input;
    }
  }

  /** Only structurally equal trees share an image. */
  lemma {:induction false} SharedImage(plan: Store, v: View, i: nat, j: nat)
    requires i < |plan| && j < |plan| && AllStand(plan, v)
    requires Mapped(plan, v, i) && Mapped(plan, v, j) && v.ids[i] == v.ids[j]
    ensures SameTree(plan, i, j)
    decreases i
  {
    assert Stands(plan, v, i) && Stands(plan, v, j);
    var n := v.nodes[v.ids[i]];
    RemappedPayload(plan, v, i, n);
    RemappedPayload(plan, v, j, n);
    SamePayloadShared(n, plan[i], plan[j]);
    var xs, ys := plan[i].Inputs(), plan[j].Inputs();
    forall k | 0 <= k < |xs| ensures SameTree(plan, xs[k], ys[k]) {
      assert n.Inputs()[k] == v.ids[xs[k]] && n.Inputs()[k] == v.ids[ys[k]];
      SharedImage(plan, v, xs[k], ys[k]);
    }
  }

  // ----- the copying loop -----

  /** A view of the target under construction, and the target ids this pass has added. */
  datatype Adoption = Adoption(view: View, adopted: seq<nat>)

  predicate InRange(plan: Store, a: Adoption) {
    && |a.view.ids| == |plan|
    && (forall i :: 0 <= i < |plan| ==> a.view.ids[i] < |a.view.nodes|)
    && (forall k :: 0 <= k < |a.adopted| ==> a.adopted[k] < |a.view.nodes|)
  }

  /** The earliest adopted node that may stand in for n. */
  function FirstSame(nodes: Store, adopted: seq<nat>, n: Node): (r: Option<nat>)
    requires forall k :: 0 <= k < |adopted| ==> adopted[k] < |nodes|
    ensures r.Some? ==> r.value in adopted && SameNode(nodes[r.value], n)
    ensures r.None? ==> forall k :: 0 <= k < |adopted| ==> !SameNode(nodes[adopted[k]], n)
  {
    if adopted == [] then None
    else
      var last := |adopted| - 1;
      var earlier := FirstSame(nodes, adopted[..last], n);
      if earlier.Some? then earlier
      else if SameNode(nodes[adopted[last]], n) then Some(adopted[last]) else None
  }

  method FindExisting(nodes: Store, adopted: seq<nat>, n: Node) returns (r: Option<nat>)
    requires forall k :: 0 <= k < |adopted| ==> adopted[k] < |nodes|
    ensures r == FirstSame(nodes, adopted, n)
  {
    for k := 0 to |adopted|
      invariant FirstSame(nodes, adopted[..k], n).None?
    {
      assert adopted[..k + 1][..k] == adopted[..k];
      if SameNode(nodes[adopted[k]], n) {
        FoundEarly(nodes, adopted, n, k + 1);
        return Some(adopted[k]);
      }
    }
    assert adopted[..|adopted|] == adopted;
    r := None;
  }

  lemma {:induction false} FoundEarly(nodes: Store, adopted: seq<nat>, n: Node, k: nat)
    requires forall j :: 0 <= j < |adopted| ==> adopted[j] < |nodes|
    requires k <= |adopted| && FirstSame(nodes, adopted[..k], n).Some?
    ensures FirstSame(nodes, adopted, n) == FirstSame(nodes, adopted[..k], n)
    decreases |adopted|
  {
    if k == |adopted| {
      assert adopted[..k] == adopted;
    } else {
      var last := |adopted| - 1;
      assert adopted[..last][..k] == adopted[..k];
      FoundEarly(nodes, adopted[..last], n, k);
    }
  }

  /** One node: reuse an equal one of this pass if sharing, otherwise append a copy. */
  function CopyStep(plan: Store, a: Adoption, i: nat, share: bool): (r: Adoption)
    requires InRange(plan, a) && i < |plan| && InputsMapped(plan, a.view, i)
    ensures InRange(plan, r) && Mapped(plan, r.view, i) && a.view.nodes <= r.view.nodes
    ensures r.view.ids == a.view.ids[i := r.view.ids[i]]
    ensures forall j: nat :: j < |plan| && j != i && Mapped(plan, r.view, j) ==> Mapped(plan, a.view, j)
  {
    var n := Remapped(plan, a.view, i);
    var found := if share then FirstSame(a.view.nodes, a.adopted, n) else None;
    match found
    case Some(same) => Adoption(View(a.view.nodes, a.view.ids[i := same]), a.adopted)
    case None =>
      var id := |a.view.nodes|;
      Adoption(View(Appended(a.view.nodes, n), a.view.ids[i := id]), a.adopted + [id])
  }

  function Copy(plan: Store, target: Store, order: seq<nat>, share: bool): (a: Adoption)
    requires Ordered(plan, order)
    ensures InRange(plan, a) && target <= a.view.nodes
    ensures forall k :: 0 <= k < |order| ==> Mapped(plan, a.view, order[k])
    ensures forall i: nat :: i < |plan| && Mapped(plan, a.view, i) ==> i in order
  {
    if order == [] then Adoption(View(target, seq(|plan|, _ => -1)), [])
    else
      var n := |order| - 1;
      OrderedFront(plan, order);
      var a := Copy(plan, target, order[..n], share);
      ReadyInputs(plan, order, a.view);
      assert order == order[..n] + [order[n]];
      CopyStep(plan, a, order[n], share)
  }

  // ----- the loop copies faithfully -----

  /** One more node of the order is one more step of the loop. */
  lemma CopyExtends(plan: Store, target: Store, order: seq<nat>, k: nat, share: bool)
    requires k < |order| && Ordered(plan, order) && Ordered(plan, order[..k])
    ensures Ordered(plan, order[..k + 1])
    ensures var a := Copy(plan, target, order[..k], share);
            InputsMapped(plan, a.view, order[k])
            && Copy(plan, target, order[..k + 1], share) == CopyStep(plan, a, order[k], share)
  {
    OrderedPrefix(plan, order, k + 1);
    assert order[..k + 1][..k] == order[..k];
    ReadyInputs(plan, order[..k + 1], Copy(plan, target, order[..k], share).view);
  }

  /** The copy of the first k nodes of an order. */
  function CopyOf(plan: Store, target: Store, order: seq<nat>, k: nat, share: bool): (a: Adoption)
    requires Ordered(plan, order) && k <= |order|
    ensures |a.view.ids| == |plan|
  {
    OrderedPrefix(plan, order, k);
    Copy(plan, target, order[..k], share)
  }

  lemma CopyOfNext(plan: Store, target: Store, order: seq<nat>, k: nat, share: bool)
    requires Ordered(plan, order) && k < |order|
    ensures var a := CopyOf(plan, target, order, k, share);
            InputsMapped(plan, a.view, order[k])
            && CopyOf(plan, target, order, k + 1, share) == CopyStep(plan, a, order[k], share)
  {
    OrderedPrefix(plan, order, k);
    CopyExtends(plan, target, order, k, share);
  }

  /** Every node this pass has added is the image of a node copied before. */
  predicate AllOwned(plan: Store, a: Adoption) {
    InRange(plan, a) && forall k :: 0 <= k < |a.adopted| ==> IsImage(a.view.ids, a.adopted[k])
  }

  predicate IsImage(ids: seq<int>, id: nat) {
    exists i :: 0 <= i < |ids| && ids[i] == id
  }

  lemma StepInputs(plan: Store, a: Adoption, i: nat, share: bool, j: nat)
    requires InRange(plan, a) && i < |plan| && InputsMapped(plan, a.view, i) && !Mapped(plan, a.view, i)
    requires j < |plan| && InputsMapped(plan, a.view, j)
    ensures InputsMapped(plan, CopyStep(plan, a, i, share).view, j)
    ensures Remapped(plan, CopyStep(plan, a, i, share).view, j) == Remapped(plan, a.view, j)
  {
    var r := CopyStep(plan, a, i, share);
    forall k | 0 <= k < |plan[j].Inputs()| ensures Mapped(plan, r.view, plan[j].Inputs()[k]) {
      assert Mapped(plan, a.view, plan[j].Inputs()[k]);
    }
    if plan[j].Join? {
      assert plan[j].Inputs()[0] == plan[j].left && plan[j].Inputs()[1] == plan[j].right;
    } else if !plan[j].Read? {
      assert plan[j].Inputs()[0] == plan[j].input;
    }
  }

  /** The image of the node just copied compares as equal to it. */
  lemma StepStands(plan: Store, a: Adoption, i: nat, share: bool)
    requires InRange(plan, a) && i < |plan| && InputsMapped(plan, a.view, i) && !Mapped(plan, a.view, i)
    ensures Stands(plan, CopyStep(plan, a, i, share).view, i)
  {
    StepInputs(plan, a, i, share, i);
    SamePayloadItself(Remapped(plan, a.view, i));
  }

  lemma StepAllStand(plan: Store, a: Adoption, i: nat, share: bool)
    requires InRange(plan, a) && i < |plan| && InputsMapped(plan, a.view, i) && !Mapped(plan, a.view, i)
    requires AllStand(plan, a.view)
    ensures AllStand(plan, CopyStep(plan, a, i, share).view)
  {
    StepStands(plan, a, i, share);
    var r := CopyStep(plan, a, i, share);
    forall j: nat | j < |plan| && Mapped(plan, r.view, j) ensures Stands(plan, r.view, j) {
      if j != i {
        assert Stands(plan, a.view, j);
        StepInputs(plan, a, i, share, j);
      }
    }
  }

  lemma StepOwned(plan: Store, a: Adoption, i: nat, share: bool)
    requires AllOwned(plan, a) && i < |plan| && InputsMapped(plan, a.view, i) && !Mapped(plan, a.view, i)
    ensures AllOwned(plan, CopyStep(plan, a, i, share))
  {
    var r := CopyStep(plan, a, i, share);
    forall k | 0 <= k < |r.adopted| ensures IsImage(r.view.ids, r.adopted[k]) {
      if k < |a.adopted| {
        assert IsImage(a.view.ids, a.adopted[k]);
        var j :| 0 <= j < |plan| && a.view.ids[j] == a.adopted[k];
        assert Mapped(plan, a.view, j);
        assert r.view.ids[j] == r.adopted[k];
      } else {
        assert r.view.ids[i] == r.adopted[k];
      }
    }
  }

  /** A stand-in hides nothing if equal trees differ in nothing. */
  lemma StepCopied(plan: Store, order: seq<nat>, a: Adoption, i: nat, share: bool)
    requires forall k :: 0 <= k < |order| ==> order[k] < |plan|
    requires AllOwned(plan, a) && i < |plan| && i in order && InputsMapped(plan, a.view, i)
    requires !Mapped(plan, a.view, i) && AllStand(plan, a.view) && AllCopied(plan, a.view)
    requires forall j: nat :: j < |plan| && Mapped(plan, a.view, j) ==> j in order
    requires share ==> Telling(plan, order)
    ensures Copied(plan, CopyStep(plan, a, i, share).view, i)
  {
    StepStands(plan, a, i, share);
    var n := Remapped(plan, a.view, i);
    var found := if share then FirstSame(a.view.nodes, a.adopted, n) else None;
    if found.Some? {
      var m :| 0 <= m < |a.adopted| && a.adopted[m] == found.value;
      assert IsImage(a.view.ids, a.adopted[m]);
      var j: nat :| j < |plan| && a.view.ids[j] == a.adopted[m];
      assert Mapped(plan, a.view, j);
      StepAllStand(plan, a, i, share);
      SharedImage(plan, CopyStep(plan, a, i, share).view, j, i);
      TellingPair(plan, order, j, i);
      assert Copied(plan, a.view, j);
    }
  }

  lemma TellingPair(plan: Store, order: seq<nat>, i: nat, j: nat)
    requires forall k :: 0 <= k < |order| ==> order[k] < |plan|
    requires Telling(plan, order) && i in order && j in order && SameTree(plan, i, j)
    ensures Unseen(plan[i]) == Unseen(plan[j])
  {
    var k :| 0 <= k < |order| && order[k] == i;
    var m :| 0 <= m < |order| && order[m] == j;
  }

  lemma StepAllCopied(plan: Store, a: Adoption, i: nat, share: bool)
    requires InRange(plan, a) && i < |plan| && InputsMapped(plan, a.view, i) && !Mapped(plan, a.view, i)
    requires AllCopied(plan, a.view) && Copied(plan, CopyStep(plan, a, i, share).view, i)
    ensures AllCopied(plan, CopyStep(plan, a, i, share).view)
  {
    var r := CopyStep(plan, a, i, share);
    forall j: nat | j < |plan| && Mapped(plan, r.view, j) ensures Copied(plan, r.view, j) {
      if j != i {
        assert Copied(plan, a.view, j);
        StepInputs(plan, a, i, share, j);
      }
    }
  }

  lemma {:induction false} PrefixStands(plan: Store, target: Store, order: seq<nat>, k: nat, share: bool)
    requires k <= |order| && Ordered(plan, order) && Ordered(plan, order[..k])
    ensures AllStand(plan, Copy(plan, target, order[..k], share).view)
    ensures AllOwned(plan, Copy(plan, target, order[..k], share))
    decreases k
  {
    if k > 0 {
      OrderedPrefix(plan, order, k - 1);
      PrefixStands(plan, target, order, k - 1, share);
      CopyExtends(plan, target, order, k - 1, share);
      var a := Copy(plan, target, order[..k - 1], share);
      assert order[k - 1] !in order[..k - 1];
      StepAllStand(plan, a, order[k - 1], share);
      StepOwned(plan, a, order[k - 1], share);
    }
  }

  lemma {:induction false} PrefixCopied(plan: Store, target: Store, order: seq<nat>, k: nat, share: bool)
    requires k <= |order| && Ordered(plan, order) && Ordered(plan, order[..k]) && (share ==> Telling(plan, order))
    ensures AllCopied(plan, Copy(plan, target, order[..k], share).view)
    decreases k
  {
    if k > 0 {
      OrderedPrefix(plan, order, k - 1);
      PrefixCopied(plan, target, order, k - 1, share);
      PrefixStands(plan, target, order, k - 1, share);
      CopyExtends(plan, target, order, k - 1, share);
      var a := Copy(plan, target, order[..k - 1], share);
      assert order[k - 1] !in order[..k - 1];
      StepCopied(plan, order, a, order[k - 1], share);
      StepAllCopied(plan, a, order[k - 1], share);
    }
  }

  // ----- what sharing merges -----

  /** Every mapped node's image is the first adopted node that compares as equal to it. */
  predicate AllFirst(plan: Store, a: Adoption) {
    InRange(plan, a) && forall i: nat :: i < |plan| && Mapped(plan, a.view, i) ==> IsFirst(plan, a, i)
  }

  predicate IsFirst(plan: Store, a: Adoption, i: nat)
    requires InRange(plan, a) && i < |plan|
  {
    && Mapped(plan, a.view, i) && InputsMapped(plan, a.view, i)
    && FirstSame(a.view.nodes, a.adopted, Remapped(plan, a.view, i)) == Some(a.view.ids[i] as nat)
  }

  lemma {:induction false} FirstSameStays(nodes: Store, more: Store, adopted: seq<nat>, n: Node)
    requires nodes <= more && forall k :: 0 <= k < |adopted| ==> adopted[k] < |nodes|
    ensures FirstSame(more, adopted, n) == FirstSame(nodes, adopted, n)
    decreases |adopted|
  {
    if adopted != [] {
      FirstSameStays(nodes, more, adopted[..|adopted| - 1], n);
    }
  }

  lemma {:induction false} FirstSameAlike(nodes: Store, adopted: seq<nat>, n: Node, m: Node)
    requires SameNode(n, m) && forall k :: 0 <= k < |adopted| ==> adopted[k] < |nodes|
    ensures FirstSame(nodes, adopted, n) == FirstSame(nodes, adopted, m)
    decreases |adopted|
  {
    if adopted != [] {
      var last := |adopted| - 1;
      FirstSameAlike(nodes, adopted[..last], n, m);
      SameNodeAlike(nodes[adopted[last]], n, m);
    }
  }

  lemma SameNodeAlike(c: Node, n: Node, m: Node)
    requires SameNode(n, m)
    ensures SameNode(c, n) <==> SameNode(c, m)
  {
    SamePayloadReversed(n, m);
    if SamePayload(c, n) {
      SamePayloadReversed(c, n);
      SamePayloadShared(n, c, m);
    } else if SamePayload(c, m) {
      SamePayloadReversed(c, m);
      SamePayloadShared(m, c, n);
    }
  }

  lemma StepFirst(plan: Store, a: Adoption, i: nat)
    requires InRange(plan, a) && i < |plan| && InputsMapped(plan, a.view, i) && !Mapped(plan, a.view, i)
    ensures IsFirst(plan, CopyStep(plan, a, i, true), i)
  {
    StepInputs(plan, a, i, true, i);
    var n, r := Remapped(plan, a.view, i), CopyStep(plan, a, i, true);
    FirstSameStays(a.view.nodes, r.view.nodes, a.adopted, n);
    SamePayloadItself(n);
    if FirstSame(a.view.nodes, a.adopted, n).None? {
      assert r.adopted[..|a.adopted|] == a.adopted;
    }
  }

  lemma StepKeepsFirst(plan: Store, a: Adoption, i: nat, j: nat)
    requires InRange(plan, a) && i < |plan| && InputsMapped(plan, a.view, i) && !Mapped(plan, a.view, i)
    requires j < |plan| && IsFirst(plan, a, j)
    ensures IsFirst(plan, CopyStep(plan, a, i, true), j)
  {
    StepInputs(plan, a, i, true, j);
    var n, r := Remapped(plan, a.view, j), CopyStep(plan, a, i, true);
    FirstSameStays(a.view.nodes, r.view.nodes, a.adopted, n);
    assert r.adopted[..|a.adopted|] == a.adopted;
    FoundEarly(r.view.nodes, r.adopted, n, |a.adopted|);
  }

  lemma {:induction false} PrefixFirst(plan: Store, target: Store, order: seq<nat>, k: nat)
    requires k <= |order| && Ordered(plan, order) && Ordered(plan, order[..k])
    ensures AllFirst(plan, Copy(plan, target, order[..k], true))
    decreases k
  {
    if k > 0 {
      OrderedPrefix(plan, order, k - 1);
      PrefixFirst(plan, target, order, k - 1);
      CopyExtends(plan, target, order, k - 1, true);
      assert order[k - 1] !in order[..k - 1];
      StepAllFirst(plan, Copy(plan, target, order[..k - 1], true), order[k - 1]);
    }
  }

  lemma StepAllFirst(plan: Store, a: Adoption, i: nat)
    requires i < |plan| && InputsMapped(plan, a.view, i) && !Mapped(plan, a.view, i) && AllFirst(plan, a)
    ensures AllFirst(plan, CopyStep(plan, a, i, true))
  {
    StepFirst(plan, a, i);
    forall j: nat | j < |plan| && Mapped(plan, CopyStep(plan, a, i, true).view, j)
      ensures IsFirst(plan, CopyStep(plan, a, i, true), j)
    {
      if j != i {
        assert IsFirst(plan, a, j);
        StepKeepsFirst(plan, a, i, j);
      }
    }
  }

  lemma {:induction false} EqualTreesShare(plan: Store, a: Adoption, i: nat, j: nat)
    requires AllFirst(plan, a) && i < |plan| && j < |plan|
    requires Mapped(plan, a.view, i) && Mapped(plan, a.view, j) && SameTree(plan, i, j)
    ensures a.view.ids[i] == a.view.ids[j]
    decreases i
  {
    assert IsFirst(plan, a, i) && IsFirst(plan, a, j);
    var xs, ys := plan[i].Inputs(), plan[j].Inputs();
    forall k | 0 <= k < |xs| ensures a.view.ids[xs[k]] == a.view.ids[ys[k]] {
      assert SameTree(plan, xs[k], ys[k]);
      EqualTreesShare(plan, a, xs[k], ys[k]);
    }
    var n, m := Remapped(plan, a.view, i), Remapped(plan, a.view, j);
    RemappedPayload(plan, a.view, i, n);
    RemappedPayload(plan, a.view, j, m);
    SamePayloadItself(n);
    SamePayloadReversed(n, plan[i]);
    SamePayloadShared(plan[i], n, plan[j]);
    RemappedPayload(plan, a.view, j, n);
    assert n.Inputs() == m.Inputs();
    FirstSameAlike(a.view.nodes, a.adopted, n, m);
  }

  /** Adoption maps two nodes to one exactly when their trees are structurally equal. */
  lemma SharesExactly(plan: Store, target: Store, order: seq<nat>, i: nat, j: nat)
    requires Ordered(plan, order) && i in order && j in order
    ensures var v := Copy(plan, target, order, true).view;
            v.ids[i] == v.ids[j] <==> SameTree(plan, i, j)
  {
    assert order[..|order|] == order;
    PrefixFirst(plan, target, order, |order|);
    PrefixStands(plan, target, order, |order|, true);
    var a := Copy(plan, target, order, true);
    assert Mapped(plan, a.view, i) && Mapped(plan, a.view, j);
    if SameTree(plan, i, j) {
      EqualTreesShare(plan, a, i, j);
    }
    if a.view.ids[i] == a.view.ids[j] {
      SharedImage(plan, a.view, i, j);
    }
  }

  /** Adoption copies every node as it is, sketch types and row counts included, exactly when no two equal trees differ
      in them. */
  lemma CopiedExactly(plan: Store, target: Store, order: seq<nat>)
    requires Ordered(plan, order)
    ensures AllCopied(plan, Copy(plan, target, order, true).view) <==> Telling(plan, order)
  {
    assert order[..|order|] == order;
    var v := Copy(plan, target, order, true).view;
    if Telling(plan, order) {
      PrefixCopied(plan, target, order, |order|, true);
    }
    if AllCopied(plan, v) {
      forall j, k | 0 <= j < |order| && 0 <= k < |order| && SameTree(plan, order[j], order[k])
        ensures Unseen(plan[order[j]]) == Unseen(plan[order[k]])
      {
        SharesExactly(plan, target, order, order[j], order[k]);
        assert Copied(plan, v, order[j]) && Copied(plan, v, order[k]);
      }
    }
  }

  // ----- copies preserve meaning -----

  /** Copying in dependency order gives every copied node an image with its columns and its table. Sharing needs that
      no two copied nodes differ only in what the comparison does not look at. */
  lemma CopyPreserves(eng: Engine, cat: Catalog, db: Database, plan: Store, target: Store, order: seq<nat>, share: bool)
    requires Ordered(plan, order) && (share ==> Telling(plan, order))
    ensures forall k :: 0 <= k < |order| ==>
      (var a := Copy(plan, target, order, share);
       Mapped(plan, a.view, order[k])
       && SameMeaning(eng, cat, db, plan, order[k], a.view.nodes, a.view.ids[order[k]]))
  {
    assert order[..|order|] == order;
    PrefixCopied(plan, target, order, |order|, share);
    var a := Copy(plan, target, order, share);
    forall k | 0 <= k < |order|
      ensures Mapped(plan, a.view, order[k])
      ensures SameMeaning(eng, cat, db, plan, order[k], a.view.nodes, a.view.ids[order[k]])
    {
      CopyMeans(eng, cat, db, plan, a.view, order[k]);
    }
  }

  /** Whatever is appended to a store, what was there keeps its columns and its table. */
  lemma PrefixMeans(eng: Engine, cat: Catalog, db: Database, before: Store, after: Store, i: nat)
    requires before <= after && i < |before|
    ensures SameMeaning(eng, cat, db, before, i, after, i)
  {
    var v := View(after, Iota(|before|));
    forall j: nat | j < |before| ensures Copied(before, v, j) {
      forall k | 0 <= k < |before[j].Inputs()| ensures Mapped(before, v, before[j].Inputs()[k]) {
      }
      if before[j].Join? {
        assert before[j].Inputs()[0] == before[j].left && before[j].Inputs()[1] == before[j].right;
      } else if !before[j].Read? {
        assert before[j].Inputs()[0] == before[j].input;
      }
      assert Remapped(before, v, j) == before[j];
      SamePayloadItself(before[j]);
    }
    CopyMeans(eng, cat, db, before, v, i);
  }

  // ----- the two uses -----

  lemma InputSmaller(plan: Store, i: nat, x: nat)
    requires i < |plan| && x in plan[i].Inputs()
    ensures x < i
  {
    var j :| 0 <= j < |plan[i].Inputs()| && plan[i].Inputs()[j] == x;
  }

  lemma ReachableOrdered(plan: Store, tip: nat)
    requires tip < |plan|
    ensures Ordered(plan, ReachableIds(plan, tip)) && tip in ReachableIds(plan, tip)
  {
    var ids := ReachableIds(plan, tip);
    assert Feeds(plan, tip, tip);
    forall k | 0 <= k < |ids| ensures InputsBefore(plan, ids, k) {
      forall x | x in plan[ids[k]].Inputs() ensures x in ids[..k] {
        FeedsInput(plan, ids[k], x, tip);
        InputSmaller(plan, ids[k], x);
        var m :| 0 <= m < |ids| && ids[m] == x;
        assert m < k;
        assert ids[..k][m] == x;
      }
    }
  }

  /** What adopting the subgraph below a tip adds to a target. */
  function AdoptedFrom(source: Store, target: Store, tip: nat): (a: Adoption)
    requires tip < |source|
    ensures Mapped(source, a.view, tip) && target <= a.view.nodes
  {
    ReachableOrdered(source, tip);
    Copy(source, target, ReachableIds(source, tip), true)
  }

  /** A rewritten view packed into dense ids. */
  function CompactedFrom(nodes: Store, root: nat): (a: Adoption)
    requires root < |nodes|
    ensures Mapped(nodes, a.view, root)
  {
    ReachableOrdered(nodes, root);
    Copy(nodes, [], ReachableIds(nodes, root), false)
  }

  /** Node shapes the store rejects and this node type can express: a nameless table, an empty window group. */
  predicate Accepted(n: Node) {
    (n.Read? ==> n.table != "") && (n.Window? ==> n.projections != [])
  }

  lemma RemappedAccepted(plan: Store, v: View, i: nat)
    requires i < |plan| && InputsMapped(plan, v, i) && Accepted(plan[i])
    ensures Accepted(Remapped(plan, v, i))
  {
  }

  /** An append-only store; node ids are positions. */
  class PrismStore {
    var nodes: Store

    ghost predicate Valid()
      reads this
    {
      forall i :: 0 <= i < |nodes| ==> Accepted(nodes[i])
    }

    constructor ()
      ensures nodes == [] && Valid()
    {
      nodes := [];
    }

    method AppendNode(n: Node) returns (id: Option<nat>)
      requires Valid() && forall x :: x in n.Inputs() ==> x < |nodes|
      modifies this
      ensures Valid()
      ensures id == if Accepted(n) then Some(|old(nodes)|) else None
      ensures nodes == if Accepted(n) then old(nodes) + [n] else old(nodes)
    {
      if !Accepted(n) {
        return None;
      }
      id := Some(|nodes|);
      nodes := Appended(nodes, n);
    }

    /** Reuses a node of this pass that compares as equal, or appends a copy. */
    method AdoptNode(plan: Store, ids: seq<int>, adopted: seq<nat>, i: nat)
      returns (newIds: seq<int>, newAdopted: seq<nat>, added: bool)
      requires Valid() && i < |plan| && Accepted(plan[i])
      requires InRange(plan, Adoption(View(nodes, ids), adopted)) && InputsMapped(plan, View(nodes, ids), i)
      modifies this
      ensures Valid() && |newAdopted| == |adopted| + if added then 1 else 0
      ensures Adoption(View(nodes, newIds), newAdopted)
           == CopyStep(plan, Adoption(View(old(nodes), ids), adopted), i, true)
    {
      var n := Remapped(plan, View(nodes, ids), i);
      RemappedAccepted(plan, View(nodes, ids), i);
      var found := FindExisting(nodes, adopted, n);
      if found.Some? {
        return ids[i := found.value], adopted, false;
      }
      var id := AppendNode(n);
      return ids[i := id.value], adopted + [id.value], true;
    }

    /** Copies what the source tip depends on, sharing equal nodes within this pass. */
    method AdoptSubgraph(source: PrismStore, tip: nat) returns (adoptedTip: nat, count: nat)
      requires Valid() && source.Valid() && source != this && tip < |source.nodes|
      modifies this
      ensures Valid()
      ensures var a := AdoptedFrom(source.nodes, old(nodes), tip);
              nodes == a.view.nodes && adoptedTip == a.view.ids[tip] && count == |a.adopted|
    {
      var plan := source.nodes;
      var order := ReachableNodeIds(plan, tip);
      ReachableOrdered(plan, tip);
      var ids := seq(|plan|, _ => -1);
      var adopted: seq<nat> := [];
      count := 0;
      for k := 0 to |order|
        invariant Valid() && count == |adopted|
        invariant Adoption(View(nodes, ids), adopted) == CopyOf(plan, old(nodes), order, k, true)
      {
        CopyOfNext(plan, old(nodes), order, k, true);
        var added;
        ids, adopted, added := AdoptNode(plan, ids, adopted, order[k]);
        if added {
          count := count + 1;
        }
      }
      assert order[..|order|] == order;
      adoptedTip := ids[tip];
    }

    /** Joins a tip of this store with a tip of this or another store. */
    method Join(tip: nat, other: PrismStore, otherTip: nat, kind: JoinKind, relation: string, on: ColumnExpr)
      returns (id: nat)
      requires Valid() && other.Valid() && tip < |nodes| && otherTip < |other.nodes|
      modifies this
      ensures Valid()
      ensures other == this ==>
        id == |old(nodes)| && nodes == old(nodes) + [Node.Join(tip, otherTip, kind, relation, on)]
      ensures other != this ==>
        var a := AdoptedFrom(other.nodes, old(nodes), otherTip);
        id == |a.view.nodes|
        && nodes == a.view.nodes + [Node.Join(tip, a.view.ids[otherTip], kind, relation, on)]
    {
      var right := otherTip;
      if other != this {
        var count;
        right, count := AdoptSubgraph(other, otherTip);
      }
      var joined := AppendNode(Node.Join(tip, right, kind, relation, on));
      id := joined.value;
    }
  }

  /** A join across stores is the join of the two authored tables, and leaves every node of the target as it was. */
  lemma CrossStoreJoin(eng: Engine, cat: Catalog, db: Database, target: Store, tip: nat, source: Store, otherTip: nat,
                       kind: JoinKind, relation: string, on: ColumnExpr)
    requires tip < |target| && otherTip < |source|
    requires Telling(source, ReachableIds(source, otherTip))
    ensures var a := AdoptedFrom(source, target, otherTip);
            var joined := Appended(a.view.nodes, Join(tip, a.view.ids[otherTip], kind, relation, on));
            var left, right := Columns(cat, target, tip), Qualify(Columns(cat, source, otherTip), relation);
            && Columns(cat, joined, |a.view.nodes|) == left + right
            && Eval(eng, cat, db, joined, |a.view.nodes|)
                 == EvalJoin(eng, left, Eval(eng, cat, db, target, tip),
                             right, Eval(eng, cat, db, source, otherTip), kind, on)
            && forall i :: 0 <= i < |target| ==> SameMeaning(eng, cat, db, target, i, joined, i)
  {
    var a := AdoptedFrom(source, target, otherTip);
    var n := Join(tip, a.view.ids[otherTip], kind, relation, on);
    AdoptionPreserves(eng, cat, db, source, target, otherTip);
    PrefixMeans(eng, cat, db, target, a.view.nodes, tip);
    JoinAppended(eng, cat, db, a.view.nodes, n);
    var joined := Appended(a.view.nodes, n);
    assert target <= joined;
    forall i | 0 <= i < |target| ensures SameMeaning(eng, cat, db, target, i, joined, i) {
      PrefixMeans(eng, cat, db, target, joined, i);
    }
  }

  lemma AdoptionPreserves(eng: Engine, cat: Catalog, db: Database, source: Store, target: Store, tip: nat)
    requires tip < |source| && Telling(source, ReachableIds(source, tip))
    ensures var v := AdoptedFrom(source, target, tip).view;
            SameMeaning(eng, cat, db, source, tip, v.nodes, v.ids[tip])
  {
    ReachableOrdered(source, tip);
    var order := ReachableIds(source, tip);
    CopyPreserves(eng, cat, db, source, target, order, true);
    var k :| 0 <= k < |order| && order[k] == tip;
  }

  lemma CompactionPreserves(eng: Engine, cat: Catalog, db: Database, nodes: Store, root: nat)
    requires root < |nodes|
    ensures var v := CompactedFrom(nodes, root).view;
            SameMeaning(eng, cat, db, nodes, root, v.nodes, v.ids[root])
  {
    ReachableOrdered(nodes, root);
    var order := ReachableIds(nodes, root);
    CopyPreserves(eng, cat, db, nodes, [], order, false);
    var k :| 0 <= k < |order| && order[k] == root;
  }

  /** Without sharing, the new ids are the positions in the order. */
  predicate Dense(order: seq<nat>, a: Adoption) {
    |a.view.nodes| == |order|
    && forall k :: 0 <= k < |order| ==> order[k] < |a.view.ids| && a.view.ids[order[k]] == k
  }

  lemma {:induction false} CompactDense(nodes: Store, order: seq<nat>, k: nat)
    requires k <= |order| && Ordered(nodes, order) && Ordered(nodes, order[..k])
    ensures Dense(order[..k], Copy(nodes, [], order[..k], false))
    decreases k
  {
    if k > 0 {
      OrderedPrefix(nodes, order, k - 1);
      CompactDense(nodes, order, k - 1);
      CopyExtends(nodes, [], order, k - 1, false);
      DenseStep(nodes, order, k, Copy(nodes, [], order[..k - 1], false));
    }
  }

  lemma DenseStep(nodes: Store, order: seq<nat>, k: nat, a: Adoption)
    requires 0 < k <= |order| && Ordered(nodes, order) && InRange(nodes, a) && Dense(order[..k - 1], a)
    requires InputsMapped(nodes, a.view, order[k - 1])
    ensures Dense(order[..k], CopyStep(nodes, a, order[k - 1], false))
  {
    var r := CopyStep(nodes, a, order[k - 1], false);
    forall j | 0 <= j < k ensures r.view.ids[order[..k][j]] == j {
      if j < k - 1 {
        assert order[..k][j] == order[..k - 1][j] < order[k - 1];
      }
    }
  }

  /** Re-packs a rewritten view: walk from the root, then copy in view order. */
  method Compact(nodes: Store, root: nat) returns (compacted: Store, newRoot: nat)
    requires root < |nodes|
    ensures var v := CompactedFrom(nodes, root).view; compacted == v.nodes && newRoot == v.ids[root]
    ensures |compacted| == |ReachableIds(nodes, root)| && ReachableIds(nodes, root)[newRoot] == root
  {
    var order := ReachableNodeIds(nodes, root);
    ReachableOrdered(nodes, root);
    var ids := seq(|nodes|, _ => -1);
    ghost var adopted: seq<nat> := [];
    compacted := [];
    for k := 0 to |order|
      invariant Ordered(nodes, order[..k])
      invariant Adoption(View(compacted, ids), adopted) == Copy(nodes, [], order[..k], false)
    {
      CopyExtends(nodes, [], order, k, false);
      var n := Remapped(nodes, View(compacted, ids), order[k]);
      ids := ids[order[k] := |compacted|];
      adopted := adopted + [|compacted|];
      compacted := Appended(compacted, n);
    }
    assert order[..|order|] == order;
    newRoot := ids[root];
    CompactDense(nodes, order, |order|);
    ghost var k :| 0 <= k < |order| && order[k] == root;
  }

  /** The rewritten view of everything a tip depends on. */
  function RewrittenFrom(plan: Store, tip: nat): (v: View)
    requires tip < |plan|
    ensures Mapped(plan, v, tip)
  {
    ReachableOrdered(plan, tip);
    Pass(plan, ReachableIds(plan, tip))
  }

  predicate SafePass(cat: Catalog, plan: Store, tip: nat)
    requires tip < |plan|
  {
    ReachableOrdered(plan, tip);
    AllSafe(cat, plan, ReachableIds(plan, tip))
  }

  /** The whole canonical pass: rewriting and then compacting keeps the columns and the table of the tip. */
  lemma CanonicalPassPreserves(eng: Engine, cat: Catalog, db: Database, plan: Store, tip: nat)
    requires tip < |plan| && SafePass(cat, plan, tip)
    ensures var v := RewrittenFrom(plan, tip);
            var c := CompactedFrom(v.nodes, v.ids[tip]).view;
            SameMeaning(eng, cat, db, plan, tip, c.nodes, c.ids[v.ids[tip]])
  {
    var order := ReachableIds(plan, tip);
    ReachableOrdered(plan, tip);
    PassPreserves(eng, cat, db, plan, order);
    var v := Pass(plan, order);
    var k :| 0 <= k < |order| && order[k] == tip;
    assert Carried(eng, cat, db, plan, v, order[k]);
    CompactionPreserves(eng, cat, db, v.nodes, v.ids[tip]);
  }

  // ----- what sharing cannot tell apart -----

  /** A backend that answers with the aggregate it was asked for. */
  function NamingEngine(eng: Engine): Engine {
    eng.(aggregate := (symbol, distinct, rows, ordering) => StrValue(symbol))
  }

  /** Measures that compare as equal are interchangeable on every backend exactly when their sketch types spell the
      same suffix, and then their default names are equal too. */
  lemma StandInExactly(eng: Engine, names: seq<string>, t: Table, a: Measure, b: Measure, members: seq<nat>)
    requires SameMeasure(a, b) && forall k :: 0 <= k < |members| ==> members[k] < t.count
    ensures MeasureValue(NamingEngine(eng), names, t, a, members)
              == MeasureValue(NamingEngine(eng), names, t, b, members)
        <==> a.suffix == b.suffix
    ensures a.suffix == b.suffix ==> MeasureValue(eng, names, t, a, members) == MeasureValue(eng, names, t, b, members)
    ensures a.alias.None? ==> (MeasureName(a) == MeasureName(b) <==> a.suffix == b.suffix)
  {
    if a.suffix == b.suffix {
      SameMeasureValue(eng, names, t, a, b, members);
      SameMeasureValue(NamingEngine(eng), names, t, a, b, members);
      SameMeasureName(a, b);
    } else {
      DifferentSuffixes(a, b);
    }
  }

  lemma DifferentSuffixes(a: Measure, b: Measure)
    requires SameMeasure(a, b) && a.suffix != b.suffix
    ensures a.kind + a.suffix != b.kind + b.suffix
    ensures a.alias.None? ==> MeasureName(a) != MeasureName(b)
  {
    if a.kind + a.suffix + [] == a.kind + b.suffix + [] {
      Cancel(a.kind, a.suffix, b.suffix, []);
    }
    assert a.kind + a.suffix + [] == a.kind + a.suffix && a.kind + b.suffix + [] == a.kind + b.suffix;
    NameAround(a);
    NameAround(b);
    assert a.arguments != [] ==> SameExpr(a.arguments[0], b.arguments[0]);
    assert NameFront(a) == NameFront(b) && NameBack(a) == NameBack(b);
    if NameFront(a) + a.suffix + NameBack(a) == NameFront(a) + b.suffix + NameBack(a) {
      Cancel(NameFront(a), a.suffix, b.suffix, NameBack(a));
    }
  }

  lemma Cancel(front: string, a: string, b: string, back: string)
    requires front + a + back == front + b + back
    ensures a == b
  {
    assert |a| == |b|;
    assert a == (front + a + back)[|front|..|front| + |a|] == (front + b + back)[|front|..|front| + |b|] == b;
  }

  lemma NameAround(m: Measure)
    ensures MeasureName(m.(alias := None)) == NameFront(m) + m.suffix + NameBack(m)
  {
    assert NameFront(m) + m.suffix + NameBack(m)
        == NameFront(m) + m.suffix + (if m.filter.Some? then "_filtered" else "")
           + (if m.ordering != [] then "_ordered" else "");
  }

  function NameFront(m: Measure): string {
    m.kind
    + (if m.arguments == [] then ""
       else (if m.isDistinct then "_distinct_" else "_") + ScalarOutputName(m.arguments[0], "expr"))
  }

  function NameBack(m: Measure): string {
    (if m.filter.Some? then "_filtered" else "") + (if m.ordering != [] then "_ordered" else "")
  }

  /** A join of two equal trees under different column names (only a sketch type can make them differ) never keeps its
      columns when it is adopted. */
  lemma TwinsLost(cat: Catalog, plan: Store, target: Store, tip: nat)
    requires tip < |plan| && plan[tip].Join? && plan[tip].relationName == ""
    requires plan[tip].left < tip && plan[tip].right < tip && SameTree(plan, plan[tip].left, plan[tip].right)
    requires var left, right := Columns(cat, plan, plan[tip].left), Columns(cat, plan, plan[tip].right);
             left != right && |left| == |right|
    ensures var v := AdoptedFrom(plan, target, tip).view;
            Columns(cat, v.nodes, v.ids[tip]) != Columns(cat, plan, tip)
  {
    var order, left, right := ReachableIds(plan, tip), plan[tip].left, plan[tip].right;
    ReachableOrdered(plan, tip);
    assert order[..|order|] == order;
    PrefixStands(plan, target, order, |order|, true);
    var v := AdoptedFrom(plan, target, tip).view;
    assert plan[tip].Inputs()[0] == left && plan[tip].Inputs()[1] == right;
    FeedsInput(plan, tip, left, tip);
    FeedsInput(plan, tip, right, tip);
    SharesExactly(plan, target, order, left, right);
    assert Stands(plan, v, tip);
    var n := v.nodes[v.ids[tip]];
    RemappedPayload(plan, v, tip, n);
    assert n.Inputs()[0] == v.ids[left] && n.Inputs()[1] == v.ids[right];
    TwiceDiffers(Columns(cat, v.nodes, n.left), Columns(cat, plan, left), Columns(cat, plan, right));
  }

  lemma TwiceDiffers(x: seq<string>, a: seq<string>, b: seq<string>)
    requires |a| == |b| && a != b
    ensures x + x != a + b
  {
    var k :| 0 <= k < |a| && a[k] != b[k];
    if |x| == |a| {
      assert (x + x)[k] == x[k] == (x + x)[|a| + k];
      assert (a + b)[k] != (a + b)[|a| + k];
    }
  }

  function Sketch(column: string, precision: ColumnExpr, suffix: string): Measure {
    Measure("hll_sketch", [Col(column), precision], false, None, [], suffix, None)
  }

  /** One table, two sketches of one of its columns, and their join. */
  function SketchJoin(table: string, first: Measure, second: Measure): Store {
    [Read(table), Aggregate(0, [], [first]), Aggregate(0, [], [second]), Join(1, 2, Inner, "", AlwaysTrue())]
  }

  lemma SketchColumns(cat: Catalog, table: string, first: Measure, second: Measure, i: nat)
    requires i == 1 || i == 2
    ensures Columns(cat, SketchJoin(table, first, second), i) == [MeasureName(if i == 1 then first else second)]
  {
    assert AggregatePrefix(SketchJoin(table, first, second), i) == [];
  }

  lemma SketchTrees(table: string, first: Measure, second: Measure)
    requires SameMeasure(first, second)
    ensures SameTree(SketchJoin(table, first, second), 1, 2)
  {
    var plan := SketchJoin(table, first, second);
    assert SameTree(plan, 0, 0);
    assert plan[1].Inputs() == [0] && plan[2].Inputs() == [0];
  }

  /** Two sketches over one column in different value domains are such twins. */
  lemma SketchesMerged(cat: Catalog, table: string, column: string, precision: ColumnExpr, suffix: string)
    requires suffix != ""
    ensures var plan := SketchJoin(table, Sketch(column, precision, ""), Sketch(column, precision, suffix));
            var v := AdoptedFrom(plan, [], 3).view;
            Columns(cat, v.nodes, v.ids[3]) != Columns(cat, plan, 3)
  {
    var first, second := Sketch(column, precision, ""), Sketch(column, precision, suffix);
    SameExprsItself(first.arguments);
    DifferentSuffixes(first, second);
    SketchColumns(cat, table, first, second, 1);
    SketchColumns(cat, table, first, second, 2);
    SketchTrees(table, first, second);
    TwinsLost(cat, SketchJoin(table, first, second), [], 3);
  }
}
