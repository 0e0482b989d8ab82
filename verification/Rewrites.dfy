/** The canonical rewrites a plan goes through before lowering (src/prism/rewrite.incn), and which of them keep its
    meaning: the rewritten view has the same columns and the same table at every node. */
module Rewrites {
  import opened Names
  import opened Tables
  import opened Expressions
  import opened Plans
  import opened Wrappers

  // ----- the rules -----

  predicate IsTrueFilter(n: Node) {
    n.Filter? && n.predicate_.node == BoolLiteral(true)
  }

  predicate SharesBoundary(left: seq<WindowProjection>, right: seq<WindowProjection>) {
    && left != [] && right != []
    && (forall k :: 0 <= k < |left| ==> SameBoundary(left[0], left[k]))
    && (forall k :: 0 <= k < |right| ==> SameBoundary(left[0], right[k]))
  }

  function Min(a: nat, b: nat): nat {
    if a < b then a else b
  }

  function Redirected(n: Node, left: nat, right: nat): Node {
    match n
    case Read(table) => n
    case Filter(_, p) => Filter(left, p)
    case Join(_, _, kind, relation, on) => Join(left, right, kind, relation, on)
    case Project(_, assignments) => Project(left, assignments)
    case SelectProject(_, assignments) => SelectProject(left, assignments)
    case GroupBy(_, keys) => GroupBy(left, keys)
    case Aggregate(_, keys, measures) => Aggregate(left, keys, measures)
    case Generate(_, g) => Generate(left, g)
    case Window(_, projections) => Window(left, projections)
    case OrderBy(_, keys) => OrderBy(left, keys)
    case Limit(_, rows) => Limit(left, rows)
  }

  /** The node appended for `n` when its rewritten input is `parent`, at position `left`. */
  function Collapsed(n: Node, parent: Node, left: nat, right: nat): Node {
    if n.Limit? && parent.Limit? then Limit(parent.input, Min(parent.rows, n.rows))
    else if n.Project? && parent.Project? then Project(parent.input, parent.assignments + n.assignments)
    else if n.Aggregate? && parent.Aggregate? then
      Aggregate(parent.input, parent.keys, parent.measures + n.measures)
    else if n.Aggregate? && parent.GroupBy? then Aggregate(parent.input, parent.keys, n.measures)
    else if n.OrderBy? && parent.OrderBy? then OrderBy(parent.input, n.keys)
    else if n.Window? && parent.Window? && SharesBoundary(parent.projections, n.projections) then
      Window(parent.input, parent.projections + n.projections)
    else Redirected(n, left, right)
  }

  // ----- the pass -----

  /** Rewritten nodes, and each authored node's rewritten id (-1 while unmapped). */
  datatype View = View(nodes: Store, ids: seq<int>)

  predicate Mapped(plan: Store, v: View, i: nat) {
    |v.ids| == |plan| && i < |plan| && 0 <= v.ids[i] < |v.nodes|
  }

  predicate InputsMapped(plan: Store, v: View, i: nat)
    requires i < |plan|
  {
    forall k :: 0 <= k < |plan[i].Inputs()| ==> Mapped(plan, v, plan[i].Inputs()[k])
  }

  /** Dependency order: ascending, and closed under inputs. */
  predicate Ordered(plan: Store, order: seq<nat>) {
    && (forall k :: 0 <= k < |order| ==> order[k] < |plan|)
    && (forall j, k :: 0 <= j < k < |order| ==> order[j] < order[k])
    && (forall k {:trigger InputsBefore(plan, order, k)} :: 0 <= k < |order| ==> InputsBefore(plan, order, k))
  }

  predicate InputsBefore(plan: Store, order: seq<nat>, k: nat)
    requires k < |order| && order[k] < |plan|
  {
    forall x :: x in plan[order[k]].Inputs() ==> x in order[..k]
  }

  function Appended(rw: Store, n: Node): (r: Store)
    requires forall x :: x in n.Inputs() ==> x < |rw|
    ensures r == rw + [n]
  {
    assert Acyclic(rw + [n]) by {
      forall i, k | 0 <= i < |rw + [n]| && 0 <= k < |(rw + [n])[i].Inputs()| ensures (rw + [n])[i].Inputs()[k] < i {
        assert i == |rw| ==> n.Inputs()[k] in n.Inputs();
      }
    }
    rw + [n]
  }

  function RewrittenNode(plan: Store, v: View, i: nat): (n: Node)
    requires |v.ids| == |plan| && i < |plan| && InputsMapped(plan, v, i)
    ensures forall x :: x in n.Inputs() ==> x < |v.nodes|
  {
    var n := plan[i];
    if n.Read? then n
    else
      assert n.Inputs()[0] == if n.Join? then n.left else n.input;
      if n.Join? then
        assert n.Inputs()[1] == n.right;
        Redirected(n, v.ids[n.left], v.ids[n.right])
      else
        var parent := v.nodes[v.ids[n.input]];
        assert !parent.Read? && !parent.Join? ==> parent.Inputs()[0] == parent.input;
        Collapsed(n, parent, v.ids[n.input], 0)
  }

  function RewriteStep(plan: Store, v: View, i: nat): (r: View)
    requires |v.ids| == |plan| && i < |plan| && InputsMapped(plan, v, i)
    ensures |r.ids| == |plan| && Mapped(plan, r, i) && forall j :: Mapped(plan, v, j) ==> Mapped(plan, r, j)
  {
    if IsTrueFilter(plan[i]) then
      assert plan[i].Inputs()[0] == plan[i].input;
      assert Mapped(plan, v, plan[i].input);
      View(v.nodes, v.ids[i := v.ids[plan[i].input]])
    else View(Appended(v.nodes, RewrittenNode(plan, v, i)), v.ids[i := |v.nodes|])
  }

  function Pass(plan: Store, order: seq<nat>): (v: View)
    requires Ordered(plan, order)
    ensures |v.ids| == |plan| && forall k :: 0 <= k < |order| ==> Mapped(plan, v, order[k])
  {
    if order == [] then View([], seq(|plan|, _ => -1))
    else
      var n := |order| - 1;
      OrderedFront(plan, order);
      var v := Pass(plan, order[..n]);
      ReadyInputs(plan, order, v);
      RewriteStep(plan, v, order[n])
  }

  lemma OrderedFront(plan: Store, order: seq<nat>)
    requires order != [] && Ordered(plan, order)
    ensures Ordered(plan, order[..|order| - 1])
  {
    OrderedPrefix(plan, order, |order| - 1);
  }

  lemma ReadyInputs(plan: Store, order: seq<nat>, v: View)
    requires order != [] && Ordered(plan, order)
    requires forall k :: 0 <= k < |order| - 1 ==> Mapped(plan, v, order[k])
    requires |v.ids| == |plan|
    ensures InputsMapped(plan, v, order[|order| - 1])
  {
    var n := |order| - 1;
    assert InputsBefore(plan, order, n);
    forall k | 0 <= k < |plan[order[n]].Inputs()| ensures Mapped(plan, v, plan[order[n]].Inputs()[k]) {
      var x := plan[order[n]].Inputs()[k];
      assert x in order[..n];
      var j :| 0 <= j < n && order[..n][j] == x;
      assert Mapped(plan, v, order[j]);
    }
  }

  /** One more node of the order is one more step of the pass. */
  lemma PassExtends(plan: Store, order: seq<nat>, k: nat)
    requires k < |order| && Ordered(plan, order) && Ordered(plan, order[..k])
    ensures Ordered(plan, order[..k + 1])
    ensures InputsMapped(plan, Pass(plan, order[..k]), order[k])
    ensures Pass(plan, order[..k + 1]) == RewriteStep(plan, Pass(plan, order[..k]), order[k])
  {
    OrderedPrefix(plan, order, k + 1);
    assert order[..k + 1][..k] == order[..k];
    ReadyInputs(plan, order[..k + 1], Pass(plan, order[..k]));
  }

  /** The loop over authored nodes in dependency order. */
  method Rewrite(plan: Store, order: seq<nat>) returns (v: View)
    requires Ordered(plan, order)
    ensures v == Pass(plan, order)
  {
    v := View([], seq(|plan|, _ => -1));
    for k := 0 to |order|
      invariant Ordered(plan, order[..k]) && v == Pass(plan, order[..k])
    {
      PassExtends(plan, order, k);
      var i := order[k];
      if IsTrueFilter(plan[i]) {
        assert plan[i].Inputs()[0] == plan[i].input;
        v := View(v.nodes, v.ids[i := v.ids[plan[i].input]]);
      } else {
        v := View(Appended(v.nodes, RewrittenNode(plan, v, i)), v.ids[i := |v.nodes|]);
      }
    }
    assert order[..|order|] == order;
  }

  lemma OrderedPrefix(plan: Store, order: seq<nat>, k: nat)
    requires Ordered(plan, order) && k <= |order|
    ensures Ordered(plan, order[..k])
  {
    var front := order[..k];
    forall j | 0 <= j < |front| ensures InputsBefore(plan, front, j) {
      assert InputsBefore(plan, order, j);
      assert front[..j] == order[..j];
    }
  }

  // ----- appending keeps what is there -----

  lemma {:induction false} PrefixStays(rw: Store, n: Node, i: nat)
    requires i < |rw| && rw[i].Aggregate? && Acyclic(rw + [n])
    ensures AggregatePrefix(rw + [n], i) == AggregatePrefix(rw, i)
    decreases i
  {
    assert rw[i].Inputs()[0] == rw[i].input;
    if rw[i].keys == [] && rw[rw[i].input].Aggregate? {
      PrefixStays(rw, n, rw[i].input);
    }
  }

  lemma {:induction false} ColumnsStay(cat: Catalog, rw: Store, n: Node, i: nat)
    requires i < |rw| && Acyclic(rw + [n])
    ensures Columns(cat, rw + [n], i) == Columns(cat, rw, i)
    decreases i
  {
    match rw[i] {
      case Read(_) =>
      case Join(left, right, _, _, _) =>
        assert rw[i].Inputs()[0] == left && rw[i].Inputs()[1] == right;
        ColumnsStay(cat, rw, n, left);
        ColumnsStay(cat, rw, n, right);
      case Aggregate(_, _, _) => PrefixStays(rw, n, i);
      case node =>
        assert rw[i].Inputs()[0] == node.input;
        ColumnsStay(cat, rw, n, node.input);
    }
  }

  lemma {:induction false} EvalStays(eng: Engine, cat: Catalog, db: Database, rw: Store, n: Node, i: nat)
    requires i < |rw| && Acyclic(rw + [n])
    ensures Eval(eng, cat, db, rw + [n], i) == Eval(eng, cat, db, rw, i)
    decreases i
  {
    match rw[i] {
      case Read(_) =>
      case Join(left, right, _, _, _) =>
        assert rw[i].Inputs()[0] == left && rw[i].Inputs()[1] == right;
        ColumnsStay(cat, rw, n, left);
        ColumnsStay(cat, rw, n, right);
        EvalStays(eng, cat, db, rw, n, left);
        EvalStays(eng, cat, db, rw, n, right);
      case Aggregate(_, _, _) =>
        assert rw[i].Inputs()[0] == rw[i].input;
        var source := AggregateSource(rw, i).0;
        assert AggregateSource(rw + [n], i) == AggregateSource(rw, i);
        ColumnsStay(cat, rw, n, source);
        EvalStays(eng, cat, db, rw, n, source);
      case node =>
        assert rw[i].Inputs()[0] == node.input;
        ColumnsStay(cat, rw, n, node.input);
        EvalStays(eng, cat, db, rw, n, node.input);
    }
  }

  // ----- what one node means over its input -----

  predicate IsUnary(n: Node) {
    !n.Read? && !n.Join? && !n.Aggregate?
  }

  function UnaryColumns(names: seq<string>, n: Node): seq<string>
    requires IsUnary(n)
  {
    match n
    case Project(_, assignments) => InsertAll(names, AssignedNames(assignments))
    case SelectProject(_, assignments) => AssignedNames(assignments)
    case GroupBy(_, keys) => GroupNames(keys)
    case Generate(_, g) => (if g.preservesInput then names else []) + g.outputColumns
    case Window(_, projections) => names + WindowNames(projections)
    case _ => names
  }

  lemma UnaryMeaning(eng: Engine, cat: Catalog, db: Database, plan: Store, i: nat)
    requires i < |plan| && IsUnary(plan[i])
    ensures plan[i].input < i
    ensures Columns(cat, plan, i) == UnaryColumns(Columns(cat, plan, plan[i].input), plan[i])
    ensures Eval(eng, cat, db, plan, i)
         == EvalUnary(eng, Columns(cat, plan, plan[i].input), Eval(eng, cat, db, plan, plan[i].input), plan[i])
  {
    assert plan[i].Inputs()[0] == plan[i].input;
  }

  /** The input id plays no part in what a unary node does. */
  lemma RedirectedUnary(eng: Engine, names: seq<string>, t: Option<Table>, n: Node, left: nat)
    requires IsUnary(n)
    ensures UnaryColumns(names, Redirected(n, left, 0)) == UnaryColumns(names, n)
    ensures EvalUnary(eng, names, t, Redirected(n, left, 0)) == EvalUnary(eng, names, t, n)
  {
  }

  // ----- the algebra behind each rule -----

  lemma TrueFilterIdle(eng: Engine, names: seq<string>, t: Option<Table>, n: Node)
    requires IsTrueFilter(n)
    ensures EvalUnary(eng, names, t, n) == t
  {
    if t.Some? {
      var col := ExprColumn(eng, names, t.value, n.predicate_);
      assert forall j :: 0 <= j < |col| ==> col[j] == BoolValue(true);
      AllKept(Flags(col));
      GatherAll(t.value);
    }
  }

  lemma {:induction false} AllKept(flags: seq<bool>)
    requires forall j :: 0 <= j < |flags| ==> flags[j]
    ensures Kept(flags) == Iota(|flags|)
    decreases |flags|
  {
    if flags != [] {
      AllKept(flags[..|flags| - 1]);
    }
  }

  lemma GatherAll(t: Table)
    ensures Gather(t, Iota(t.count)) == t
  {
    forall c | 0 <= c < |t.cols| ensures Pick(t.cols[c], Iota(t.count)) == t.cols[c] {
    }
  }

  lemma TakeTwice(t: Table, a: nat, b: nat)
    ensures Take(Take(t, a), b) == Take(t, Min(a, b))
  {
    var twice, once := Take(Take(t, a), b), Take(t, Min(a, b));
    forall c | 0 <= c < |t.cols| ensures twice.cols[c] == once.cols[c] {
    }
  }

  lemma LimitTwice(eng: Engine, names: seq<string>, t: Option<Table>, outer: Node, inner: Node)
    requires outer.Limit? && inner.Limit?
    ensures EvalUnary(eng, names, EvalUnary(eng, names, t, inner), outer)
         == EvalUnary(eng, names, t, Limit(inner.input, Min(inner.rows, outer.rows)))
  {
    if t.Some? {
      TakeTwice(t.value, inner.rows, outer.rows);
    }
  }

  lemma AssignedNamesAppend(a: seq<Assignment>, b: seq<Assignment>)
    ensures AssignedNames(a + b) == AssignedNames(a) + AssignedNames(b)
  {
  }

  lemma {:induction false} AssignAppend(
      eng: Engine, names: seq<string>, t: Table, a: seq<Assignment>, b: seq<Assignment>)
    requires |names| == |t.cols|
    ensures var first := Assign(eng, names, t, a);
            Assign(eng, names, t, a + b)
              == if first.None? then None else Assign(eng, InsertAll(names, AssignedNames(a)), first.value, b)
    decreases |a|
  {
    if a == [] {
      assert a + b == b;
    } else {
      assert (a + b)[0] == a[0] && (a + b)[1..] == a[1..] + b;
      assert AssignedNames(a)[1..] == AssignedNames(a[1..]);
      if Resolves(names, a[0].expr) {
        AssignAppend(eng, Insert(names, a[0].outputName),
                     Bind(names, t, a[0].outputName, ExprColumn(eng, names, t, a[0].expr)), a[1..], b);
      }
    }
  }

  lemma ProjectTwice(eng: Engine, names: seq<string>, t: Option<Table>, outer: Node, inner: Node)
    requires outer.Project? && inner.Project?
    ensures UnaryColumns(UnaryColumns(names, inner), outer)
         == UnaryColumns(names, Project(inner.input, inner.assignments + outer.assignments))
    ensures EvalUnary(eng, UnaryColumns(names, inner), EvalUnary(eng, names, t, inner), outer)
         == EvalUnary(eng, names, t, Project(inner.input, inner.assignments + outer.assignments))
  {
    AssignedNamesAppend(inner.assignments, outer.assignments);
    InsertAllAppend(names, AssignedNames(inner.assignments), AssignedNames(outer.assignments));
    if t.Some? && |names| == |t.value.cols| {
      AssignAppend(eng, names, t.value, inner.assignments, outer.assignments);
    }
  }

  /** No projection reads a column that only the earlier windows add. */
  predicate Independent(names: seq<string>, earlier: seq<WindowProjection>, later: seq<WindowProjection>) {
    forall k, x :: 0 <= k < |later| && x in AllReferences(WindowInputs(later[k])) && x in WindowNames(earlier) ==>
      x in names
  }

  lemma IndependentLookup(names: seq<string>, earlier: seq<string>, row: Row, more: Row, x: string)
    requires |row| == |names| && |more| == |earlier| && (x in earlier ==> x in names)
    ensures Lookup(names + earlier, row + more, x) == Lookup(names, row, x)
    ensures x in names + earlier <==> x in names
  {
    FirstIndexAppend(names, earlier, x);
  }

  lemma IndependentInputs(
      eng: Engine, names: seq<string>, t: Table, earlier: seq<WindowProjection>, es: seq<ColumnExpr>)
    requires |names| == |t.cols|
    requires forall x :: x in AllReferences(es) && x in WindowNames(earlier) ==> x in names
    ensures ExprRows(eng, names + WindowNames(earlier), WindowTable(eng, names, t, earlier), es)
         == ExprRows(eng, names, t, es)
    ensures AllResolve(names + WindowNames(earlier), es) <==> AllResolve(names, es)
  {
    var wide, w := WindowNames(earlier), WindowTable(eng, names, t, earlier);
    forall k | 0 <= k < |es| ensures Resolves(names + wide, es[k]) <==> Resolves(names, es[k]) {
      assert References(es[k]) <= AllReferences(es);
    }
    forall j | 0 <= j < t.count
      ensures EvalAll(eng, names + wide, RowAt(w, j), es) == EvalAll(eng, names, RowAt(t, j), es)
    {
      forall k | 0 <= k < |es|
        ensures EvalExpr(eng, names + wide, RowAt(w, j), es[k]) == EvalExpr(eng, names, RowAt(t, j), es[k])
      {
        IndependentValue(eng, names, t, earlier, es, j, k);
      }
    }
  }

  lemma IndependentValue(
      eng: Engine, names: seq<string>, t: Table, earlier: seq<WindowProjection>, es: seq<ColumnExpr>, j: nat, k: nat)
    requires |names| == |t.cols| && j < t.count && k < |es|
    requires forall x :: x in AllReferences(es) && x in WindowNames(earlier) ==> x in names
    ensures EvalExpr(eng, names + WindowNames(earlier), RowAt(WindowTable(eng, names, t, earlier), j), es[k])
         == EvalExpr(eng, names, RowAt(t, j), es[k])
  {
    var wide, w := WindowNames(earlier), WindowTable(eng, names, t, earlier);
    var row := RowAt(w, j);
    var more := row[|names|..];
    assert row[..|names|] == RowAt(t, j);
    assert row == RowAt(t, j) + more;
    assert References(es[k]) <= AllReferences(es);
    forall x | x in References(es[k]) ensures Lookup(names + wide, row, x) == Lookup(names, RowAt(t, j), x) {
      IndependentLookup(names, wide, RowAt(t, j), more, x);
    }
    EvalDependsOnReferences(eng, names + wide, row, names, RowAt(t, j), es[k]);
  }

  lemma SharedAccepted(names: seq<string>, earlier: seq<WindowProjection>, later: seq<WindowProjection>)
    requires SharesBoundary(earlier, later)
    requires forall k :: 0 <= k < |later| ==>
      (AllResolve(names + WindowNames(earlier), WindowInputs(later[k])) <==> AllResolve(names, WindowInputs(later[k])))
    ensures WindowsAccepted(names, earlier + later)
        <==> WindowsAccepted(names, earlier) && WindowsAccepted(names + WindowNames(earlier), later)
  {
    var all := earlier + later;
    assert forall k :: 0 <= k < |earlier| ==> earlier[k] == all[k];
    assert forall k :: 0 <= k < |later| ==> later[k] == all[|earlier| + k];
    forall k | 0 <= k < |later| ensures SameBoundary(later[0], later[k]) {
      SharedBoundary(earlier[0], later[0], later[k]);
    }
  }

  lemma SharedBoundary(a: WindowProjection, b: WindowProjection, c: WindowProjection)
    requires SameBoundary(a, b) && SameBoundary(a, c)
    ensures SameBoundary(b, c)
  {
    SameExprsShared(a.partitions, b.partitions, c.partitions);
    SameExprsShared(a.sorts, b.sorts, c.sorts);
  }

  lemma WindowTableTwice(
      eng: Engine, names: seq<string>, t: Table, earlier: seq<WindowProjection>, later: seq<WindowProjection>)
    requires |names| == |t.cols| && Independent(names, earlier, later)
    ensures WindowTable(eng, names + WindowNames(earlier), WindowTable(eng, names, t, earlier), later)
         == WindowTable(eng, names, t, earlier + later)
  {
    var wide, w := names + WindowNames(earlier), WindowTable(eng, names, t, earlier);
    forall k | 0 <= k < |later| ensures WindowColumn(eng, wide, w, later[k]) == WindowColumn(eng, names, t, later[k]) {
      IndependentInputs(eng, names, t, earlier, WindowInputs(later[k]));
    }
    assert WindowTable(eng, wide, w, later).cols == WindowTable(eng, names, t, earlier + later).cols;
  }

  lemma WindowTwice(eng: Engine, names: seq<string>, t: Option<Table>, outer: Node, inner: Node)
    requires outer.Window? && inner.Window? && SharesBoundary(inner.projections, outer.projections)
    requires Independent(names, inner.projections, outer.projections)
    requires t.Some? ==> |t.value.cols| == |names|
    ensures var merged := Window(inner.input, inner.projections + outer.projections);
            && UnaryColumns(UnaryColumns(names, inner), outer) == UnaryColumns(names, merged)
            && EvalUnary(eng, UnaryColumns(names, inner), EvalUnary(eng, names, t, inner), outer)
                 == EvalUnary(eng, names, t, merged)
  {
    var earlier, later := inner.projections, outer.projections;
    assert WindowNames(earlier + later) == WindowNames(earlier) + WindowNames(later);
    if t.Some? {
      forall k | 0 <= k < |later|
        ensures AllResolve(names + WindowNames(earlier), WindowInputs(later[k]))
            <==> AllResolve(names, WindowInputs(later[k]))
      {
        IndependentInputs(eng, names, t.value, earlier, WindowInputs(later[k]));
      }
      SharedAccepted(names, earlier, later);
      WindowTableTwice(eng, names, t.value, earlier, later);
    }
  }

  /** Merging may only be wrong where the authored windows have a result; there they must not read each other. */
  predicate WindowsMergeable(names: seq<string>, earlier: seq<WindowProjection>, later: seq<WindowProjection>) {
    WindowsAccepted(names, earlier) && WindowsAccepted(names + WindowNames(earlier), later) ==>
      Independent(names, earlier, later)
  }

  lemma MergedAccepted(names: seq<string>, earlier: seq<WindowProjection>, later: seq<WindowProjection>)
    requires SharesBoundary(earlier, later) && WindowsAccepted(names, earlier + later)
    ensures WindowsAccepted(names, earlier) && WindowsAccepted(names + WindowNames(earlier), later)
    ensures Independent(names, earlier, later)
  {
    var all := earlier + later;
    assert forall k :: 0 <= k < |earlier| ==> earlier[k] == all[k];
    forall k | 0 <= k < |later|
      ensures AllResolve(names, WindowInputs(later[k])) && AllResolve(names + WindowNames(earlier), WindowInputs(later[k]))
      ensures later[k].requiresOrdering ==> later[k].sorts != []
    {
      assert later[k] == all[|earlier| + k];
    }
    forall k | 0 <= k < |later| ensures SameBoundary(later[0], later[k]) {
      SharedBoundary(earlier[0], later[0], later[k]);
    }
    forall k, x | 0 <= k < |later| && x in AllReferences(WindowInputs(later[k])) ensures x in names {
      ResolvedName(names, WindowInputs(later[k]), x);
    }
  }

  lemma ResolvedName(names: seq<string>, es: seq<ColumnExpr>, x: string)
    requires x in AllReferences(es) && AllResolve(names, es)
    ensures x in names
  {
    var k :| 0 <= k < |es| && x in References(es[k]);
    assert Resolves(names, es[k]);
  }

  lemma WindowsMerged(eng: Engine, names: seq<string>, t: Option<Table>, outer: Node, inner: Node)
    requires outer.Window? && inner.Window? && SharesBoundary(inner.projections, outer.projections)
    requires WindowsMergeable(names, inner.projections, outer.projections)
    requires t.Some? ==> |t.value.cols| == |names|
    ensures var merged := Window(inner.input, inner.projections + outer.projections);
            && UnaryColumns(UnaryColumns(names, inner), outer) == UnaryColumns(names, merged)
            && EvalUnary(eng, UnaryColumns(names, inner), EvalUnary(eng, names, t, inner), outer)
                 == EvalUnary(eng, names, t, merged)
  {
    var earlier, later := inner.projections, outer.projections;
    if Independent(names, earlier, later) {
      WindowTwice(eng, names, t, outer, inner);
    } else {
      assert WindowNames(earlier + later) == WindowNames(earlier) + WindowNames(later);
      if WindowsAccepted(names, earlier + later) {
        MergedAccepted(names, earlier, later);
      }
    }
  }

  // ----- replaced orderings -----

  /** Keys an ordering accepts. */
  predicate Orderable(names: seq<string>, keys: seq<ColumnExpr>) {
    keys != [] && AllResolve(names, keys)
  }

  /** The earlier ordering leaves no trace: the later one is refused anyway, or there is no column to tell rows apart
      and the earlier one is not refused. */
  predicate OrderForgotten(names: seq<string>, earlier: seq<ColumnExpr>, later: seq<ColumnExpr>) {
    Orderable(names, later) ==> names == [] && Orderable(names, earlier)
  }

  lemma OrderReplaced(eng: Engine, names: seq<string>, t: Option<Table>, outer: Node, inner: Node)
    requires outer.OrderBy? && inner.OrderBy? && OrderForgotten(names, inner.keys, outer.keys)
    requires t.Some? ==> |t.value.cols| == |names|
    ensures EvalUnary(eng, names, EvalUnary(eng, names, t, inner), outer)
         == EvalUnary(eng, names, t, OrderBy(inner.input, outer.keys))
  {
    if t.Some? && names == [] {
      assert forall r: Table :: |r.cols| == 0 && r.count == t.value.count ==> r == t.value;
    }
  }

  // ----- one step of the pass -----

  predicate SameMeaning(eng: Engine, cat: Catalog, db: Database, plan: Store, i: nat, rw: Store, p: nat)
    requires i < |plan| && p < |rw|
  {
    Columns(cat, rw, p) == Columns(cat, plan, i) && Eval(eng, cat, db, rw, p) == Eval(eng, cat, db, plan, i)
  }

  /** Which rule applications keep the meaning. An aggregate must not merge into another, and may fuse with a grouping
      only if it stands on it directly; a replaced ordering must leave no trace; merged windows must not read each
      other. Everything else is safe. */
  predicate SafeStep(cat: Catalog, plan: Store, v: View, i: nat)
    requires |v.ids| == |plan| && i < |plan| && InputsMapped(plan, v, i)
  {
    var n := plan[i];
    if n.Read? || n.Join? then true
    else
      assert n.Inputs()[0] == n.input;
      var parent := v.nodes[v.ids[n.input]];
      if n.Aggregate? then
        !parent.Aggregate? && (parent.GroupBy? ==> SafeFusion(v.nodes, n, plan[n.input], parent))
      else if n.OrderBy? && parent.OrderBy? then
        assert parent.Inputs()[0] == parent.input;
        OrderForgotten(Columns(cat, v.nodes, parent.input), parent.keys, n.keys)
      else if n.Window? && parent.Window? && SharesBoundary(parent.projections, n.projections) then
        assert parent.Inputs()[0] == parent.input;
        WindowsMergeable(Columns(cat, v.nodes, parent.input), parent.projections, n.projections)
      else true
  }

  predicate SafeFusion(rw: Store, n: Node, authored: Node, parent: Node)
    requires n.Aggregate? && parent.GroupBy?
  {
    && authored.GroupBy? && n.keys == []
    && (parent.keys != []
        || (parent.input < |rw| && !rw[parent.input].GroupBy? && InheritsNothing(rw, parent.input)))
  }

  /** An aggregate without keys of its own gets no grouping names from node i. */
  predicate InheritsNothing(rw: Store, i: nat)
    requires i < |rw|
  {
    rw[i].Aggregate? ==> AggregatePrefix(rw, i) == []
  }

  /** Grouping and aggregate nodes keep their kind. */
  predicate KindKept(plan: Store, v: View, i: nat)
    requires Mapped(plan, v, i)
  {
    && (plan[i].Aggregate? ==> v.nodes[v.ids[i]].Aggregate?)
    && (plan[i].GroupBy? ==>
          (assert plan[i].Inputs()[0] == plan[i].input;
           v.nodes[v.ids[i]].GroupBy? && v.nodes[v.ids[i]].keys == plan[i].keys
           && v.nodes[v.ids[i]].input == v.ids[plan[i].input]))
  }

  lemma UnaryAppended(eng: Engine, cat: Catalog, db: Database, rw: Store, n: Node)
    requires IsUnary(n) && n.input < |rw|
    ensures n.Inputs() == [n.input]
    ensures var next := Appended(rw, n);
            var names, t := Columns(cat, rw, n.input), Eval(eng, cat, db, rw, n.input);
            && Columns(cat, next, |rw|) == UnaryColumns(names, n)
            && Eval(eng, cat, db, next, |rw|) == EvalUnary(eng, names, t, n)
  {
    assert n.Inputs() == [n.input];
    UnaryMeaning(eng, cat, db, Appended(rw, n), |rw|);
    ColumnsStay(cat, rw, n, n.input);
    EvalStays(eng, cat, db, rw, n, n.input);
  }

  lemma AggregateAppended(eng: Engine, cat: Catalog, db: Database, rw: Store, n: Node)
    requires n.Aggregate? && n.input < |rw|
    requires n.keys != [] || (!rw[n.input].GroupBy? && InheritsNothing(rw, n.input))
    ensures n.Inputs() == [n.input]
    ensures var next := Appended(rw, n);
            var names, t := Columns(cat, rw, n.input), Eval(eng, cat, db, rw, n.input);
            && Columns(cat, next, |rw|) == GroupNames(n.keys) + MeasureNames(n.measures)
            && Eval(eng, cat, db, next, |rw|) == EvalAggregate(eng, names, t, n.keys, n.measures)
  {
    assert n.Inputs() == [n.input];
    var next := Appended(rw, n);
    assert next[|rw|].Inputs()[0] == n.input;
    ColumnsStay(cat, rw, n, n.input);
    EvalStays(eng, cat, db, rw, n, n.input);
    assert AggregateSource(next, |rw|) == (n.input, n.keys);
    if rw[n.input].Aggregate? {
      PrefixStays(rw, n, n.input);
    }
    assert AggregatePrefix(next, |rw|) == GroupNames(n.keys);
  }

  lemma JoinAppended(eng: Engine, cat: Catalog, db: Database, rw: Store, n: Node)
    requires n.Join? && n.left < |rw| && n.right < |rw|
    ensures n.Inputs() == [n.left, n.right]
    ensures var next := Appended(rw, n);
            var l, r := Columns(cat, rw, n.left), Qualify(Columns(cat, rw, n.right), n.relationName);
            && Columns(cat, next, |rw|) == l + r
            && Eval(eng, cat, db, next, |rw|)
                 == EvalJoin(eng, l, Eval(eng, cat, db, rw, n.left), r, Eval(eng, cat, db, rw, n.right), n.kind, n.on)
  {
    assert n.Inputs() == [n.left, n.right];
    ColumnsStay(cat, rw, n, n.left);
    ColumnsStay(cat, rw, n, n.right);
    EvalStays(eng, cat, db, rw, n, n.left);
    EvalStays(eng, cat, db, rw, n, n.right);
    var next := Appended(rw, n);
    assert next[|rw|].Inputs()[0] == n.left && next[|rw|].Inputs()[1] == n.right;
  }

  /** A unary node over an equal input, collapsed or redirected, means the same. */
  lemma UnaryPreserved(eng: Engine, cat: Catalog, db: Database, plan: Store, i: nat, rw: Store, left: nat)
    requires i < |plan| && IsUnary(plan[i]) && left < |rw| && plan[i].input < |plan|
    requires SameMeaning(eng, cat, db, plan, plan[i].input, rw, left)
    requires AggregatesKeepWidth(rw)
    requires plan[i].OrderBy? && rw[left].OrderBy? ==>
      rw[left].input < |rw| && OrderForgotten(Columns(cat, rw, rw[left].input), rw[left].keys, plan[i].keys)
    requires plan[i].Window? && rw[left].Window? && SharesBoundary(rw[left].projections, plan[i].projections) ==>
      rw[left].input < |rw|
      && WindowsMergeable(Columns(cat, rw, rw[left].input), rw[left].projections, plan[i].projections)
    ensures var n := Collapsed(plan[i], rw[left], left, 0);
            IsUnary(n) && n.input < |rw| && n.Inputs() == [n.input]
            && SameMeaning(eng, cat, db, plan, i, Appended(rw, n), |rw|)
  {
    if Collapsed(plan[i], rw[left], left, 0) == Redirected(plan[i], left, 0) {
      RedirectedPreserved(eng, cat, db, plan, i, rw, left);
    } else {
      MergedPreserved(eng, cat, db, plan, i, rw, left);
    }
  }

  lemma RedirectedPreserved(eng: Engine, cat: Catalog, db: Database, plan: Store, i: nat, rw: Store, left: nat)
    requires i < |plan| && IsUnary(plan[i]) && left < |rw| && plan[i].input < |plan|
    requires SameMeaning(eng, cat, db, plan, plan[i].input, rw, left)
    ensures var n := Redirected(plan[i], left, 0);
            IsUnary(n) && n.input < |rw| && n.Inputs() == [n.input]
            && SameMeaning(eng, cat, db, plan, i, Appended(rw, n), |rw|)
  {
    var n := Redirected(plan[i], left, 0);
    UnaryMeaning(eng, cat, db, plan, i);
    UnaryAppended(eng, cat, db, rw, n);
    RedirectedUnary(eng, Columns(cat, rw, left), Eval(eng, cat, db, rw, left), plan[i], left);
  }

  lemma MergedPreserved(eng: Engine, cat: Catalog, db: Database, plan: Store, i: nat, rw: Store, left: nat)
    requires i < |plan| && IsUnary(plan[i]) && left < |rw| && plan[i].input < |plan|
    requires SameMeaning(eng, cat, db, plan, plan[i].input, rw, left)
    requires AggregatesKeepWidth(rw)
    requires Collapsed(plan[i], rw[left], left, 0) != Redirected(plan[i], left, 0)
    requires plan[i].OrderBy? && rw[left].OrderBy? ==>
      rw[left].input < |rw| && OrderForgotten(Columns(cat, rw, rw[left].input), rw[left].keys, plan[i].keys)
    requires plan[i].Window? && rw[left].Window? && SharesBoundary(rw[left].projections, plan[i].projections) ==>
      rw[left].input < |rw|
      && WindowsMergeable(Columns(cat, rw, rw[left].input), rw[left].projections, plan[i].projections)
    ensures var n := Collapsed(plan[i], rw[left], left, 0);
            IsUnary(n) && n.input < |rw| && n.Inputs() == [n.input]
            && SameMeaning(eng, cat, db, plan, i, Appended(rw, n), |rw|)
  {
    var outer, inner := plan[i], rw[left];
    var n := Collapsed(outer, inner, left, 0);
    UnaryMeaning(eng, cat, db, plan, i);
    UnaryMeaning(eng, cat, db, rw, left);
    UnaryAppended(eng, cat, db, rw, n);
    var names, t := Columns(cat, rw, inner.input), Eval(eng, cat, db, rw, inner.input);
    if outer.Limit? {
      LimitTwice(eng, names, t, outer, inner);
    } else if outer.Project? {
      ProjectTwice(eng, names, t, outer, inner);
    } else {
      EvalWidth(eng, cat, db, rw, inner.input);
      if outer.OrderBy? {
        OrderReplaced(eng, names, t, outer, inner);
      } else {
        WindowsMerged(eng, names, t, outer, inner);
      }
    }
  }

  lemma AggregatePreserved(eng: Engine, cat: Catalog, db: Database, plan: Store, v: View, i: nat)
    requires |v.ids| == |plan| && i < |plan| && plan[i].Aggregate? && InputsMapped(plan, v, i)
    requires plan[i].input < |plan| && Mapped(plan, v, plan[i].input) && KindKept(plan, v, plan[i].input)
    requires SameMeaning(eng, cat, db, plan, plan[i].input, v.nodes, v.ids[plan[i].input])
    requires plan[plan[i].input].GroupBy? ==>
      var g := plan[plan[i].input].input;
      g < |plan| && Mapped(plan, v, g) && SameMeaning(eng, cat, db, plan, g, v.nodes, v.ids[g])
    requires SafeStep(cat, plan, v, i)
    ensures var n := RewrittenNode(plan, v, i);
            n.Aggregate? && (n.keys == [] ==> InheritsNothing(v.nodes, n.input))
            && SameMeaning(eng, cat, db, plan, i, Appended(v.nodes, n), |v.nodes|)
  {
    var n, j := RewrittenNode(plan, v, i), plan[i].input;
    assert plan[i].Inputs()[0] == j;
    assert n.Inputs()[0] == n.input;
    AggregateAppended(eng, cat, db, v.nodes, n);
    if plan[j].GroupBy? {
      assert plan[j].Inputs()[0] == plan[j].input;
      assert AggregateSource(plan, i) == (plan[j].input, plan[j].keys);
    } else {
      assert AggregateSource(plan, i) == (j, plan[i].keys);
    }
  }

  // ----- the whole pass -----

  /** Every rule applied along the pass is safe. */
  predicate AllSafe(cat: Catalog, plan: Store, order: seq<nat>)
    requires Ordered(plan, order)
    decreases |order|
  {
    order == []
    || (var n := |order| - 1;
        OrderedFront(plan, order);
        var v := Pass(plan, order[..n]);
        ReadyInputs(plan, order, v);
        AllSafe(cat, plan, order[..n]) && SafeStep(cat, plan, v, order[n]))
  }

  predicate Carried(eng: Engine, cat: Catalog, db: Database, plan: Store, v: View, i: nat) {
    Mapped(plan, v, i) && KindKept(plan, v, i) && SameMeaning(eng, cat, db, plan, i, v.nodes, v.ids[i])
  }

  predicate InputsCarried(eng: Engine, cat: Catalog, db: Database, plan: Store, v: View, i: nat)
    requires i < |plan|
  {
    forall k :: 0 <= k < |plan[i].Inputs()| ==> Carried(eng, cat, db, plan, v, plan[i].Inputs()[k])
  }

  /** One step maps its node to one of equal meaning. */
  lemma StepPreserved(eng: Engine, cat: Catalog, db: Database, plan: Store, v: View, i: nat)
    requires |v.ids| == |plan| && i < |plan| && InputsMapped(plan, v, i) && InputsCarried(eng, cat, db, plan, v, i)
    requires IsUnary(plan[i]) || plan[i].Aggregate? ==>
      plan[i].input < |plan| && InputsCarried(eng, cat, db, plan, v, plan[i].input)
    requires AggregatesKeepWidth(v.nodes) && SafeStep(cat, plan, v, i)
    ensures var next := RewriteStep(plan, v, i);
            Carried(eng, cat, db, plan, next, i) && AggregatesKeepWidth(next.nodes)
  {
    var n := plan[i];
    if n.Read? {
      ReadPreserved(eng, cat, db, plan, v, i);
    } else if n.Join? {
      JoinPreserved(eng, cat, db, plan, v, i);
    } else {
      assert n.Inputs()[0] == n.input;
      assert Carried(eng, cat, db, plan, v, n.input);
      if IsTrueFilter(n) {
        UnaryMeaning(eng, cat, db, plan, i);
        TrueFilterIdle(eng, Columns(cat, plan, n.input), Eval(eng, cat, db, plan, n.input), n);
      } else if n.Aggregate? {
        if plan[n.input].GroupBy? {
          assert plan[n.input].Inputs()[0] == plan[n.input].input;
          assert Carried(eng, cat, db, plan, v, plan[n.input].input);
        }
        AggregatePreserved(eng, cat, db, plan, v, i);
        WidthAppended(v.nodes, RewrittenNode(plan, v, i));
      } else {
        UnaryStepPreserved(eng, cat, db, plan, v, i);
      }
    }
  }

  lemma WidthAppended(rw: Store, n: Node)
    requires AggregatesKeepWidth(rw) && (forall x :: x in n.Inputs() ==> x < |rw|)
    requires n.Aggregate? && n.keys == [] ==> n.input < |rw| && InheritsNothing(rw, n.input)
    ensures AggregatesKeepWidth(Appended(rw, n))
  {
    var next := Appended(rw, n);
    forall i | 0 <= i < |next| && next[i].Aggregate? ensures AggregateKeepsWidth(next, i) {
      var input := next[i].input;
      assert next[i].Inputs()[0] == input;
      if i < |rw| {
        assert AggregateKeepsWidth(rw, i);
        PrefixStays(rw, n, i);
      } else if rw[input].Aggregate? {
        PrefixStays(rw, n, input);
      }
    }
  }

  lemma ReadPreserved(eng: Engine, cat: Catalog, db: Database, plan: Store, v: View, i: nat)
    requires |v.ids| == |plan| && i < |plan| && plan[i].Read? && AggregatesKeepWidth(v.nodes)
    ensures InputsMapped(plan, v, i)
    ensures var next := RewriteStep(plan, v, i);
            Carried(eng, cat, db, plan, next, i) && AggregatesKeepWidth(next.nodes)
  {
    assert plan[i].Inputs() == [];
    WidthAppended(v.nodes, plan[i]);
  }

  lemma JoinPreserved(eng: Engine, cat: Catalog, db: Database, plan: Store, v: View, i: nat)
    requires |v.ids| == |plan| && i < |plan| && plan[i].Join? && AggregatesKeepWidth(v.nodes)
    requires InputsMapped(plan, v, i) && InputsCarried(eng, cat, db, plan, v, i)
    ensures var next := RewriteStep(plan, v, i);
            Carried(eng, cat, db, plan, next, i) && AggregatesKeepWidth(next.nodes)
  {
    var n := plan[i];
    assert n.Inputs()[0] == n.left && n.Inputs()[1] == n.right;
    assert Carried(eng, cat, db, plan, v, n.left) && Carried(eng, cat, db, plan, v, n.right);
    JoinAppended(eng, cat, db, v.nodes, RewrittenNode(plan, v, i));
    WidthAppended(v.nodes, RewrittenNode(plan, v, i));
  }

  lemma UnaryStepPreserved(eng: Engine, cat: Catalog, db: Database, plan: Store, v: View, i: nat)
    requires |v.ids| == |plan| && i < |plan| && IsUnary(plan[i]) && !IsTrueFilter(plan[i])
    requires InputsMapped(plan, v, i) && AggregatesKeepWidth(v.nodes) && SafeStep(cat, plan, v, i)
    requires plan[i].input < |plan| && Carried(eng, cat, db, plan, v, plan[i].input)
    ensures var next := RewriteStep(plan, v, i);
            Carried(eng, cat, db, plan, next, i) && AggregatesKeepWidth(next.nodes)
  {
    var n, left := plan[i], v.ids[plan[i].input];
    assert n.Inputs()[0] == n.input;
    var parent := v.nodes[left];
    assert parent.Window? || parent.OrderBy? ==> parent.Inputs()[0] == parent.input;
    UnaryPreserved(eng, cat, db, plan, i, v.nodes, left);
    assert RewrittenNode(plan, v, i) == Collapsed(n, parent, left, 0);
    WidthAppended(v.nodes, RewrittenNode(plan, v, i));
  }

  /** A step leaves every node mapped before it alone. */
  lemma StepKeeps(eng: Engine, cat: Catalog, db: Database, plan: Store, v: View, i: nat, j: nat)
    requires |v.ids| == |plan| && i < |plan| && InputsMapped(plan, v, i)
    requires j < i && Carried(eng, cat, db, plan, v, j)
    ensures Carried(eng, cat, db, plan, RewriteStep(plan, v, i), j)
  {
    if plan[j].GroupBy? {
      assert plan[j].Inputs()[0] == plan[j].input;
    }
    if !IsTrueFilter(plan[i]) {
      var n := RewrittenNode(plan, v, i);
      assert Acyclic(Appended(v.nodes, n));
      ColumnsStay(cat, v.nodes, n, v.ids[j]);
      EvalStays(eng, cat, db, v.nodes, n, v.ids[j]);
    }
  }

  /** Main result: along a pass whose rule applications are safe, every authored node is mapped to a rewritten node with
      the same columns and the same table, on every database and backend. */
  lemma {:induction false} PassPreserves(eng: Engine, cat: Catalog, db: Database, plan: Store, order: seq<nat>)
    requires Ordered(plan, order) && AllSafe(cat, plan, order)
    ensures forall k :: 0 <= k < |order| ==> Carried(eng, cat, db, plan, Pass(plan, order), order[k])
    ensures AggregatesKeepWidth(Pass(plan, order).nodes)
    decreases |order|
  {
    if order != [] {
      var n := |order| - 1;
      OrderedFront(plan, order);
      PassPreserves(eng, cat, db, plan, order[..n]);
      forall k | 0 <= k < n ensures Carried(eng, cat, db, plan, Pass(plan, order[..n]), order[k]) {
        assert order[..n][k] == order[k];
      }
      LastStepPreserves(eng, cat, db, plan, order);
    }
  }

  lemma InputsCarriedInOrder(
      eng: Engine, cat: Catalog, db: Database, plan: Store, order: seq<nat>, v: View, i: nat, m: nat)
    requires m <= |order| && i < |plan|
    requires forall x :: x in plan[i].Inputs() ==> x in order[..m]
    requires forall k :: 0 <= k < m ==> Carried(eng, cat, db, plan, v, order[k])
    ensures InputsCarried(eng, cat, db, plan, v, i)
  {
    forall k | 0 <= k < |plan[i].Inputs()| ensures Carried(eng, cat, db, plan, v, plan[i].Inputs()[k]) {
      assert plan[i].Inputs()[k] in plan[i].Inputs();
      var j :| 0 <= j < m && order[..m][j] == plan[i].Inputs()[k];
      assert Carried(eng, cat, db, plan, v, order[j]);
    }
  }

  lemma LastStepPreserves(eng: Engine, cat: Catalog, db: Database, plan: Store, order: seq<nat>)
    requires order != [] && Ordered(plan, order) && AllSafe(cat, plan, order)
    requires Ordered(plan, order[..|order| - 1])
    requires var v := Pass(plan, order[..|order| - 1]);
             AggregatesKeepWidth(v.nodes)
             && forall k :: 0 <= k < |order| - 1 ==> Carried(eng, cat, db, plan, v, order[k])
    ensures forall k :: 0 <= k < |order| ==> Carried(eng, cat, db, plan, Pass(plan, order), order[k])
    ensures AggregatesKeepWidth(Pass(plan, order).nodes)
  {
    var n := |order| - 1;
    var v, i := Pass(plan, order[..n]), order[n];
    ReadyInputs(plan, order, v);
    LastInputsCarried(eng, cat, db, plan, order, v);
    StepPreserved(eng, cat, db, plan, v, i);
    forall k | 0 <= k < n ensures Carried(eng, cat, db, plan, RewriteStep(plan, v, i), order[k]) {
      StepKeeps(eng, cat, db, plan, v, i, order[k]);
    }
  }

  lemma LastInputsCarried(eng: Engine, cat: Catalog, db: Database, plan: Store, order: seq<nat>, v: View)
    requires order != [] && Ordered(plan, order)
    requires forall k :: 0 <= k < |order| - 1 ==> Carried(eng, cat, db, plan, v, order[k])
    ensures var i := order[|order| - 1];
            InputsCarried(eng, cat, db, plan, v, i)
            && (IsUnary(plan[i]) || plan[i].Aggregate? ==>
                  plan[i].input < |plan| && InputsCarried(eng, cat, db, plan, v, plan[i].input))
  {
    var n := |order| - 1;
    var i := order[n];
    InputsOfInput(plan, order, n);
    InputsCarriedInOrder(eng, cat, db, plan, order, v, i, n);
    if IsUnary(plan[i]) || plan[i].Aggregate? {
      assert plan[i].Inputs()[0] == plan[i].input;
      assert plan[i].input in order[..n];
      var j :| 0 <= j < n && order[..n][j] == plan[i].input;
      InputsOfInput(plan, order, j);
      InputsCarriedInOrder(eng, cat, db, plan, order, v, plan[i].input, j);
    }
  }

  lemma InputsOfInput(plan: Store, order: seq<nat>, j: nat)
    requires Ordered(plan, order) && j < |order|
    ensures forall x :: x in plan[order[j]].Inputs() ==> x in order[..j]
  {
    assert InputsBefore(plan, order, j);
  }
}
