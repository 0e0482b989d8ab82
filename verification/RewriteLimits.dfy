/** Where the canonical pass changes a plan's meaning: for each rule that can, a stack of nodes over one table, and the
    exact condition on those nodes under which the pass keeps columns and table on every database and backend. */
module RewriteLimits {
  import opened Names
  import opened Tables
  import opened Expressions
  import opened Plans
  import opened Wrappers
  import opened Reachability
  import opened Rewrites
  import opened Adoption

  // ----- stacks -----

  /** A read with unary nodes stacked on it. */
  predicate IsStack(plan: Store) {
    plan != [] && plan[0].Read? && forall i :: 1 <= i < |plan| ==> plan[i].Inputs() == [i - 1]
  }

  ghost predicate AlwaysSame(cat: Catalog, plan: Store, i: nat, rw: Store, p: nat)
    requires i < |plan| && p < |rw|
  {
    forall eng: Engine, db: Database :: SameMeaning(eng, cat, db, plan, i, rw, p)
  }

  /** The pass keeps the columns and the table of the top, on every database and backend. */
  ghost predicate PassKeeps(cat: Catalog, plan: Store)
    requires IsStack(plan)
  {
    var tip := |plan| - 1;
    var v := RewrittenFrom(plan, tip);
    AlwaysSame(cat, plan, tip, v.nodes, v.ids[tip])
  }

  lemma {:induction false} StackFeeds(plan: Store, i: nat, tip: nat)
    requires IsStack(plan) && i <= tip < |plan|
    ensures Feeds(plan, i, tip)
    decreases tip
  {
    if i < tip {
      assert plan[tip].Inputs()[0] == tip - 1;
      StackFeeds(plan, i, tip - 1);
    }
  }

  lemma StackOrder(plan: Store)
    requires IsStack(plan)
    ensures ReachableIds(plan, |plan| - 1) == Iota(|plan|) && Ordered(plan, Iota(|plan|))
  {
    forall i: nat {:trigger Feeds(plan, i, |plan| - 1)} | i < |plan| ensures Feeds(plan, i, |plan| - 1) {
      StackFeeds(plan, i, |plan| - 1);
    }
    AllKept(seq(|plan|, i requires 0 <= i < |plan| => Feeds(plan, i, |plan| - 1)));
    ReachableOrdered(plan, |plan| - 1);
  }

  /** The pass over the lowest k nodes. */
  function PassTo(plan: Store, k: nat): View
    requires IsStack(plan) && k <= |plan|
  {
    StackOrder(plan);
    OrderedPrefix(plan, Iota(|plan|), k);
    Pass(plan, Iota(|plan|)[..k])
  }

  lemma PassFrom(plan: Store)
    requires IsStack(plan)
    ensures RewrittenFrom(plan, |plan| - 1) == PassTo(plan, |plan|)
  {
    StackOrder(plan);
    assert Iota(|plan|)[..|plan|] == Iota(|plan|);
  }

  lemma PassNext(plan: Store, k: nat)
    requires IsStack(plan) && k < |plan|
    ensures var v := PassTo(plan, k);
            |v.ids| == |plan| && InputsMapped(plan, v, k) && PassTo(plan, k + 1) == RewriteStep(plan, v, k)
  {
    StackOrder(plan);
    OrderedPrefix(plan, Iota(|plan|), k);
    PassExtends(plan, Iota(|plan|), k);
  }

  /** The view `nodes` and `ids` after the lowest k nodes; the others are unmapped. */
  predicate Reached(plan: Store, k: nat, nodes: seq<Node>, ids: seq<int>)
    requires IsStack(plan) && k <= |plan|
  {
    |ids| == k && PassTo(plan, k).nodes == nodes && PassTo(plan, k).ids == ids + seq(|plan| - k, _ => -1)
  }

  lemma ReachedRead(plan: Store)
    requires IsStack(plan)
    ensures Reached(plan, 1, [plan[0]], [0])
  {
    PassNext(plan, 0);
    assert Iota(|plan|)[..0] == [];
    assert seq(|plan|, _ => -1)[0 := 0] == [0] + seq(|plan| - 1, _ => -1);
  }

  /** A node on top of a view is carried over or collapses onto its parent. */
  lemma ReachedNext(plan: Store, k: nat, nodes: seq<Node>, ids: seq<int>)
    requires IsStack(plan) && 1 <= k < |plan| && Reached(plan, k, nodes, ids) && !IsTrueFilter(plan[k])
    ensures 0 <= ids[k - 1] < |nodes|
    ensures Reached(plan, k + 1, nodes + [Collapsed(plan[k], nodes[ids[k - 1]], ids[k - 1], 0)], ids + [|nodes|])
  {
    PassNext(plan, k);
    var v := PassTo(plan, k);
    assert plan[k].Inputs()[0] == k - 1;
    assert Mapped(plan, v, k - 1);
    assert v.ids[k - 1] == ids[k - 1];
    assert v.ids[k := |nodes|] == (ids + [|nodes|]) + seq(|plan| - k - 1, _ => -1);
  }

  /** A filter that is always true is mapped to its parent. */
  lemma ReachedFilter(plan: Store, k: nat, nodes: seq<Node>, ids: seq<int>)
    requires IsStack(plan) && 1 <= k < |plan| && Reached(plan, k, nodes, ids) && IsTrueFilter(plan[k])
    ensures Reached(plan, k + 1, nodes, ids + [ids[k - 1]])
  {
    PassNext(plan, k);
    var v := PassTo(plan, k);
    assert plan[k].Inputs()[0] == k - 1;
    assert v.ids[k - 1] == ids[k - 1];
    assert v.ids[k := ids[k - 1]] == (ids + [ids[k - 1]]) + seq(|plan| - k - 1, _ => -1);
  }

  lemma ReachedTop(plan: Store, nodes: seq<Node>, ids: seq<int>)
    requires IsStack(plan) && Reached(plan, |plan|, nodes, ids)
    ensures var v := RewrittenFrom(plan, |plan| - 1); v.nodes == nodes && v.ids == ids
  {
    PassFrom(plan);
    assert ids + seq(0, _ => -1) == ids;
  }

  lemma PassKeepsAs(cat: Catalog, plan: Store, rw: Store, ids: seq<int>, p: nat)
    requires IsStack(plan) && Reached(plan, |plan|, rw, ids) && p < |rw| && ids[|plan| - 1] == p
    ensures PassKeeps(cat, plan) <==> AlwaysSame(cat, plan, |plan| - 1, rw, p)
  {
    ReachedTop(plan, rw, ids);
  }

  /** A stack of two nodes: the lower one is carried over, the upper one collapses onto it if a rule applies. */
  function Stack(table: string, lower: Node, upper: Node): (plan: Store)
    requires lower.Inputs() == [0] && upper.Inputs() == [1]
    ensures IsStack(plan)
  {
    [Read(table), lower, upper]
  }

  lemma StackPass(table: string, lower: Node, upper: Node)
    requires lower.Inputs() == [0] && upper.Inputs() == [1] && !IsTrueFilter(lower) && !IsTrueFilter(upper)
    ensures Reached(Stack(table, lower, upper), 3, [Read(table), lower, Collapsed(upper, lower, 1, 0)], [0, 1, 2])
  {
    var plan := Stack(table, lower, upper);
    ReachedRead(plan);
    ReachedNext(plan, 1, [Read(table)], [0]);
    OnRead(table, lower);
    ReachedNext(plan, 2, [Read(table), lower], [0, 1]);
    assert [Read(table), lower] + [Collapsed(upper, lower, 1, 0)]
        == [Read(table), lower, Collapsed(upper, lower, 1, 0)];
  }

  lemma StackKeepsAs(cat: Catalog, table: string, lower: Node, upper: Node, rw: Store)
    requires lower.Inputs() == [0] && upper.Inputs() == [1] && !IsTrueFilter(lower) && !IsTrueFilter(upper)
    requires rw == [Read(table), lower, Collapsed(upper, lower, 1, 0)]
    ensures PassKeeps(cat, Stack(table, lower, upper)) <==> AlwaysSame(cat, Stack(table, lower, upper), 2, rw, 2)
  {
    StackPass(table, lower, upper);
    PassKeepsAs(cat, Stack(table, lower, upper), rw, [0, 1, 2], 2);
  }

  lemma OnRead(table: string, n: Node)
    requires n.Inputs() == [0]
    ensures Collapsed(n, Read(table), 0, 0) == n
  {
    assert |n.Inputs()| == 1;
    assert n.Inputs()[0] == n.input;
  }

  /** What the table below a stack gives: any table of the catalog's width, or a refusal. */
  function Base(cat: Catalog, db: Database, table: string): Option<Table> {
    if |db(table).cols| == |cat(table)| then Some(db(table)) else None
  }

  /** Every table is the same value of its width. */
  function Filled(names: seq<string>, rows: seq<Value>): (t: Table)
    ensures t.count == |rows| && |t.cols| == |names|
  {
    RawTable(|rows|, seq(|names|, _ => rows))
  }

  function Holding(names: seq<string>, rows: seq<Value>): Database {
    (table: string) => Filled(names, rows)
  }

  lemma StackMeaning(eng: Engine, cat: Catalog, db: Database, table: string, lower: Node, upper: Node, merged: Node)
    requires IsUnary(lower) && IsUnary(upper) && IsUnary(merged)
    requires lower.Inputs() == [0] && upper.Inputs() == [1] && merged.Inputs() == [0]
    ensures var names, t := cat(table), Base(cat, db, table);
            var between := UnaryColumns(names, lower);
            SameMeaning(eng, cat, db, Stack(table, lower, upper), 2, [Read(table), lower, merged], 2)
            <==> && UnaryColumns(names, merged) == UnaryColumns(between, upper)
                 && EvalUnary(eng, names, t, merged) == EvalUnary(eng, between, EvalUnary(eng, names, t, lower), upper)
  {
    var plan, rw: Store := Stack(table, lower, upper), [Read(table), lower, merged];
    UnaryMeaning(eng, cat, db, plan, 1);
    UnaryMeaning(eng, cat, db, plan, 2);
    UnaryMeaning(eng, cat, db, rw, 2);
    assert lower.Inputs()[0] == lower.input && upper.Inputs()[0] == upper.input && merged.Inputs()[0] == merged.input;
  }

  // ----- windows -----

  /** Two window groups with one boundary: the pass keeps their meaning exactly when, wherever the authored plan is
      accepted, the later group reads no column that only the earlier adds. */
  lemma WindowStackExactly(
      cat: Catalog, table: string, earlier: seq<WindowProjection>, later: seq<WindowProjection>)
    requires SharesBoundary(earlier, later)
    ensures PassKeeps(cat, Stack(table, Window(0, earlier), Window(1, later)))
        <==> WindowsMergeable(cat(table), earlier, later)
  {
    StackKeepsAs(cat, table, Window(0, earlier), Window(1, later),
                 [Read(table), Window(0, earlier), Window(0, earlier + later)]);
    if WindowsMergeable(cat(table), earlier, later) {
      WindowStackKeeps(cat, table, earlier, later);
    } else {
      WindowStackFails(cat, table, earlier, later);
    }
  }

  lemma WindowStackKeeps(
      cat: Catalog, table: string, earlier: seq<WindowProjection>, later: seq<WindowProjection>)
    requires SharesBoundary(earlier, later) && WindowsMergeable(cat(table), earlier, later)
    ensures AlwaysSame(cat, Stack(table, Window(0, earlier), Window(1, later)), 2,
                       [Read(table), Window(0, earlier), Window(0, earlier + later)], 2)
  {
    var inner, outer, merged := Window(0, earlier), Window(1, later), Window(0, earlier + later);
    forall eng: Engine, db: Database
      ensures SameMeaning(eng, cat, db, Stack(table, inner, outer), 2, [Read(table), inner, merged], 2)
    {
      WindowsMerged(eng, cat(table), Base(cat, db, table), outer, inner);
      StackMeaning(eng, cat, db, table, inner, outer, merged);
    }
  }

  lemma WindowStackFails(
      cat: Catalog, table: string, earlier: seq<WindowProjection>, later: seq<WindowProjection>)
    requires SharesBoundary(earlier, later) && !WindowsMergeable(cat(table), earlier, later)
    ensures !AlwaysSame(cat, Stack(table, Window(0, earlier), Window(1, later)), 2,
                        [Read(table), Window(0, earlier), Window(0, earlier + later)], 2)
  {
    WindowsDiffer(cat, table, earlier, later);
    assert !SameMeaning(Plain(), cat, Holding(cat(table), []), Stack(table, Window(0, earlier), Window(1, later)), 2,
                        [Read(table), Window(0, earlier), Window(0, earlier + later)], 2);
  }

  /** Already on no rows. */
  lemma WindowsDiffer(cat: Catalog, table: string, earlier: seq<WindowProjection>, later: seq<WindowProjection>)
    requires SharesBoundary(earlier, later) && !WindowsMergeable(cat(table), earlier, later)
    ensures !SameMeaning(Plain(), cat, Holding(cat(table), []), Stack(table, Window(0, earlier), Window(1, later)), 2,
                         [Read(table), Window(0, earlier), Window(0, earlier + later)], 2)
  {
    var names, db := cat(table), Holding(cat(table), []);
    WindowMergeExactly(Plain(), names, db(table), Window(1, later), Window(0, earlier));
    StackMeaning(Plain(), cat, db, table, Window(0, earlier), Window(1, later), Window(0, earlier + later));
  }

  /** Where the authored windows have a result, merging them keeps it exactly when they are independent; otherwise the
      merged node reads an unknown column. */
  lemma WindowMergeExactly(eng: Engine, names: seq<string>, t: Table, outer: Node, inner: Node)
    requires outer.Window? && inner.Window? && SharesBoundary(inner.projections, outer.projections)
    requires |t.cols| == |names|
    requires EvalUnary(eng, UnaryColumns(names, inner), EvalUnary(eng, names, Some(t), inner), outer).Some?
    ensures EvalUnary(eng, names, Some(t), Window(inner.input, inner.projections + outer.projections))
         == EvalUnary(eng, UnaryColumns(names, inner), EvalUnary(eng, names, Some(t), inner), outer)
        <==> Independent(names, inner.projections, outer.projections)
  {
    var earlier, later := inner.projections, outer.projections;
    if Independent(names, earlier, later) {
      WindowTwice(eng, names, Some(t), outer, inner);
    } else if WindowsAccepted(names, earlier + later) {
      MergedAccepted(names, earlier, later);
    }
  }

  // ----- orderings -----

  /** A backend that swaps two rows, whatever their keys, and knows nothing else. */
  function Swapping(): Engine {
    Plain().(order := (keys: seq<Row>) => if |keys| == 2 then [1, 0] else [])
  }

  /** A backend without any knowledge: constant functions, counts for aggregates. */
  function Plain(): Engine {
    Engine(
      (name: string, options: seq<(string, string)>, args: Row) => BoolValue(true),
      (name: string, distinct: bool, args: seq<Row>, ordering: seq<Row>) => IntValue(|args|),
      (name: string, n: nat, args: Row) => [],
      (shape: WindowShape, rows: seq<Row>, j: nat) => Null,
      (keys: seq<Row>) => [])
  }

  lemma SwappedOnce(names: seq<string>, keys: seq<ColumnExpr>, a: Value, b: Value, input: nat)
    requires Orderable(names, keys)
    ensures EvalUnary(Swapping(), names, Some(Filled(names, [a, b])), OrderBy(input, keys))
         == Some(Filled(names, [b, a]))
  {
    var t := Filled(names, [a, b]);
    assert Swapping().order(ExprRows(Swapping(), names, t, keys)) == [1, 0];
    forall c | 0 <= c < |names| ensures Pick(t.cols[c], [1, 0]) == [b, a] {
    }
    assert Gather(t, [1, 0]).cols == Filled(names, [b, a]).cols;
  }

  /** Two orderings: the pass keeps the meaning exactly when the later one is refused anyway, or the table has no
      column to tell rows apart and the earlier one is not refused. */
  lemma OrderStackExactly(cat: Catalog, table: string, earlier: seq<ColumnExpr>, later: seq<ColumnExpr>)
    ensures PassKeeps(cat, Stack(table, OrderBy(0, earlier), OrderBy(1, later)))
        <==> OrderForgotten(cat(table), earlier, later)
  {
    StackKeepsAs(cat, table, OrderBy(0, earlier), OrderBy(1, later),
                 [Read(table), OrderBy(0, earlier), OrderBy(0, later)]);
    if OrderForgotten(cat(table), earlier, later) {
      OrderStackKeeps(cat, table, earlier, later);
    } else {
      OrderStackFails(cat, table, earlier, later);
    }
  }

  lemma OrderStackKeeps(cat: Catalog, table: string, earlier: seq<ColumnExpr>, later: seq<ColumnExpr>)
    requires OrderForgotten(cat(table), earlier, later)
    ensures AlwaysSame(cat, Stack(table, OrderBy(0, earlier), OrderBy(1, later)), 2,
                       [Read(table), OrderBy(0, earlier), OrderBy(0, later)], 2)
  {
    var inner, outer, merged := OrderBy(0, earlier), OrderBy(1, later), OrderBy(0, later);
    forall eng: Engine, db: Database
      ensures SameMeaning(eng, cat, db, Stack(table, inner, outer), 2, [Read(table), inner, merged], 2)
    {
      OrderReplaced(eng, cat(table), Base(cat, db, table), outer, inner);
      StackMeaning(eng, cat, db, table, inner, outer, merged);
    }
  }

  lemma OrderStackFails(cat: Catalog, table: string, earlier: seq<ColumnExpr>, later: seq<ColumnExpr>)
    requires !OrderForgotten(cat(table), earlier, later)
    ensures !AlwaysSame(cat, Stack(table, OrderBy(0, earlier), OrderBy(1, later)), 2,
                        [Read(table), OrderBy(0, earlier), OrderBy(0, later)], 2)
  {
    var names, db := cat(table), Holding(cat(table), [IntValue(0), IntValue(1)]);
    OrderTraced(names, earlier, later);
    StackMeaning(Swapping(), cat, db, table, OrderBy(0, earlier), OrderBy(1, later), OrderBy(0, later));
    assert !SameMeaning(Swapping(), cat, db, Stack(table, OrderBy(0, earlier), OrderBy(1, later)), 2,
                        [Read(table), OrderBy(0, earlier), OrderBy(0, later)], 2);
  }

  lemma OrderTraced(names: seq<string>, earlier: seq<ColumnExpr>, later: seq<ColumnExpr>)
    requires !OrderForgotten(names, earlier, later)
    ensures var t := Some(Filled(names, [IntValue(0), IntValue(1)]));
            EvalUnary(Swapping(), names, t, OrderBy(0, later))
            != EvalUnary(Swapping(), names, EvalUnary(Swapping(), names, t, OrderBy(0, earlier)), OrderBy(1, later))
  {
    SwappedOnce(names, later, IntValue(0), IntValue(1), 0);
    if Orderable(names, earlier) {
      SwappedOnce(names, earlier, IntValue(0), IntValue(1), 0);
      SwappedOnce(names, later, IntValue(1), IntValue(0), 1);
      assert Filled(names, [IntValue(0), IntValue(1)]).cols[0] != Filled(names, [IntValue(1), IntValue(0)]).cols[0];
    }
  }

  /** The order the backend gives some key rows; an answer that is no permutation counts as none. */
  function Arrangement(eng: Engine, keys: seq<Row>): (picks: seq<nat>)
    ensures IsPermutation(picks, |keys|)
  {
    var picks := eng.order(keys);
    if IsPermutation(picks, |keys|) then picks else Iota(|keys|)
  }

  function Rearranged(keys: seq<Row>, picks: seq<nat>): (r: seq<Row>)
    requires forall k :: 0 <= k < |picks| ==> picks[k] < |keys|
    ensures |r| == |picks|
  {
    seq(|picks|, k requires 0 <= k < |picks| => keys[picks[k]])
  }

  /** The row that stands at place j after two orderings. */
  function SecondPlace(eng: Engine, first: seq<Row>, second: seq<Row>, j: nat): (row: nat)
    requires |first| == |second| && j < |first|
    ensures row < |first|
  {
    var p := Arrangement(eng, first);
    p[Arrangement(eng, Rearranged(second, p))[j]]
  }

  lemma OrderedOnce(eng: Engine, names: seq<string>, t: Table, keys: seq<ColumnExpr>)
    requires Orderable(names, keys)
    ensures EvalUnary(eng, names, Some(t), OrderBy(0, keys))
         == Some(Gather(t, Arrangement(eng, ExprRows(eng, names, t, keys))))
  {
    SortedIs(eng, t, ExprRows(eng, names, t, keys));
  }

  lemma OrderedTwice(eng: Engine, names: seq<string>, t: Table, earlier: seq<ColumnExpr>, later: seq<ColumnExpr>)
    requires Orderable(names, earlier) && Orderable(names, later)
    ensures var p := Arrangement(eng, ExprRows(eng, names, t, earlier));
            EvalUnary(eng, names, EvalUnary(eng, names, Some(t), OrderBy(0, earlier)), OrderBy(1, later))
              == Some(Gather(Gather(t, p), Arrangement(eng, Rearranged(ExprRows(eng, names, t, later), p))))
  {
    var p := Arrangement(eng, ExprRows(eng, names, t, earlier));
    OrderedOnce(eng, names, t, earlier);
    KeysGathered(eng, names, t, later, p);
    OrderedOnce(eng, names, Gather(t, p), later);
  }

  /** Two picks from one table are equal exactly when they show the same rows. */
  lemma PicksDecide(t: Table, p: seq<nat>, r: seq<nat>, q: seq<nat>)
    requires |p| == |r| == |q| == t.count
    requires forall k :: 0 <= k < t.count ==> p[k] < t.count && r[k] < t.count && q[k] < t.count
    ensures Gather(Gather(t, p), r) == Gather(t, q) <==> forall j: nat :: j < t.count ==> RowAt(t, p[r[j]]) == RowAt(t, q[j])
  {
    var twice, direct := Gather(Gather(t, p), r), Gather(t, q);
    forall j: nat | j < t.count
      ensures RowAt(twice, j) == RowAt(t, p[r[j]]) && RowAt(direct, j) == RowAt(t, q[j])
    {
    }
    RowsDecide(twice, direct);
  }

  /** On one table and one backend, replacing an ordering is right exactly when ordering the once ordered rows by the
      later keys shows the same row in every place as ordering the original rows by them. */
  lemma ReorderExactly(
      eng: Engine, names: seq<string>, t: Table, earlier: seq<ColumnExpr>, later: seq<ColumnExpr>)
    requires |t.cols| == |names| && Orderable(names, earlier) && Orderable(names, later)
    ensures var first, second := ExprRows(eng, names, t, earlier), ExprRows(eng, names, t, later);
            EvalUnary(eng, names, EvalUnary(eng, names, Some(t), OrderBy(0, earlier)), OrderBy(1, later))
              == EvalUnary(eng, names, Some(t), OrderBy(0, later))
            <==> forall j: nat :: j < t.count ==>
                   RowAt(t, SecondPlace(eng, first, second, j)) == RowAt(t, Arrangement(eng, second)[j])
  {
    var first, second := ExprRows(eng, names, t, earlier), ExprRows(eng, names, t, later);
    var p, q := Arrangement(eng, first), Arrangement(eng, second);
    OrderedTwice(eng, names, t, earlier, later);
    OrderedOnce(eng, names, t, later);
    PicksDecide(t, p, Arrangement(eng, Rearranged(second, p)), q);
  }

  lemma SortedIs(eng: Engine, t: Table, keys: seq<Row>)
    requires |keys| == t.count
    ensures Sorted(eng, t, keys) == Gather(t, Arrangement(eng, keys))
  {
    GatherAll(t);
  }

  lemma KeysGathered(eng: Engine, names: seq<string>, t: Table, keys: seq<ColumnExpr>, p: seq<nat>)
    requires forall k :: 0 <= k < |p| ==> p[k] < t.count
    ensures ExprRows(eng, names, Gather(t, p), keys) == Rearranged(ExprRows(eng, names, t, keys), p)
  {
    forall j | 0 <= j < |p| ensures RowAt(Gather(t, p), j) == RowAt(t, p[j]) {
    }
  }

  lemma RowsDecide(a: Table, b: Table)
    requires a.count == b.count && |a.cols| == |b.cols|
    ensures a == b <==> forall j: nat :: j < a.count ==> RowAt(a, j) == RowAt(b, j)
  {
    if forall j: nat :: j < a.count ==> RowAt(a, j) == RowAt(b, j) {
      forall c | 0 <= c < |a.cols| ensures a.cols[c] == b.cols[c] {
        forall j | 0 <= j < a.count ensures a.cols[c][j] == b.cols[c][j] {
          assert RowAt(a, j)[c] == RowAt(b, j)[c];
        }
      }
      assert a.cols == b.cols;
    }
  }

  /** So it is right on a backend that sorts by key, whenever the later keys tell all rows apart. */
  lemma DistinctKeysReorder(
      eng: Engine, names: seq<string>, t: Table, earlier: seq<ColumnExpr>, later: seq<ColumnExpr>)
    requires |t.cols| == |names| && Orderable(names, earlier) && Orderable(names, later)
    requires var first, second := ExprRows(eng, names, t, earlier), ExprRows(eng, names, t, later);
             var moved := Rearranged(second, Arrangement(eng, first));
             && (forall j, k :: 0 <= j < k < |second| ==> second[j] != second[k])
             && Rearranged(moved, Arrangement(eng, moved)) == Rearranged(second, Arrangement(eng, second))
    ensures EvalUnary(eng, names, EvalUnary(eng, names, Some(t), OrderBy(0, earlier)), OrderBy(1, later))
         == EvalUnary(eng, names, Some(t), OrderBy(0, later))
  {
    var first, second := ExprRows(eng, names, t, earlier), ExprRows(eng, names, t, later);
    var moved := Rearranged(second, Arrangement(eng, first));
    forall j: nat | j < t.count ensures SecondPlace(eng, first, second, j) == Arrangement(eng, second)[j] {
      assert Rearranged(moved, Arrangement(eng, moved))[j] == Rearranged(second, Arrangement(eng, second))[j];
    }
    ReorderExactly(eng, names, t, earlier, later);
  }

  // ----- aggregates -----

  /** A literal that no row satisfies. */
  predicate NeverHolds(e: ColumnExpr) {
    match e.node
    case ColumnRef(_) => false
    case Application(_, _, _) => false
    case BoolLiteral(flag) => !flag
    case _ => true
  }

  /** A measure that mentions no column and whose filter lets no row through gives one value for any rows. */
  predicate RowBlind(m: Measure) {
    AllReferences(MeasureInputs(m)) == {} && m.filter.Some? && NeverHolds(m.filter.value)
  }

  /** The measures cannot tell the rows of a table from a single row without columns: they are refused, or blind. */
  predicate Ungrouped(names: seq<string>, measures: seq<Measure>) {
    MeasuresResolve(names, measures) ==> forall k :: 0 <= k < |measures| ==> RowBlind(measures[k])
  }

  /** What grouping by nothing, or aggregating without measures, leaves of a table. */
  function OneRow(): Table {
    RawTable(1, [])
  }

  lemma NothingLeft(eng: Engine, names: seq<string>, t: Option<Table>)
    ensures EvalAggregate(eng, names, t, [], []) == if t.Some? then Some(OneRow()) else None
    ensures forall input: nat {:trigger GroupBy(input, [])} ::
      EvalUnary(eng, names, t, GroupBy(input, [])) == if t.Some? then Some(OneRow()) else None
  {
    if t.Some? {
      assert AggregateTable(eng, names, t.value, [], []) == OneRow();
    }
  }

  lemma NoReferences(names: seq<string>, measures: seq<Measure>)
    requires MeasuresResolve([], measures)
    ensures forall k :: 0 <= k < |measures| ==> AllReferences(MeasureInputs(measures[k])) == {}
    ensures MeasuresResolve(names, measures)
  {
    forall k | 0 <= k < |measures|
      ensures AllReferences(MeasureInputs(measures[k])) == {} && AllResolve(names, MeasureInputs(measures[k]))
    {
      var es := MeasureInputs(measures[k]);
      forall j | 0 <= j < |es| ensures References(es[j]) == {} {
        assert Resolves([], es[j]);
      }
    }
  }

  lemma {:induction false} NoneKept(flags: seq<bool>)
    requires forall j :: 0 <= j < |flags| ==> !flags[j]
    ensures Kept(flags) == []
    decreases |flags|
  {
    if flags != [] {
      NoneKept(flags[..|flags| - 1]);
    }
  }

  lemma BlindRows(eng: Engine, names: seq<string>, t: Table, m: Measure, members: seq<nat>)
    requires RowBlind(m) && forall k :: 0 <= k < |members| ==> members[k] < t.count
    ensures MeasureRows(eng, names, t, m, members) == []
  {
    var flags := seq(|members|, k requires 0 <= k < |members| =>
      Holds(EvalExpr(eng, names, RowAt(t, members[k]), m.filter.value)));
    assert forall k :: 0 <= k < |flags| ==> !flags[k];
    NoneKept(flags);
  }

  lemma BlindValue(eng: Engine, names: seq<string>, t: Table, m: Measure, members: seq<nat>)
    requires RowBlind(m) && forall k :: 0 <= k < |members| ==> members[k] < t.count
    ensures MeasureValue(eng, names, t, m, members) == eng.aggregate(m.kind + m.suffix, m.isDistinct, [], [])
  {
    BlindRows(eng, names, t, m, members);
  }

  lemma BlindColumns(eng: Engine, names: seq<string>, t: Table, measures: seq<Measure>)
    requires forall k :: 0 <= k < |measures| ==> RowBlind(measures[k])
    ensures AggregateTable(eng, names, t, [], measures)
         == RawTable(1, seq(|measures|, k requires 0 <= k < |measures| =>
              [eng.aggregate(measures[k].kind + measures[k].suffix, measures[k].isDistinct, [], [])]))
  {
    var groups := [Iota(t.count)];
    assert Groups(ExprColumns(eng, names, t, []), t.count) == groups;
    forall k | 0 <= k < |measures|
      ensures MeasureColumn(eng, names, t, measures[k], groups)
           == [eng.aggregate(measures[k].kind + measures[k].suffix, measures[k].isDistinct, [], [])]
    {
      BlindValue(eng, names, t, measures[k], groups[0]);
    }
  }

  lemma UngroupedSame(eng: Engine, names: seq<string>, t: Table, measures: seq<Measure>)
    requires Ungrouped(names, measures)
    ensures EvalAggregate(eng, [], Some(OneRow()), [], measures) == EvalAggregate(eng, names, Some(t), [], measures)
  {
    if MeasuresResolve([], measures) {
      NoReferences(names, measures);
    }
    if MeasuresResolve(names, measures) {
      assert MeasuresResolve([], measures) by {
        forall k, j | 0 <= k < |measures| && 0 <= j < |MeasureInputs(measures[k])|
          ensures Resolves([], MeasureInputs(measures[k])[j])
        {
          assert RowBlind(measures[k]);
          assert References(MeasureInputs(measures[k])[j]) <= AllReferences(MeasureInputs(measures[k]));
        }
      }
      BlindColumns(eng, names, t, measures);
      BlindColumns(eng, [], OneRow(), measures);
    }
  }

  lemma SeeingRows(names: seq<string>, t: Table, m: Measure, members: seq<nat>)
    requires AllReferences(MeasureInputs(m)) == {} && !RowBlind(m)
    requires forall k :: 0 <= k < |members| ==> members[k] < t.count
    ensures MeasureRows(Plain(), names, t, m, members) == members
  {
    if m.filter.Some? {
      var inputs := MeasureInputs(m);
      assert inputs[|inputs| - 1] == m.filter.value;
      assert References(m.filter.value) <= AllReferences(inputs);
      var flags := seq(|members|, k requires 0 <= k < |members| =>
        Holds(EvalExpr(Plain(), names, RowAt(t, members[k]), m.filter.value)));
      forall k | 0 <= k < |flags| ensures flags[k] {
        assert !m.filter.value.node.ColumnRef?;
      }
      AllKept(flags);
    }
  }

  lemma SeeingValue(names: seq<string>, t: Table, m: Measure)
    requires AllReferences(MeasureInputs(m)) == {} && !RowBlind(m)
    ensures MeasureValue(Plain(), names, t, m, Iota(t.count)) == IntValue(t.count)
  {
    SeeingRows(names, t, m, Iota(t.count));
  }

  /** Measures that are neither refused nor blind tell two rows from one. */
  lemma UngroupedDiffers(names: seq<string>, measures: seq<Measure>)
    requires !Ungrouped(names, measures)
    ensures EvalAggregate(Plain(), [], Some(OneRow()), [], measures)
         != EvalAggregate(Plain(), names, Some(Filled(names, [Null, Null])), [], measures)
  {
    if MeasuresResolve([], measures) {
      NoReferences(names, measures);
      var k :| 0 <= k < |measures| && !RowBlind(measures[k]);
      var t := Filled(names, [Null, Null]);
      SeeingValue(names, t, measures[k]);
      SeeingValue([], OneRow(), measures[k]);
      assert Groups(ExprColumns(Plain(), names, t, []), 2) == [Iota(2)];
      assert Groups(ExprColumns(Plain(), [], OneRow(), []), 1) == [Iota(1)];
      assert AggregateTable(Plain(), names, t, [], measures).cols[k] == [IntValue(2)];
      assert AggregateTable(Plain(), [], OneRow(), [], measures).cols[k] == [IntValue(1)];
    }
  }

  /** An aggregate without groups reads its input as it is. */
  lemma BareAggregate(eng: Engine, cat: Catalog, db: Database, plan: Store, i: nat)
    requires i < |plan| && plan[i].Aggregate? && plan[i].keys == [] && plan[i].input < i
    requires !plan[plan[i].input].GroupBy? && InheritsNothing(plan, plan[i].input)
    ensures Columns(cat, plan, i) == MeasureNames(plan[i].measures)
    ensures Eval(eng, cat, db, plan, i)
         == EvalAggregate(eng, Columns(cat, plan, plan[i].input), Eval(eng, cat, db, plan, plan[i].input), [],
                          plan[i].measures)
  {
    assert plan[i].Inputs()[0] == plan[i].input;
    assert AggregatePrefix(plan, i) == [];
    assert AggregateSource(plan, i) == (plan[i].input, []);
  }

  /** How many rows are left once a table has been grouped by nothing. */
  function Left(t: Option<Table>): Option<Table> {
    if t.Some? then Some(OneRow()) else None
  }

  /** The authored meaning of an aggregate over nothing-grouped rows against the rewritten one over the rows. */
  lemma UngroupedKeeps(eng: Engine, names: seq<string>, t: Option<Table>, measures: seq<Measure>)
    requires Ungrouped(names, measures)
    ensures EvalAggregate(eng, [], Left(t), [], measures) == EvalAggregate(eng, names, t, [], measures)
  {
    if t.Some? {
      UngroupedSame(eng, names, t.value, measures);
    }
  }

  // ----- aggregates that merge -----

  /** `agg(first).agg(second)`. */
  function AggregateStack(table: string, first: seq<Measure>, second: seq<Measure>): (plan: Store)
    ensures IsStack(plan)
  {
    Stack(table, Aggregate(0, [], first), Aggregate(1, [], second))
  }

  function AggregateRewrite(table: string, first: seq<Measure>, second: seq<Measure>): (rw: Store) {
    [Read(table), Aggregate(0, [], first), Aggregate(0, [], first + second)]
  }

  lemma AggregateStackMeaning(
      eng: Engine, cat: Catalog, db: Database, table: string, first: seq<Measure>, second: seq<Measure>)
    ensures var plan, rw := AggregateStack(table, first, second), AggregateRewrite(table, first, second);
            var names, t := cat(table), Base(cat, db, table);
            && Columns(cat, plan, 2) == MeasureNames(second)
            && Columns(cat, rw, 2) == MeasureNames(first + second)
            && Eval(eng, cat, db, plan, 2)
                 == EvalAggregate(eng, MeasureNames(first), EvalAggregate(eng, names, t, [], first), [], second)
            && Eval(eng, cat, db, rw, 2) == EvalAggregate(eng, names, t, [], first + second)
  {
    var plan, rw := AggregateStack(table, first, second), AggregateRewrite(table, first, second);
    BareAggregate(eng, cat, db, plan, 1);
    assert AggregatePrefix(plan, 1) == [];
    BareAggregate(eng, cat, db, plan, 2);
    BareAggregate(eng, cat, db, rw, 2);
  }

  /** Two aggregates without groups: merging them keeps the meaning exactly when the lower one has no measures and the
      upper ones cannot tell its rows from its one result row. */
  lemma AggregateStackExactly(cat: Catalog, table: string, first: seq<Measure>, second: seq<Measure>)
    ensures PassKeeps(cat, AggregateStack(table, first, second)) <==> first == [] && Ungrouped(cat(table), second)
  {
    StackKeepsAs(cat, table, Aggregate(0, [], first), Aggregate(1, [], second),
                 AggregateRewrite(table, first, second));
    if first == [] && Ungrouped(cat(table), second) {
      AggregateStackKeeps(cat, table, first, second);
    } else {
      AggregateStackFails(cat, table, first, second);
    }
  }

  lemma AggregateStackKeeps(cat: Catalog, table: string, first: seq<Measure>, second: seq<Measure>)
    requires first == [] && Ungrouped(cat(table), second)
    ensures AlwaysSame(cat, AggregateStack(table, first, second), 2, AggregateRewrite(table, first, second), 2)
  {
    assert [] + second == second;
    forall eng: Engine, db: Database
      ensures SameMeaning(eng, cat, db, AggregateStack(table, first, second), 2,
                          AggregateRewrite(table, first, second), 2)
    {
      AggregateStackMeaning(eng, cat, db, table, first, second);
      NothingLeft(eng, cat(table), Base(cat, db, table));
      UngroupedKeeps(eng, cat(table), Base(cat, db, table), second);
    }
  }

  lemma AggregateStackFails(cat: Catalog, table: string, first: seq<Measure>, second: seq<Measure>)
    requires !(first == [] && Ungrouped(cat(table), second))
    ensures !AlwaysSame(cat, AggregateStack(table, first, second), 2, AggregateRewrite(table, first, second), 2)
  {
    var names, db := cat(table), Holding(cat(table), [Null, Null]);
    AggregateStackMeaning(Plain(), cat, db, table, first, second);
    if first == [] {
      assert [] + second == second;
      NothingLeft(Plain(), names, Base(cat, db, table));
      UngroupedDiffers(names, second);
    }
    assert !SameMeaning(Plain(), cat, db, AggregateStack(table, first, second), 2,
                        AggregateRewrite(table, first, second), 2);
  }

  /** `group_by(keys).agg(first).agg(second)`. */
  function GroupedStack(table: string, keys: seq<ColumnExpr>, first: seq<Measure>, second: seq<Measure>): (plan: Store)
    ensures IsStack(plan)
  {
    [Read(table), GroupBy(0, keys), Aggregate(1, [], first), Aggregate(2, [], second)]
  }

  function GroupedRewrite(
      table: string, keys: seq<ColumnExpr>, first: seq<Measure>, second: seq<Measure>): (rw: Store)
  {
    [Read(table), GroupBy(0, keys), Aggregate(0, keys, first), Aggregate(0, keys, first + second)]
  }

  /** `group_by(keys).agg(first)` at the bottom of a stack fuses. */
  lemma ReachedFused(plan: Store, table: string, keys: seq<ColumnExpr>, first: seq<Measure>)
    requires IsStack(plan) && |plan| >= 3
    requires plan[0] == Read(table) && plan[1] == GroupBy(0, keys) && plan[2] == Aggregate(1, [], first)
    ensures Reached(plan, 3, [Read(table), GroupBy(0, keys), Aggregate(0, keys, first)], [0, 1, 2])
  {
    ReachedRead(plan);
    ReachedNext(plan, 1, [Read(table)], [0]);
    OnRead(table, plan[1]);
    assert [Read(table)] + [plan[1]] == [Read(table), GroupBy(0, keys)];
    ReachedNext(plan, 2, [Read(table), GroupBy(0, keys)], [0, 1]);
    assert [Read(table), GroupBy(0, keys)] + [Aggregate(0, keys, first)]
        == [Read(table), GroupBy(0, keys), Aggregate(0, keys, first)];
  }

  lemma GroupedPass(table: string, keys: seq<ColumnExpr>, first: seq<Measure>, second: seq<Measure>)
    ensures Reached(GroupedStack(table, keys, first, second), 4, GroupedRewrite(table, keys, first, second),
                    [0, 1, 2, 3])
  {
    var plan, rw := GroupedStack(table, keys, first, second), GroupedRewrite(table, keys, first, second);
    ReachedFused(plan, table, keys, first);
    assert rw[..3] == [Read(table), GroupBy(0, keys), Aggregate(0, keys, first)];
    ReachedNext(plan, 3, rw[..3], [0, 1, 2]);
    assert rw[..3] + [rw[3]] == rw;
  }

  lemma GroupedKeepsAs(
      cat: Catalog, table: string, keys: seq<ColumnExpr>, first: seq<Measure>, second: seq<Measure>)
    ensures PassKeeps(cat, GroupedStack(table, keys, first, second))
        <==> AlwaysSame(cat, GroupedStack(table, keys, first, second), 3,
                        GroupedRewrite(table, keys, first, second), 3)
  {
    GroupedPass(table, keys, first, second);
    PassKeepsAs(cat, GroupedStack(table, keys, first, second), GroupedRewrite(table, keys, first, second),
                [0, 1, 2, 3], 3);
  }

  lemma GroupedMeaning(eng: Engine, cat: Catalog, db: Database, table: string, keys: seq<ColumnExpr>,
                       first: seq<Measure>, second: seq<Measure>)
    ensures var plan, rw := GroupedStack(table, keys, first, second), GroupedRewrite(table, keys, first, second);
            var names, t := cat(table), Base(cat, db, table);
            && Columns(cat, plan, 3) == GroupNames(keys) + MeasureNames(second)
            && Columns(cat, rw, 3) == GroupNames(keys) + MeasureNames(first + second)
            && Eval(eng, cat, db, plan, 3)
                 == EvalAggregate(eng, GroupNames(keys) + MeasureNames(first), EvalAggregate(eng, names, t, keys, first),
                                  [], second)
            && Eval(eng, cat, db, rw, 3) == EvalAggregate(eng, names, t, keys, first + second)
  {
    var plan, rw := GroupedStack(table, keys, first, second), GroupedRewrite(table, keys, first, second);
    assert plan[1].Inputs()[0] == 0 && plan[2].Inputs()[0] == 1 && plan[3].Inputs()[0] == 2 && rw[3].Inputs()[0] == 0;
    assert AggregatePrefix(plan, 2) == GroupNames(keys) && AggregatePrefix(plan, 3) == GroupNames(keys);
    assert AggregatePrefix(rw, 3) == GroupNames(keys);
    assert AggregateSource(plan, 2) == (0, keys) && AggregateSource(plan, 3) == (2, []);
    assert AggregateSource(rw, 3) == (0, keys);
  }

  /** The upper measures are refused over the groups and over the rows alike, or no group is ever formed. */
  predicate GroupsIdle(names: seq<string>, keys: seq<ColumnExpr>, measures: seq<Measure>) {
    if keys == [] then Ungrouped(names, measures)
    else !AllResolve(names, keys)
         || (!MeasuresResolve(names, measures) && !MeasuresResolve(GroupNames(keys), measures))
  }

  /** An aggregate over a grouped aggregate: merging keeps the meaning exactly when the lower one has no measures and
      its groups are idle. */
  lemma GroupedStackExactly(
      cat: Catalog, table: string, keys: seq<ColumnExpr>, first: seq<Measure>, second: seq<Measure>)
    ensures PassKeeps(cat, GroupedStack(table, keys, first, second))
        <==> first == [] && GroupsIdle(cat(table), keys, second)
  {
    GroupedKeepsAs(cat, table, keys, first, second);
    if first == [] && GroupsIdle(cat(table), keys, second) {
      GroupedStackKeeps(cat, table, keys, first, second);
    } else {
      GroupedStackFails(cat, table, keys, first, second);
    }
  }

  lemma GroupedStackKeeps(
      cat: Catalog, table: string, keys: seq<ColumnExpr>, first: seq<Measure>, second: seq<Measure>)
    requires first == [] && GroupsIdle(cat(table), keys, second)
    ensures AlwaysSame(cat, GroupedStack(table, keys, first, second), 3,
                       GroupedRewrite(table, keys, first, second), 3)
  {
    forall eng: Engine, db: Database
      ensures SameMeaning(eng, cat, db, GroupedStack(table, keys, first, second), 3,
                          GroupedRewrite(table, keys, first, second), 3)
    {
      IdleGroups(eng, cat, db, table, keys, second);
    }
  }

  lemma IdleGroups(
      eng: Engine, cat: Catalog, db: Database, table: string, keys: seq<ColumnExpr>, second: seq<Measure>)
    requires GroupsIdle(cat(table), keys, second)
    ensures SameMeaning(eng, cat, db, GroupedStack(table, keys, [], second), 3,
                        GroupedRewrite(table, keys, [], second), 3)
  {
    var names, t := cat(table), Base(cat, db, table);
    GroupedMeaning(eng, cat, db, table, keys, [], second);
    assert [] + second == second && GroupNames(keys) + MeasureNames([]) == GroupNames(keys);
    if keys == [] {
      NothingLeft(eng, names, t);
      UngroupedKeeps(eng, names, t, second);
    }
  }

  lemma GroupedStackFails(
      cat: Catalog, table: string, keys: seq<ColumnExpr>, first: seq<Measure>, second: seq<Measure>)
    requires !(first == [] && GroupsIdle(cat(table), keys, second))
    ensures !AlwaysSame(cat, GroupedStack(table, keys, first, second), 3,
                        GroupedRewrite(table, keys, first, second), 3)
  {
    var names, db := cat(table), Holding(cat(table), [Null, Null]);
    GroupedMeaning(Plain(), cat, db, table, keys, first, second);
    if first == [] {
      assert [] + second == second && GroupNames(keys) + MeasureNames([]) == GroupNames(keys);
      if keys == [] {
        NothingLeft(Plain(), names, Base(cat, db, table));
        UngroupedDiffers(names, second);
      } else {
        GroupedResultsDiffer(Plain(), names, Filled(names, [Null, Null]), keys, second);
      }
    }
    assert !SameMeaning(Plain(), cat, db, GroupedStack(table, keys, first, second), 3,
                        GroupedRewrite(table, keys, first, second), 3);
  }

  /** One side is refused, or the one has a column per measure and the other its grouping columns besides. */
  lemma GroupedResultsDiffer(
      eng: Engine, names: seq<string>, t: Table, keys: seq<ColumnExpr>, measures: seq<Measure>)
    requires keys != [] && !GroupsIdle(names, keys, measures)
    ensures EvalAggregate(eng, GroupNames(keys), EvalAggregate(eng, names, Some(t), keys, []), [], measures)
         != EvalAggregate(eng, names, Some(t), keys, measures)
  {
  }

  // ----- aggregates that fuse -----

  /** `group_by(keys).filter(true).agg(measures)`. */
  function FilteredStack(table: string, keys: seq<ColumnExpr>, measures: seq<Measure>): (plan: Store)
    ensures IsStack(plan)
  {
    [Read(table), GroupBy(0, keys), Filter(1, AlwaysTrue()), Aggregate(2, [], measures)]
  }

  function FilteredRewrite(table: string, keys: seq<ColumnExpr>, measures: seq<Measure>): (rw: Store) {
    [Read(table), GroupBy(0, keys), Aggregate(0, keys, measures)]
  }

  lemma FilteredPass(table: string, keys: seq<ColumnExpr>, measures: seq<Measure>)
    ensures Reached(FilteredStack(table, keys, measures), 4, FilteredRewrite(table, keys, measures), [0, 1, 1, 2])
  {
    var plan, rw := FilteredStack(table, keys, measures), FilteredRewrite(table, keys, measures);
    ReachedRead(plan);
    ReachedNext(plan, 1, [Read(table)], [0]);
    OnRead(table, plan[1]);
    assert [Read(table)] + [plan[1]] == rw[..2];
    ReachedFilter(plan, 2, rw[..2], [0, 1]);
    ReachedNext(plan, 3, rw[..2], [0, 1, 1]);
    assert rw[..2] + [rw[2]] == rw;
  }

  lemma FilteredKeepsAs(cat: Catalog, table: string, keys: seq<ColumnExpr>, measures: seq<Measure>)
    ensures PassKeeps(cat, FilteredStack(table, keys, measures))
        <==> AlwaysSame(cat, FilteredStack(table, keys, measures), 3, FilteredRewrite(table, keys, measures), 2)
  {
    FilteredPass(table, keys, measures);
    PassKeepsAs(cat, FilteredStack(table, keys, measures), FilteredRewrite(table, keys, measures),
                [0, 1, 1, 2], 2);
  }

  lemma FilteredMeaning(
      eng: Engine, cat: Catalog, db: Database, table: string, keys: seq<ColumnExpr>, measures: seq<Measure>)
    ensures var plan, rw := FilteredStack(table, keys, measures), FilteredRewrite(table, keys, measures);
            var names, t := cat(table), Base(cat, db, table);
            && Columns(cat, plan, 3) == MeasureNames(measures)
            && Columns(cat, rw, 2) == GroupNames(keys) + MeasureNames(measures)
            && Eval(eng, cat, db, plan, 3)
                 == EvalAggregate(eng, GroupNames(keys), EvalUnary(eng, names, t, GroupBy(0, keys)), [], measures)
            && Eval(eng, cat, db, rw, 2) == EvalAggregate(eng, names, t, keys, measures)
  {
    var plan, rw := FilteredStack(table, keys, measures), FilteredRewrite(table, keys, measures);
    UnaryMeaning(eng, cat, db, plan, 1);
    UnaryMeaning(eng, cat, db, plan, 2);
    TrueFilterIdle(eng, Columns(cat, plan, 1), Eval(eng, cat, db, plan, 1), plan[2]);
    BareAggregate(eng, cat, db, plan, 3);
    assert rw[2].Inputs()[0] == 0;
    assert AggregateSource(rw, 2) == (0, keys) && AggregatePrefix(rw, 2) == GroupNames(keys);
  }

  /** Erasing a true filter between a grouping and an aggregate lets the two fuse, although the authored aggregate
      stands on the filter and has no groups. The meaning is kept exactly when there are no keys and the measures
      cannot tell the rows from the one row the grouping leaves. */
  lemma FilteredStackExactly(cat: Catalog, table: string, keys: seq<ColumnExpr>, measures: seq<Measure>)
    ensures PassKeeps(cat, FilteredStack(table, keys, measures)) <==> keys == [] && Ungrouped(cat(table), measures)
  {
    FilteredKeepsAs(cat, table, keys, measures);
    if keys == [] && Ungrouped(cat(table), measures) {
      FilteredStackKeeps(cat, table, keys, measures);
    } else {
      FilteredStackFails(cat, table, keys, measures);
    }
  }

  lemma FilteredStackKeeps(cat: Catalog, table: string, keys: seq<ColumnExpr>, measures: seq<Measure>)
    requires keys == [] && Ungrouped(cat(table), measures)
    ensures AlwaysSame(cat, FilteredStack(table, keys, measures), 3, FilteredRewrite(table, keys, measures), 2)
  {
    forall eng: Engine, db: Database
      ensures SameMeaning(eng, cat, db, FilteredStack(table, keys, measures), 3,
                          FilteredRewrite(table, keys, measures), 2)
    {
      FilteredMeaning(eng, cat, db, table, keys, measures);
      NothingLeft(eng, cat(table), Base(cat, db, table));
      UngroupedKeeps(eng, cat(table), Base(cat, db, table), measures);
    }
  }

  lemma FilteredStackFails(cat: Catalog, table: string, keys: seq<ColumnExpr>, measures: seq<Measure>)
    requires !(keys == [] && Ungrouped(cat(table), measures))
    ensures !AlwaysSame(cat, FilteredStack(table, keys, measures), 3, FilteredRewrite(table, keys, measures), 2)
  {
    var names, db := cat(table), Holding(cat(table), [Null, Null]);
    FilteredMeaning(Plain(), cat, db, table, keys, measures);
    if keys == [] {
      NothingLeft(Plain(), names, Base(cat, db, table));
      UngroupedDiffers(names, measures);
    }
    assert !SameMeaning(Plain(), cat, db, FilteredStack(table, keys, measures), 3,
                        FilteredRewrite(table, keys, measures), 2);
  }

  /** `group_by(keys).group_by([]).agg(measures)`. */
  function RegroupedStack(table: string, keys: seq<ColumnExpr>, measures: seq<Measure>): (plan: Store)
    ensures IsStack(plan)
  {
    [Read(table), GroupBy(0, keys), GroupBy(1, []), Aggregate(2, [], measures)]
  }

  function RegroupedRewrite(table: string, keys: seq<ColumnExpr>, measures: seq<Measure>): (rw: Store) {
    [Read(table), GroupBy(0, keys), GroupBy(1, []), Aggregate(1, [], measures)]
  }

  lemma RegroupedPass(table: string, keys: seq<ColumnExpr>, measures: seq<Measure>)
    ensures Reached(RegroupedStack(table, keys, measures), 4, RegroupedRewrite(table, keys, measures), [0, 1, 2, 3])
  {
    var plan, rw := RegroupedStack(table, keys, measures), RegroupedRewrite(table, keys, measures);
    ReachedRead(plan);
    ReachedNext(plan, 1, [Read(table)], [0]);
    OnRead(table, plan[1]);
    assert [Read(table)] + [plan[1]] == rw[..2];
    ReachedNext(plan, 2, rw[..2], [0, 1]);
    assert rw[..2] + [rw[2]] == rw[..3];
    ReachedNext(plan, 3, rw[..3], [0, 1, 2]);
    assert rw[..3] + [rw[3]] == rw;
  }

  lemma RegroupedKeepsAs(cat: Catalog, table: string, keys: seq<ColumnExpr>, measures: seq<Measure>)
    ensures PassKeeps(cat, RegroupedStack(table, keys, measures))
        <==> AlwaysSame(cat, RegroupedStack(table, keys, measures), 3, RegroupedRewrite(table, keys, measures), 3)
  {
    RegroupedPass(table, keys, measures);
    PassKeepsAs(cat, RegroupedStack(table, keys, measures), RegroupedRewrite(table, keys, measures),
                [0, 1, 2, 3], 3);
  }

  lemma RegroupedMeaning(
      eng: Engine, cat: Catalog, db: Database, table: string, keys: seq<ColumnExpr>, measures: seq<Measure>)
    ensures var plan, rw := RegroupedStack(table, keys, measures), RegroupedRewrite(table, keys, measures);
            var names, t := cat(table), Base(cat, db, table);
            && Columns(cat, plan, 3) == MeasureNames(measures)
            && Columns(cat, rw, 3) == GroupNames(keys) + MeasureNames(measures)
            && Eval(eng, cat, db, plan, 3)
                 == EvalAggregate(eng, GroupNames(keys), EvalUnary(eng, names, t, GroupBy(0, keys)), [], measures)
            && Eval(eng, cat, db, rw, 3) == EvalAggregate(eng, names, t, keys, measures)
  {
    var plan, rw := RegroupedStack(table, keys, measures), RegroupedRewrite(table, keys, measures);
    UnaryMeaning(eng, cat, db, plan, 1);
    assert plan[2].Inputs()[0] == 1 && plan[3].Inputs()[0] == 2 && rw[3].Inputs()[0] == 1 && rw[1].Inputs()[0] == 0;
    assert AggregateSource(plan, 3) == (1, []) && AggregatePrefix(plan, 3) == [];
    assert AggregateSource(rw, 3) == (0, keys) && AggregatePrefix(rw, 3) == GroupNames(keys);
  }

  /** Fusing with an empty grouping exposes a grouping below it: the meaning is kept exactly when that one is empty too
      and the measures cannot tell the rows from the one row it leaves. */
  lemma RegroupedStackExactly(cat: Catalog, table: string, keys: seq<ColumnExpr>, measures: seq<Measure>)
    ensures PassKeeps(cat, RegroupedStack(table, keys, measures)) <==> keys == [] && Ungrouped(cat(table), measures)
  {
    RegroupedKeepsAs(cat, table, keys, measures);
    if keys == [] && Ungrouped(cat(table), measures) {
      RegroupedStackKeeps(cat, table, keys, measures);
    } else {
      RegroupedStackFails(cat, table, keys, measures);
    }
  }

  lemma RegroupedStackKeeps(cat: Catalog, table: string, keys: seq<ColumnExpr>, measures: seq<Measure>)
    requires keys == [] && Ungrouped(cat(table), measures)
    ensures AlwaysSame(cat, RegroupedStack(table, keys, measures), 3, RegroupedRewrite(table, keys, measures), 3)
  {
    forall eng: Engine, db: Database
      ensures SameMeaning(eng, cat, db, RegroupedStack(table, keys, measures), 3,
                          RegroupedRewrite(table, keys, measures), 3)
    {
      RegroupedMeaning(eng, cat, db, table, keys, measures);
      NothingLeft(eng, cat(table), Base(cat, db, table));
      UngroupedKeeps(eng, cat(table), Base(cat, db, table), measures);
    }
  }

  lemma RegroupedStackFails(cat: Catalog, table: string, keys: seq<ColumnExpr>, measures: seq<Measure>)
    requires !(keys == [] && Ungrouped(cat(table), measures))
    ensures !AlwaysSame(cat, RegroupedStack(table, keys, measures), 3, RegroupedRewrite(table, keys, measures), 3)
  {
    var names, db := cat(table), Holding(cat(table), [Null, Null]);
    RegroupedMeaning(Plain(), cat, db, table, keys, measures);
    if keys == [] {
      NothingLeft(Plain(), names, Base(cat, db, table));
      UngroupedDiffers(names, measures);
    }
    assert !SameMeaning(Plain(), cat, db, RegroupedStack(table, keys, measures), 3,
                        RegroupedRewrite(table, keys, measures), 3);
  }

  // ----- an aggregate across a filter, and a grouping across an aggregate -----

  /** `group_by(keys).agg(first).filter(true).agg(second)`. */
  function FilteredPair(table: string, keys: seq<ColumnExpr>, first: seq<Measure>, second: seq<Measure>): (plan: Store)
    ensures IsStack(plan)
  {
    [Read(table), GroupBy(0, keys), Aggregate(1, [], first), Filter(2, AlwaysTrue()), Aggregate(3, [], second)]
  }

  lemma FilteredPairKeepsAs(
      cat: Catalog, table: string, keys: seq<ColumnExpr>, first: seq<Measure>, second: seq<Measure>)
    ensures PassKeeps(cat, FilteredPair(table, keys, first, second))
        <==> AlwaysSame(cat, FilteredPair(table, keys, first, second), 4,
                        GroupedRewrite(table, keys, first, second), 3)
  {
    FilteredPairPass(table, keys, first, second);
    PassKeepsAs(cat, FilteredPair(table, keys, first, second), GroupedRewrite(table, keys, first, second),
                [0, 1, 2, 2, 3], 3);
  }

  lemma FilteredPairPass(table: string, keys: seq<ColumnExpr>, first: seq<Measure>, second: seq<Measure>)
    ensures Reached(FilteredPair(table, keys, first, second), 5, GroupedRewrite(table, keys, first, second),
                    [0, 1, 2, 2, 3])
  {
    var plan, rw := FilteredPair(table, keys, first, second), GroupedRewrite(table, keys, first, second);
    ReachedFused(plan, table, keys, first);
    assert rw[..3] == [Read(table), GroupBy(0, keys), Aggregate(0, keys, first)];
    ReachedFilter(plan, 3, rw[..3], [0, 1, 2]);
    ReachedNext(plan, 4, rw[..3], [0, 1, 2, 2]);
    assert rw[..3] + [rw[3]] == rw;
  }

  lemma FilteredPairMeaning(eng: Engine, cat: Catalog, db: Database, table: string, keys: seq<ColumnExpr>,
                            first: seq<Measure>, second: seq<Measure>)
    ensures var plan, names, t := FilteredPair(table, keys, first, second), cat(table), Base(cat, db, table);
            && Columns(cat, plan, 4) == MeasureNames(second)
            && Eval(eng, cat, db, plan, 4)
                 == EvalAggregate(eng, GroupNames(keys) + MeasureNames(first), EvalAggregate(eng, names, t, keys, first),
                                  [], second)
  {
    var plan := FilteredPair(table, keys, first, second);
    assert plan[1].Inputs()[0] == 0 && plan[2].Inputs()[0] == 1;
    assert AggregatePrefix(plan, 2) == GroupNames(keys) && AggregateSource(plan, 2) == (0, keys);
    UnaryMeaning(eng, cat, db, plan, 3);
    TrueFilterIdle(eng, Columns(cat, plan, 2), Eval(eng, cat, db, plan, 2), plan[3]);
    BareAggregate(eng, cat, db, plan, 4);
  }

  /** Across an erased filter two aggregates merge: the meaning is kept exactly when there are no groups, the lower one
      has no measures, and the upper ones cannot tell its rows from its one result row. */
  lemma FilteredPairExactly(
      cat: Catalog, table: string, keys: seq<ColumnExpr>, first: seq<Measure>, second: seq<Measure>)
    ensures PassKeeps(cat, FilteredPair(table, keys, first, second))
        <==> keys == [] && first == [] && Ungrouped(cat(table), second)
  {
    FilteredPairKeepsAs(cat, table, keys, first, second);
    if keys == [] && first == [] && Ungrouped(cat(table), second) {
      FilteredPairKeeps(cat, table, keys, first, second);
    } else {
      FilteredPairFails(cat, table, keys, first, second);
    }
  }

  lemma FilteredPairKeeps(
      cat: Catalog, table: string, keys: seq<ColumnExpr>, first: seq<Measure>, second: seq<Measure>)
    requires keys == [] && first == [] && Ungrouped(cat(table), second)
    ensures AlwaysSame(cat, FilteredPair(table, keys, first, second), 4, GroupedRewrite(table, keys, first, second), 3)
  {
    forall eng: Engine, db: Database
      ensures SameMeaning(eng, cat, db, FilteredPair(table, keys, first, second), 4,
                          GroupedRewrite(table, keys, first, second), 3)
    {
      FilteredPairMeaning(eng, cat, db, table, keys, first, second);
      GroupedMeaning(eng, cat, db, table, keys, first, second);
      assert [] + second == second && GroupNames(keys) + MeasureNames(first) == [];
      NothingLeft(eng, cat(table), Base(cat, db, table));
      UngroupedKeeps(eng, cat(table), Base(cat, db, table), second);
    }
  }

  lemma FilteredPairFails(
      cat: Catalog, table: string, keys: seq<ColumnExpr>, first: seq<Measure>, second: seq<Measure>)
    requires !(keys == [] && first == [] && Ungrouped(cat(table), second))
    ensures !AlwaysSame(cat, FilteredPair(table, keys, first, second), 4, GroupedRewrite(table, keys, first, second), 3)
  {
    var names, db := cat(table), Holding(cat(table), [Null, Null]);
    FilteredPairMeaning(Plain(), cat, db, table, keys, first, second);
    GroupedMeaning(Plain(), cat, db, table, keys, first, second);
    if keys == [] && first == [] {
      assert [] + second == second && GroupNames(keys) + MeasureNames(first) == [];
      NothingLeft(Plain(), names, Base(cat, db, table));
      UngroupedDiffers(names, second);
    } else {
      assert |GroupNames(keys) + MeasureNames(first + second)| > |MeasureNames(second)|;
    }
    assert !SameMeaning(Plain(), cat, db, FilteredPair(table, keys, first, second), 4,
                        GroupedRewrite(table, keys, first, second), 3);
  }

  /** `group_by(keys).agg(first).group_by([]).agg(second)`. */
  function SplitPair(table: string, keys: seq<ColumnExpr>, first: seq<Measure>, second: seq<Measure>): (plan: Store)
    ensures IsStack(plan)
  {
    [Read(table), GroupBy(0, keys), Aggregate(1, [], first), GroupBy(2, []), Aggregate(3, [], second)]
  }

  function SplitRewrite(table: string, keys: seq<ColumnExpr>, first: seq<Measure>, second: seq<Measure>): (rw: Store) {
    [Read(table), GroupBy(0, keys), Aggregate(0, keys, first), GroupBy(2, []), Aggregate(2, [], second)]
  }

  lemma SplitKeepsAs(cat: Catalog, table: string, keys: seq<ColumnExpr>, first: seq<Measure>, second: seq<Measure>)
    ensures PassKeeps(cat, SplitPair(table, keys, first, second))
        <==> AlwaysSame(cat, SplitPair(table, keys, first, second), 4, SplitRewrite(table, keys, first, second), 4)
  {
    SplitPass(table, keys, first, second);
    PassKeepsAs(cat, SplitPair(table, keys, first, second), SplitRewrite(table, keys, first, second),
                [0, 1, 2, 3, 4], 4);
  }

  lemma SplitPass(table: string, keys: seq<ColumnExpr>, first: seq<Measure>, second: seq<Measure>)
    ensures Reached(SplitPair(table, keys, first, second), 5, SplitRewrite(table, keys, first, second),
                    [0, 1, 2, 3, 4])
  {
    var plan, rw := SplitPair(table, keys, first, second), SplitRewrite(table, keys, first, second);
    ReachedFused(plan, table, keys, first);
    assert rw[..3] == [Read(table), GroupBy(0, keys), Aggregate(0, keys, first)];
    ReachedNext(plan, 3, rw[..3], [0, 1, 2]);
    assert rw[..3] + [rw[3]] == rw[..4];
    ReachedNext(plan, 4, rw[..4], [0, 1, 2, 3]);
    assert rw[..4] + [rw[4]] == rw;
  }

  lemma SplitMeaning(eng: Engine, cat: Catalog, db: Database, table: string, keys: seq<ColumnExpr>,
                     first: seq<Measure>, second: seq<Measure>)
    ensures var plan, rw := SplitPair(table, keys, first, second), SplitRewrite(table, keys, first, second);
            && Columns(cat, plan, 4) == MeasureNames(second)
            && Columns(cat, rw, 4) == GroupNames(keys) + MeasureNames(second)
            && Eval(eng, cat, db, rw, 4) == Eval(eng, cat, db, plan, 4)
  {
    var plan, rw := SplitPair(table, keys, first, second), SplitRewrite(table, keys, first, second);
    assert plan[1].Inputs()[0] == 0 && plan[2].Inputs()[0] == 1 && plan[3].Inputs()[0] == 2 && plan[4].Inputs()[0] == 3;
    assert rw[2].Inputs()[0] == 0 && rw[4].Inputs()[0] == 2;
    assert AggregatePrefix(plan, 2) == GroupNames(keys) == AggregatePrefix(rw, 2) == AggregatePrefix(rw, 4);
    assert AggregateSource(plan, 2) == (0, keys) == AggregateSource(rw, 2);
    assert AggregateSource(plan, 4) == (2, []) == AggregateSource(rw, 4);
    assert Columns(cat, plan, 2) == Columns(cat, rw, 2) && Eval(eng, cat, db, plan, 2) == Eval(eng, cat, db, rw, 2);
  }

  /** Fusing with an empty grouping exposes an aggregate below it, whose grouping names come back: the meaning is kept
      exactly when that one has no groups. */
  lemma SplitPairExactly(
      cat: Catalog, table: string, keys: seq<ColumnExpr>, first: seq<Measure>, second: seq<Measure>)
    ensures PassKeeps(cat, SplitPair(table, keys, first, second)) <==> keys == []
  {
    SplitKeepsAs(cat, table, keys, first, second);
    forall eng: Engine, db: Database
      ensures SameMeaning(eng, cat, db, SplitPair(table, keys, first, second), 4,
                          SplitRewrite(table, keys, first, second), 4)
          <==> keys == []
    {
      SplitMeaning(eng, cat, db, table, keys, first, second);
    }
    var some := SameMeaning(Plain(), cat, Holding([], []), SplitPair(table, keys, first, second), 4,
                            SplitRewrite(table, keys, first, second), 4);
    assert some <==> keys == [];
  }

  // ----- plans the pass changes -----

  function CountRows(): Measure {
    Measure("count", [], false, None, [], "", None)
  }

  /** The pass does not keep `group_by([k]).filter(true).agg([count()])`. */
  lemma FilteredGroupChanges(cat: Catalog, table: string, k: string)
    ensures !PassKeeps(cat, FilteredStack(table, [Col(k)], [CountRows()]))
  {
    FilteredStackExactly(cat, table, [Col(k)], [CountRows()]);
  }

  /** Nor `group_by([k]).agg([count()]).agg([count()])`. */
  lemma GroupedTwiceChanges(cat: Catalog, table: string, k: string)
    ensures !PassKeeps(cat, GroupedStack(table, [Col(k)], [CountRows()], [CountRows()]))
  {
    GroupedStackExactly(cat, table, [Col(k)], [CountRows()], [CountRows()]);
  }

  /** Nor `agg([count()]).agg([count()])`. */
  lemma CountTwiceChanges(cat: Catalog, table: string)
    ensures !PassKeeps(cat, AggregateStack(table, [CountRows()], [CountRows()]))
  {
    AggregateStackExactly(cat, table, [CountRows()], [CountRows()]);
  }

  /** Nor `order_by([a]).order_by([b])`, whichever columns a and b are. */
  lemma OrderTwiceChanges(cat: Catalog, table: string, a: string, b: string)
    requires a in cat(table) && b in cat(table)
    ensures !PassKeeps(cat, Stack(table, OrderBy(0, [Col(a)]), OrderBy(1, [Col(b)])))
  {
    OrderStackExactly(cat, table, [Col(a)], [Col(b)]);
    assert References(Col(b)) == {b};
    assert Orderable(cat(table), [Col(b)]);
  }
}
