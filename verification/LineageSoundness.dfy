/** Lineage is sound: a read column that no lineage path leads from cannot influence an output column.

    Two databases that agree on every read column reachable backwards from output column f give the same column f,
    for every backend. The conditions are stated per node kind, as guards on the plan; they are exactly what it takes
    for a node's edges to reach everything the node reads. */
module LineageSoundness {
  import opened Names
  import opened Tables
  import opened Expressions
  import opened Plans
  import opened Wrappers
  import opened Reachability
  import opened Lineage
  import opened LineageReach
  import opened LineageReads
  import opened LineageSlices
  import LineageShape

  // ----- reachability along edges -----

  /** Backward reachability from output field f of the tip. */
  least predicate Influences(
    cat: Catalog, plan: Store, edges: seq<Edge>, tip: nat, f: nat, node: nat, ordinal: nat)
  {
    || (node == tip && ordinal == f)
    || exists e :: e in edges && Covers(cat, plan, e.source, node, ordinal)
         && (IsControl(e)
             || (e.destination.Field? && e.destination.ordinal.Some?
                 && Influences(cat, plan, edges, tip, f, e.destination.node, e.destination.ordinal.value)))
  }

  predicate Lands(e: Edge, s: Fields) {
    e.destination.Field? && e.destination.ordinal.Some? && (e.destination.node, e.destination.ordinal.value) in s
  }

  /** Backward closed: with a destination, or for a control edge, the sources belong too. */
  ghost predicate Closed(cat: Catalog, plan: Store, edges: seq<Edge>, s: Fields) {
    forall e, n: nat, o: nat ::
      e in edges && Covers(cat, plan, e.source, n, o) && (IsControl(e) || Lands(e, s)) ==> (n, o) in s
  }

  ghost predicate Within(some: seq<Edge>, edges: seq<Edge>) {
    forall e :: e in some ==> e in edges
  }

  /** What a followed edge carries is in every backward-closed set. */
  lemma CarriedClosed(cat: Catalog, plan: Store, edges: seq<Edge>, s: Fields, e: Edge, q: Probe)
    requires Closed(cat, plan, edges, s) && e in edges && Carries(e, q)
    requires q.source < |plan| && q.width == |Columns(cat, plan, q.source)|
    requires q.column.Some? ==> (q.node, q.column.value) in s
    ensures (q.source, q.ordinal) in s
  {
    assert Covers(cat, plan, e.source, q.source, q.ordinal);
    assert IsControl(e) || Lands(e, s);
  }

  /** What the edges of a node reach lies in every backward-closed set: always for the rows, and with a column for the
      column. */
  lemma ReachedClosed(
      cat: Catalog, plan: Store, edges: seq<Edge>, s: Fields, i: nat, column: Option<nat>, n: nat, o: nat)
    requires i < |plan| && Closed(cat, plan, edges, s) && Within(NodeEdges(cat, plan, i), edges)
    requires ReachedAt(cat, plan, i, column, n, o) && (column.Some? ==> (i, column.value) in s)
    ensures (n, o) in s
  {
    OwnReachedClosed(cat, plan, edges, s, NodeEdges(cat, plan, i), Probe(i, column, n, o, |Columns(cat, plan, n)|));
  }

  lemma OwnReachedClosed(cat: Catalog, plan: Store, edges: seq<Edge>, s: Fields, own: seq<Edge>, q: Probe)
    requires Closed(cat, plan, edges, s) && Within(own, edges) && Reached(own, q)
    requires q.source < |plan| && q.width == |Columns(cat, plan, q.source)|
    requires q.column.Some? ==> (q.node, q.column.value) in s
    ensures (q.source, q.ordinal) in s
  {
    ReachedSome(own, q);
    var k :| 0 <= k < |own| && Carries(own[k], q);
    CarriedClosed(cat, plan, edges, s, own[k], q);
  }

  /** A set closed under the edges of a node that meets its condition holds everything the node reads. */
  lemma ClosedHolds(cat: Catalog, plan: Store, edges: seq<Edge>, s: Fields, i: nat)
    requires i < |plan| && Aligned(plan, i) && Traceable(cat, plan, i)
    requires Closed(cat, plan, edges, s) && Within(NodeEdges(cat, plan, i), edges)
    ensures ReadsHeld(cat, plan, i, s)
  {
    TraceableExactly(cat, plan, i);
    CompleteHolds(cat, plan, edges, s, i, None, RowReads(cat, plan, i));
    forall c: nat ensures ColumnHeld(cat, plan, i, c, s) {
      if c < |Columns(cat, plan, i)| && (i, c) in s {
        assert ColumnComplete(cat, plan, i, c);
        CompleteHolds(cat, plan, edges, s, i, Some(c), ColumnReads(cat, plan, i, c));
      }
    }
  }

  lemma CompleteHolds(
      cat: Catalog, plan: Store, edges: seq<Edge>, s: Fields, i: nat, column: Option<nat>, fields: set<(nat, nat)>)
    requires i < |plan| && Closed(cat, plan, edges, s) && Within(NodeEdges(cat, plan, i), edges)
    requires Complete(cat, plan, i, column, fields) && (column.Some? ==> (i, column.value) in s)
    ensures AllIn(fields, s)
  {
    forall f | f in fields ensures f in s {
      assert f == (f.0, f.1) && Asked(f.0, f.1) && ReachedAt(cat, plan, i, column, f.0, f.1);
      ReachedClosed(cat, plan, edges, s, i, column, f.0, f.1);
    }
  }

  /** What some edges of node i carry to its rows or to one of its columns, with the column itself. */
  ghost function Carried(cat: Catalog, plan: Store, i: nat, edges: seq<Edge>, column: Option<nat>): Fields {
    iset n: nat, o: nat |
      || (n == i && column == Some(o))
      || (n < |plan| && Reached(edges, Probe(i, column, n, o, |Columns(cat, plan, n)|))) :: (n, o)
  }

  /** That set is closed under well-formed edges: they start at earlier nodes and end at this one. */
  lemma CarriedIsClosed(cat: Catalog, plan: Store, i: nat, edges: seq<Edge>, column: Option<nat>)
    requires i < |plan| && LineageShape.AllWellFormed(cat, plan, i, edges)
    ensures Closed(cat, plan, edges, Carried(cat, plan, i, edges, column))
  {
    forall e, n: nat, o: nat |
      e in edges && Covers(cat, plan, e.source, n, o)
      && (IsControl(e) || Lands(e, Carried(cat, plan, i, edges, column)))
      ensures (n, o) in Carried(cat, plan, i, edges, column)
    {
      var k :| 0 <= k < |edges| && edges[k] == e;
      assert LineageShape.WellFormed(cat, plan, i, edges[k]);
      if !IsControl(e) {
        NothingFromItself(cat, plan, i, edges, column, e.destination.ordinal.value);
      }
      assert Carries(edges[k], Probe(i, column, n, o, |Columns(cat, plan, n)|));
      ReachedSome(edges, Probe(i, column, n, o, |Columns(cat, plan, n)|));
    }
  }

  /** No edge of a node starts at the node's own fields. */
  lemma NothingFromItself(cat: Catalog, plan: Store, i: nat, edges: seq<Edge>, column: Option<nat>, o: nat)
    requires i < |plan| && LineageShape.AllWellFormed(cat, plan, i, edges)
    ensures !Reached(edges, Probe(i, column, i, o, |Columns(cat, plan, i)|))
  {
    forall k | 0 <= k < |edges| ensures !Carries(edges[k], Probe(i, column, i, o, |Columns(cat, plan, i)|)) {
      assert LineageShape.WellFormed(cat, plan, i, edges[k]);
    }
    ReachedSome(edges, Probe(i, column, i, o, |Columns(cat, plan, i)|));
  }

  /** Every set closed under the node's edges holds what the node reads. */
  ghost predicate AlwaysHeld(cat: Catalog, plan: Store, i: nat)
    requires i < |plan|
  {
    forall s: Fields {:trigger ReadsHeld(cat, plan, i, s)} ::
      Closed(cat, plan, NodeEdges(cat, plan, i), s) ==> ReadsHeld(cat, plan, i, s)
  }

  /** Main result on one node: following its edges backwards always finds everything it reads exactly when it meets its
      condition. */
  lemma HeldExactly(cat: Catalog, plan: Store, i: nat)
    requires i < |plan| && Aligned(plan, i)
    ensures AlwaysHeld(cat, plan, i) <==> Traceable(cat, plan, i)
  {
    var edges := NodeEdges(cat, plan, i);
    if Traceable(cat, plan, i) {
      forall s: Fields | Closed(cat, plan, edges, s) ensures ReadsHeld(cat, plan, i, s) {
        ClosedHolds(cat, plan, edges, s, i);
      }
    }
    if AlwaysHeld(cat, plan, i) {
      HeldComplete(cat, plan, i);
      TraceableExactly(cat, plan, i);
    }
  }

  lemma HeldComplete(cat: Catalog, plan: Store, i: nat)
    requires i < |plan| && AlwaysHeld(cat, plan, i)
    ensures EdgesComplete(cat, plan, i)
  {
    HeldRows(cat, plan, i);
    forall c: nat ensures ColumnComplete(cat, plan, i, c) {
      if c < |Columns(cat, plan, i)| {
        HeldColumn(cat, plan, i, c);
      }
    }
  }

  lemma HeldRows(cat: Catalog, plan: Store, i: nat)
    requires i < |plan| && AlwaysHeld(cat, plan, i)
    ensures Complete(cat, plan, i, None, RowReads(cat, plan, i))
  {
    var edges := NodeEdges(cat, plan, i);
    LineageShape.NodeEdgesWellFormed(cat, plan, i);
    CarriedIsClosed(cat, plan, i, edges, None);
    assert ReadsHeld(cat, plan, i, Carried(cat, plan, i, edges, None));
    RowsEarlier(cat, plan, i);
    CarriedComplete(cat, plan, i, None, RowReads(cat, plan, i));
  }

  lemma HeldColumn(cat: Catalog, plan: Store, i: nat, c: nat)
    requires i < |plan| && c < |Columns(cat, plan, i)| && AlwaysHeld(cat, plan, i)
    ensures Complete(cat, plan, i, Some(c), ColumnReads(cat, plan, i, c))
  {
    var edges := NodeEdges(cat, plan, i);
    LineageShape.NodeEdgesWellFormed(cat, plan, i);
    CarriedIsClosed(cat, plan, i, edges, Some(c));
    assert ReadsHeld(cat, plan, i, Carried(cat, plan, i, edges, Some(c)));
    assert ColumnHeld(cat, plan, i, c, Carried(cat, plan, i, edges, Some(c)));
    ColumnEarlier(cat, plan, i, c);
    CarriedComplete(cat, plan, i, Some(c), ColumnReads(cat, plan, i, c));
  }

  /** Fields of earlier nodes that are carried are reached. */
  lemma CarriedComplete(cat: Catalog, plan: Store, i: nat, column: Option<nat>, fields: set<(nat, nat)>)
    requires i < |plan| && AllIn(fields, Carried(cat, plan, i, NodeEdges(cat, plan, i), column))
    requires forall f :: f in fields ==> f.0 < i
    ensures Complete(cat, plan, i, column, fields)
  {
    forall n, o | (n, o) in fields ensures ReachedAt(cat, plan, i, column, n, o) {
      assert (n, o) in Carried(cat, plan, i, NodeEdges(cat, plan, i), column);
    }
  }

  /** Every node below the tip meets its condition, and aggregates keep their width. */
  predicate AllTraceable(cat: Catalog, plan: Store, tip: nat)
    requires tip < |plan|
  {
    forall i: nat :: i < |plan| && Feeds(plan, i, tip) ==> Aligned(plan, i) && Traceable(cat, plan, i)
  }

  /** Every node below the tip contributes its edges. */
  lemma {:induction false} GraphContains(cat: Catalog, plan: Store, ids: seq<nat>, i: nat)
    requires forall k :: 0 <= k < |ids| ==> ids[k] < |plan|
    requires i in ids
    ensures Within(NodeEdges(cat, plan, i), GraphEdges(cat, plan, ids))
    decreases |ids|
  {
    var n := |ids| - 1;
    var front, last := GraphEdges(cat, plan, ids[..n]), NodeEdges(cat, plan, ids[n]);
    assert GraphEdges(cat, plan, ids) == front + last;
    if i != ids[n] {
      assert i in ids[..n];
      GraphContains(cat, plan, ids[..n], i);
    }
  }

  /** In a plan that meets the conditions every backward-closed set is a slice. */
  lemma ClosedSlices(cat: Catalog, plan: Store, tip: nat, s: Fields)
    requires tip < |plan| && AllTraceable(cat, plan, tip) && Closed(cat, plan, LineageGraph(cat, plan, tip), s)
    ensures Slice(cat, plan, tip, s)
  {
    forall i: nat | i < |plan| && Feeds(plan, i, tip) ensures ReadsHeld(cat, plan, i, s) {
      GraphContains(cat, plan, ReachableIds(plan, tip), i);
      ClosedHolds(cat, plan, LineageGraph(cat, plan, tip), s, i);
    }
  }

  /** The fields output column f depends on, by lineage. */
  ghost function Sources(cat: Catalog, plan: Store, tip: nat, f: nat): Fields
    requires tip < |plan|
  {
    iset n: nat, o: nat | Influences(cat, plan, LineageGraph(cat, plan, tip), tip, f, n, o) :: (n, o)
  }

  lemma SourcesClosed(cat: Catalog, plan: Store, tip: nat, f: nat)
    requires tip < |plan|
    ensures Closed(cat, plan, LineageGraph(cat, plan, tip), Sources(cat, plan, tip, f))
    ensures (tip, f) in Sources(cat, plan, tip, f)
  {
    var edges := LineageGraph(cat, plan, tip);
    assert Influences(cat, plan, edges, tip, f, tip, f);
    forall e, n: nat, o: nat |
      e in edges && Covers(cat, plan, e.source, n, o) && (IsControl(e) || Lands(e, Sources(cat, plan, tip, f)))
      ensures (n, o) in Sources(cat, plan, tip, f)
    {
      assert Influences(cat, plan, edges, tip, f, n, o);
    }
  }

  /** Main result. Databases that agree on every read column lineage traces output column f back to, and on the
      table sizes, give the same number of rows and the same column f, for every backend. */
  lemma LineageSound(eng: Engine, cat: Catalog, plan: Store, tip: nat, f: nat, db1: Database, db2: Database)
    requires tip < |plan| && f < |Columns(cat, plan, tip)| && AllTraceable(cat, plan, tip)
    requires RootsAgree(plan, tip, db1, db2, Sources(cat, plan, tip, f))
    ensures var r1, r2 := Eval(eng, cat, db1, plan, tip), Eval(eng, cat, db2, plan, tip);
            && r1.Some? == r2.Some?
            && (r1.Some? ==>
                  && r1.value.count == r2.value.count
                  && |r1.value.cols| == |r2.value.cols| == |Columns(cat, plan, tip)|
                  && r1.value.cols[f] == r2.value.cols[f])
  {
    var s := Sources(cat, plan, tip, f);
    SourcesClosed(cat, plan, tip, f);
    ClosedSlices(cat, plan, tip, s);
    SliceSound(eng, cat, plan, tip, f, db1, db2, s);
  }
}
