/** What the edges of a plan node reach: which input fields are sources of edges that bear on its rows or on a column. */
module LineageReach {
  import opened Names
  import opened Expressions
  import opened Plans
  import opened Wrappers
  import opened Lineage

  predicate Controls(relationship: Relationship, transformation: Transformation) {
    relationship in {Control, Grouping, JoinKey, Sort} || transformation == GeneratorStep
  }

  /** Edges that decide which rows exist, and so reach every field of the node and of everything above it. */
  predicate IsControl(e: Edge) {
    Controls(e.relationship, e.transformation)
  }

  /** A target stands for one field, or for every field of its node when the ordinal is unknown. */
  predicate Covers(cat: Catalog, plan: Store, t: Target, node: nat, ordinal: nat) {
    && t.Field? && t.node == node && node < |plan|
    && ordinal < |Columns(cat, plan, node)|
    && (t.ordinal.None? || t.ordinal.value == ordinal)
  }

  /** A question to the edges of `node`: does field `ordinal` of node `source`, which has `width` fields, reach the rows
      (no column) or one column? */
  datatype Probe = Probe(node: nat, column: Option<nat>, source: nat, ordinal: nat, width: nat)

  predicate Stands(t: Target, q: Probe) {
    && t.Field? && t.node == q.source && q.ordinal < q.width
    && (t.ordinal.None? || t.ordinal.value == q.ordinal)
  }

  /** An edge bears on the rows, or on the column it points to. */
  predicate Bears(destination: Target, relationship: Relationship, transformation: Transformation, q: Probe) {
    || Controls(relationship, transformation)
    || (q.column.Some? && destination.Field? && destination.node == q.node && destination.ordinal == q.column)
  }

  predicate Carries(e: Edge, q: Probe) {
    Stands(e.source, q) && Bears(e.destination, e.relationship, e.transformation, q)
  }

  /** Some edge carries the answer. */
  predicate Reached(edges: seq<Edge>, q: Probe)
    decreases |edges|
  {
    edges != [] && (Carries(edges[|edges| - 1], q) || Reached(edges[..|edges| - 1], q))
  }

  /** At some place in the list, to be exact. */
  lemma {:induction false} ReachedSome(edges: seq<Edge>, q: Probe)
    ensures Reached(edges, q) <==> exists k {:trigger Carries(edges[k], q)} :: 0 <= k < |edges| && Carries(edges[k], q)
    decreases |edges|
  {
    if edges != [] {
      var n := |edges| - 1;
      var front := edges[..n];
      ReachedSome(front, q);
      if Reached(front, q) {
        var k :| 0 <= k < |front| && Carries(front[k], q);
        assert Carries(edges[k], q);
      }
      if k :| 0 <= k < |edges| && Carries(edges[k], q) {
        if k < n {
          assert Carries(front[k], q);
        }
      }
    }
  }

  lemma {:induction false} ReachedOr(a: seq<Edge>, b: seq<Edge>, q: Probe)
    ensures Reached(a + b, q) <==> Reached(a, q) || Reached(b, q)
    decreases |b|
  {
    if b == [] {
      assert a + b == a;
    } else {
      var n, all := |b| - 1, a + b;
      ReachedOr(a, b[..n], q);
      assert all[..|all| - 1] == a + b[..n] && all[|all| - 1] == b[n];
    }
  }

  lemma OneReached(e: Edge, q: Probe)
    ensures Reached([e], q) <==> Carries(e, q)
  {
    assert [e][..0] == [];
  }

  // ----- columns behind names -----

  /** The columns some names resolve to. */
  function Resolved(names: seq<string>, refs: set<string>): (columns: set<nat>) {
    set x | x in refs && x in names :: FirstIndex(names, x)
  }

  /** The columns the edge of a name stands for: its only column, or all of them. */
  function NamedBy(names: seq<string>, x: string): (columns: set<nat>)
    ensures x in names ==> FirstIndex(names, x) in columns
    ensures forall o :: o in columns ==> o < |names|
  {
    if MatchCount(names, x) == 1 then {FirstIndex(names, x)} else set o: nat {:trigger names[o]} | o < |names|
  }

  function NamedAll(names: seq<string>, refs: set<string>): (columns: set<nat>)
    ensures forall o :: o in columns ==> o < |names|
  {
    set x, o | x in refs && o in NamedBy(names, x) :: o
  }

  /** The field asked about is one the names stand for. */
  predicate IsNamed(source: nat, names: seq<string>, refs: set<string>, q: Probe) {
    q.source == source && q.ordinal in NamedAll(names, refs)
  }

  /** The question is about fields of this width if it is about this node. */
  predicate Fits(source: nat, names: seq<string>, q: Probe) {
    q.source == source ==> q.width == |names|
  }

  lemma ResolvedNamed(names: seq<string>, refs: set<string>)
    ensures Resolved(names, refs) <= NamedAll(names, refs)
  {
    forall x | x in refs && x in names ensures FirstIndex(names, x) in NamedAll(names, refs) {
      assert FirstIndex(names, x) in NamedBy(names, x);
    }
  }

  lemma NamedSplits(names: seq<string>, a: set<string>, b: set<string>)
    ensures NamedAll(names, a + b) == NamedAll(names, a) + NamedAll(names, b)
  {
  }

  lemma OneReference(e: ColumnExpr)
    ensures AllReferences([e]) == References(e)
  {
    assert [e][0] == e;
  }

  lemma LastReference(es: seq<ColumnExpr>)
    requires es != []
    ensures AllReferences(es) == AllReferences(es[..|es| - 1]) + References(es[|es| - 1])
  {
  }

  // ----- dependency edges -----

  lemma DependencyCarries(
      source: nat, names: seq<string>, evidence: nat, x: string, destination: Target, relationship: Relationship,
      transformation: Transformation, q: Probe)
    requires Fits(source, names, q)
    ensures Carries(DependencyEdge(names, source, evidence, x, destination, relationship, transformation), q)
        <==> q.source == source && q.ordinal in NamedBy(names, x) && Bears(destination, relationship, transformation, q)
  {
  }

  /** The edges of a list of expressions reach exactly the columns its names stand for. */
  lemma DependenciesReach(
      source: nat, names: seq<string>, evidence: nat, es: seq<ColumnExpr>, destination: Target,
      relationship: Relationship, transformation: Transformation, q: Probe)
    requires Fits(source, names, q)
    ensures Reached(DependencyEdges(names, source, evidence, es, destination, relationship, transformation), q)
        <==> IsNamed(source, names, AllReferences(es), q) && Bears(destination, relationship, transformation, q)
  {
    var deps := DependencyNames(es);
    var edges := DependencyEdges(names, source, evidence, es, destination, relationship, transformation);
    DependencyNamesExact(es);
    forall k | 0 <= k < |deps|
      ensures Carries(edges[k], q)
          <==> q.source == source && q.ordinal in NamedBy(names, deps[k]) && Bears(destination, relationship, transformation, q)
    {
      DependencyCarries(source, names, evidence, deps[k], destination, relationship, transformation, q);
    }
    ReachedSome(edges, q);
    if IsNamed(source, names, AllReferences(es), q) {
      var x :| x in AllReferences(es) && q.ordinal in NamedBy(names, x);
      assert x in deps;
      var k :| 0 <= k < |deps| && deps[k] == x;
      assert Carries(edges[k], q) <==> Bears(destination, relationship, transformation, q);
    }
  }

  // ----- edge families -----

  lemma PassthroughReaches(input: nat, names: seq<string>, i: nat, out: seq<string>, q: Probe)
    requires q.node == i && Fits(input, names, q)
    ensures Reached(PassthroughEdges(input, names, i, out), q)
        <==> q.source == input && q.ordinal < |names| && q.ordinal < |out| && q.column == Some(q.ordinal)
  {
    var edges := PassthroughEdges(input, names, i, out);
    ReachedSome(edges, q);
    if q.source == input && q.ordinal < |names| && q.ordinal < |out| && q.column == Some(q.ordinal) {
      assert Carries(edges[q.ordinal], q);
    }
  }

  lemma JoinSideReaches(input: nat, names: seq<string>, i: nat, out: seq<string>, offset: nat, q: Probe)
    requires q.node == i && Fits(input, names, q) && offset + |names| <= |out|
    ensures Reached(JoinSideEdges(input, names, i, out, offset), q)
        <==> q.source == input && q.ordinal < |names| && q.column == Some(offset + q.ordinal)
  {
    var edges := JoinSideEdges(input, names, i, out, offset);
    ReachedSome(edges, q);
    if q.source == input && q.ordinal < |names| && q.column == Some(offset + q.ordinal) {
      assert Carries(edges[q.ordinal], q);
    }
  }

  /** The edges of expression k go to slot k. */
  predicate SlotNamed(source: nat, names: seq<string>, es: seq<ColumnExpr>, q: Probe) {
    q.column.Some? && q.column.value < |es| && IsNamed(source, names, References(es[q.column.value]), q)
  }

  lemma {:induction false} ValuesReach(
      input: nat, names: seq<string>, i: nat, out: seq<string>, es: seq<ColumnExpr>, q: Probe)
    requires q.node == i && Fits(input, names, q) && |es| <= |out|
    ensures Reached(PositionalEdges(input, names, i, out, es, ValueOf), q) <==> SlotNamed(input, names, es, q)
    decreases |es|
  {
    if es != [] {
      var k := |es| - 1;
      var d, t := FieldTarget(i, k, out[k]), ExpressionTransformation(es[k]);
      ValuesReach(input, names, i, out, es[..k], q);
      DependenciesReach(input, names, i, [es[k]], d, ValueOf, t, q);
      OneReference(es[k]);
      ReachedOr(PositionalEdges(input, names, i, out, es[..k], ValueOf),
                DependencyEdges(names, input, i, [es[k]], d, ValueOf, t), q);
    }
  }

  /** Every grouping key bears on everything. */
  lemma {:induction false} KeysReach(
      input: nat, names: seq<string>, i: nat, out: seq<string>, keys: seq<ColumnExpr>, q: Probe)
    requires q.node == i && Fits(input, names, q) && |keys| <= |out|
    ensures Reached(PositionalEdges(input, names, i, out, keys, Grouping), q)
        <==> IsNamed(input, names, AllReferences(keys), q)
    decreases |keys|
  {
    if keys != [] {
      var k := |keys| - 1;
      var d, t := FieldTarget(i, k, out[k]), ExpressionTransformation(keys[k]);
      KeysReach(input, names, i, out, keys[..k], q);
      DependenciesReach(input, names, i, [keys[k]], d, Grouping, t, q);
      OneReference(keys[k]);
      ReachedOr(PositionalEdges(input, names, i, out, keys[..k], Grouping),
                DependencyEdges(names, input, i, [keys[k]], d, Grouping, t), q);
      LastReference(keys);
      NamedSplits(names, AllReferences(keys[..k]), References(keys[k]));
    }
  }

  /** Assignment m goes to the first slot of its name. */
  predicate AssignedFrom(
      input: nat, names: seq<string>, out: seq<string>, assignments: seq<Assignment>, m: nat, q: Probe)
  {
    && m < |assignments| && q.column.Some? && FirstIndex(out, assignments[m].outputName) == q.column.value
    && IsNamed(input, names, References(assignments[m].expr), q)
  }

  predicate AnyAssigned(input: nat, names: seq<string>, out: seq<string>, assignments: seq<Assignment>, q: Probe) {
    exists m: nat {:trigger AssignedFrom(input, names, out, assignments, m, q)} ::
      m < |assignments| && AssignedFrom(input, names, out, assignments, m, q)
  }

  lemma {:induction false} AssignmentsReach(
      input: nat, names: seq<string>, i: nat, out: seq<string>, assignments: seq<Assignment>, q: Probe)
    requires q.node == i && Fits(input, names, q)
    ensures Reached(AssignmentEdges(input, names, i, out, assignments), q)
        <==> AnyAssigned(input, names, out, assignments, q)
    decreases |assignments|
  {
    if assignments != [] {
      var k := |assignments| - 1;
      var a := assignments[k];
      var slot := FirstIndex(out, a.outputName);
      AssignmentsReach(input, names, i, out, assignments[..k], q);
      AssignedLast(input, names, out, assignments, q);
      if slot < 0 {
        assert AssignmentEdges(input, names, i, out, assignments) == AssignmentEdges(input, names, i, out, assignments[..k]);
      } else {
        var d, t := FieldTarget(i, slot, a.outputName), ExpressionTransformation(a.expr);
        DependenciesReach(input, names, i, [a.expr], d, ValueOf, t, q);
        OneReference(a.expr);
        ReachedOr(AssignmentEdges(input, names, i, out, assignments[..k]),
                  DependencyEdges(names, input, i, [a.expr], d, ValueOf, t), q);
      }
    }
  }

  lemma AssignedLast(input: nat, names: seq<string>, out: seq<string>, assignments: seq<Assignment>, q: Probe)
    requires assignments != []
    ensures var k := |assignments| - 1;
            AnyAssigned(input, names, out, assignments, q)
            <==> || AnyAssigned(input, names, out, assignments[..k], q)
                 || AssignedFrom(input, names, out, assignments, k, q)
  {
    var k := |assignments| - 1;
    forall m: nat | m < k
      ensures AssignedFrom(input, names, out, assignments, m, q)
          <==> AssignedFrom(input, names, out, assignments[..k], m, q)
    {
      assert assignments[..k][m] == assignments[m];
    }
    if m: nat :| AssignedFrom(input, names, out, assignments, m, q) && m != k {
      assert AssignedFrom(input, names, out, assignments[..k], m, q);
    }
    if m: nat :| AssignedFrom(input, names, out, assignments[..k], m, q) {
      assert AssignedFrom(input, names, out, assignments, m, q);
    }
  }

  /** The column asked about is that of a measure whose arguments name the field. */
  predicate MeasureNamed(input: nat, names: seq<string>, prefix: nat, measures: seq<Measure>, q: Probe) {
    && q.column.Some? && prefix <= q.column.value < prefix + |measures|
    && IsNamed(input, names, AllReferences(measures[q.column.value - prefix].arguments), q)
  }

  lemma MeasureNamedLast(input: nat, names: seq<string>, prefix: nat, measures: seq<Measure>, q: Probe)
    requires measures != []
    ensures var k := |measures| - 1;
            MeasureNamed(input, names, prefix, measures, q)
            <==> || MeasureNamed(input, names, prefix, measures[..k], q)
                 || (q.column == Some(prefix + k) && IsNamed(input, names, AllReferences(measures[k].arguments), q))
  {
  }

  /** A measure without arguments only reaches the relation as a whole. */
  lemma MeasureReaches(input: nat, names: seq<string>, i: nat, m: Measure, d: Target, q: Probe)
    requires Fits(input, names, q)
    ensures Reached(MeasureEdges(input, names, i, m, d), q)
        <==> IsNamed(input, names, AllReferences(m.arguments), q) && Bears(d, ValueOf, AggregateStep, q)
  {
    if m.arguments != [] {
      DependenciesReach(input, names, i, m.arguments, d, ValueOf, AggregateStep, q);
    }
  }

  lemma {:induction false} MeasuresReach(
      input: nat, names: seq<string>, i: nat, out: seq<string>, prefix: nat, measures: seq<Measure>, q: Probe)
    requires q.node == i && Fits(input, names, q) && prefix + |measures| <= |out|
    ensures Reached(MeasuresEdges(input, names, i, out, prefix, measures), q)
        <==> MeasureNamed(input, names, prefix, measures, q)
    decreases |measures|
  {
    if measures != [] {
      var k := |measures| - 1;
      var d := FieldTarget(i, prefix + k, out[prefix + k]);
      MeasuresReach(input, names, i, out, prefix, measures[..k], q);
      MeasureReaches(input, names, i, measures[k], d, q);
      MeasureNamedLast(input, names, prefix, measures, q);
      ReachedOr(MeasuresEdges(input, names, i, out, prefix, measures[..k]),
                MeasureEdges(input, names, i, measures[k], d), q);
    }
  }

  /** Generator edges bear on everything. */
  lemma {:induction false} GeneratedReach(
      input: nat, names: seq<string>, i: nat, out: seq<string>, args: seq<ColumnExpr>, outputs: seq<string>, q: Probe)
    requires q.node == i && Fits(input, names, q) && forall k :: 0 <= k < |outputs| ==> outputs[k] in out
    ensures Reached(GeneratedEdges(input, names, i, out, args, outputs), q)
        <==> outputs != [] && IsNamed(input, names, AllReferences(args), q)
    decreases |outputs|
  {
    if outputs != [] {
      var k := |outputs| - 1;
      var d := FieldTarget(i, FirstIndex(out, outputs[k]), outputs[k]);
      GeneratedReach(input, names, i, out, args, outputs[..k], q);
      DependenciesReach(input, names, i, args, d, ValueOf, GeneratorStep, q);
      ReachedOr(GeneratedEdges(input, names, i, out, args, outputs[..k]),
                DependencyEdges(names, input, i, args, d, ValueOf, GeneratorStep), q);
    }
  }

  /** Window m goes to the first slot of its name. */
  predicate WindowFrom(
      input: nat, names: seq<string>, out: seq<string>, ws: seq<WindowProjection>, m: nat, q: Probe)
  {
    && m < |ws| && q.column.Some? && FirstIndex(out, ws[m].outputName) == q.column.value
    && IsNamed(input, names, AllReferences(WindowInputs(ws[m])), q)
  }

  predicate AnyWindow(input: nat, names: seq<string>, out: seq<string>, ws: seq<WindowProjection>, q: Probe) {
    exists m: nat {:trigger WindowFrom(input, names, out, ws, m, q)} ::
      m < |ws| && WindowFrom(input, names, out, ws, m, q)
  }

  lemma {:induction false} WindowsReach(
      input: nat, names: seq<string>, i: nat, out: seq<string>, ws: seq<WindowProjection>, q: Probe)
    requires q.node == i && Fits(input, names, q)
    ensures Reached(WindowEdges(input, names, i, out, ws), q)
        <==> AnyWindow(input, names, out, ws, q)
    decreases |ws|
  {
    if ws != [] {
      var k := |ws| - 1;
      var w := ws[k];
      var slot := FirstIndex(out, w.outputName);
      WindowsReach(input, names, i, out, ws[..k], q);
      WindowLast(input, names, out, ws, q);
      if slot < 0 {
        assert WindowEdges(input, names, i, out, ws) == WindowEdges(input, names, i, out, ws[..k]);
      } else {
        var d := FieldTarget(i, slot, w.outputName);
        DependenciesReach(input, names, i, WindowInputs(w), d, WindowOf, WindowStep, q);
        ReachedOr(WindowEdges(input, names, i, out, ws[..k]),
                  DependencyEdges(names, input, i, WindowInputs(w), d, WindowOf, WindowStep), q);
      }
    }
  }

  lemma WindowLast(input: nat, names: seq<string>, out: seq<string>, ws: seq<WindowProjection>, q: Probe)
    requires ws != []
    ensures var k := |ws| - 1;
            AnyWindow(input, names, out, ws, q)
            <==> || AnyWindow(input, names, out, ws[..k], q)
                 || WindowFrom(input, names, out, ws, k, q)
  {
    var k := |ws| - 1;
    forall m: nat | m < k
      ensures WindowFrom(input, names, out, ws, m, q) <==> WindowFrom(input, names, out, ws[..k], m, q)
    {
      assert ws[..k][m] == ws[m];
    }
    if m: nat :| WindowFrom(input, names, out, ws, m, q) && m != k {
      assert WindowFrom(input, names, out, ws[..k], m, q);
    }
    if m: nat :| WindowFrom(input, names, out, ws[..k], m, q) {
      assert WindowFrom(input, names, out, ws, m, q);
    }
  }

  // ----- join edges -----

  /** A predicate name names left columns where the left side has it or neither side does. */
  function LeftNamed(l: seq<string>, r: seq<string>, x: string): set<nat> {
    if x in l || x !in r then NamedBy(l, x) else {}
  }

  /** It names right columns where the right side has it under its own, unqualified name. */
  function RightNamed(r: seq<string>, x: string): set<nat> {
    if x in r then NamedBy(r, x) else {}
  }

  predicate JoinNamed(left: nat, l: seq<string>, right: nat, r: seq<string>, x: string, q: Probe) {
    || (q.source == left && q.ordinal in LeftNamed(l, r, x))
    || (q.source == right && q.ordinal in RightNamed(r, x))
  }

  predicate AnyJoinNamed(left: nat, l: seq<string>, right: nat, r: seq<string>, names: seq<string>, q: Probe) {
    exists x :: x in names && JoinNamed(left, l, right, r, x, q)
  }

  lemma JoinNameReaches(
      left: nat, l: seq<string>, right: nat, r: seq<string>, i: nat, x: string, q: Probe)
    requires Fits(left, l, q) && Fits(right, r, q)
    ensures Reached(JoinNameEdges(left, l, right, r, i, x), q) <==> JoinNamed(left, l, right, r, x, q)
  {
    var out := RelationOutput(i);
    var onLeft := DependencyEdge(l, left, i, x, out, JoinKey, JoinStep);
    var onRight := DependencyEdge(r, right, i, x, out, JoinKey, JoinStep);
    DependencyCarries(left, l, i, x, out, JoinKey, JoinStep, q);
    DependencyCarries(right, r, i, x, out, JoinKey, JoinStep, q);
    OneReached(onLeft, q);
    OneReached(onRight, q);
    ReachedOr([onLeft], [onRight], q);
    assert JoinNameEdges(left, l, right, r, i, x)
        == if x in l then if x in r then [onLeft] + [onRight] else [onLeft] else if x in r then [onRight] else [onLeft];
  }

  lemma AnyJoinNamedLast(left: nat, l: seq<string>, right: nat, r: seq<string>, names: seq<string>, x: string, q: Probe)
    ensures AnyJoinNamed(left, l, right, r, names + [x], q)
        <==> AnyJoinNamed(left, l, right, r, names, q) || JoinNamed(left, l, right, r, x, q)
  {
    if AnyJoinNamed(left, l, right, r, names, q) {
      var y :| y in names && JoinNamed(left, l, right, r, y, q);
      assert y in names + [x];
    }
    assert x in names + [x];
  }

  lemma {:induction false} JoinPredicateReaches(
      left: nat, l: seq<string>, right: nat, r: seq<string>, i: nat, names: seq<string>, q: Probe)
    requires Fits(left, l, q) && Fits(right, r, q)
    ensures Reached(JoinPredicateEdges(left, l, right, r, i, names), q) <==> AnyJoinNamed(left, l, right, r, names, q)
    decreases |names|
  {
    if names != [] {
      var k := |names| - 1;
      JoinPredicateReaches(left, l, right, r, i, names[..k], q);
      JoinNameReaches(left, l, right, r, i, names[k], q);
      ReachedOr(JoinPredicateEdges(left, l, right, r, i, names[..k]), JoinNameEdges(left, l, right, r, i, names[k]), q);
      AnyJoinNamedLast(left, l, right, r, names[..k], names[k], q);
      assert names == names[..k] + [names[k]];
    }
  }
}
