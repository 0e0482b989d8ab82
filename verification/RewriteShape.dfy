/** What the canonical pass leaves behind (src/prism/rewrite.incn): which neighbours it really merges, and which stay. */
module RewriteShape {
  import opened Expressions
  import opened Plans
  import opened Rewrites

  /** One boundary on both sides, so that the two groups could be one. */
  predicate OneBoundary(lower: seq<WindowProjection>, upper: seq<WindowProjection>) {
    && lower != [] && upper != []
    && (forall k :: 0 <= k < |lower| ==> SameBoundary(lower[0], lower[k]))
    && (forall k :: 0 <= k < |upper| ==> SameBoundary(lower[0], upper[k]))
  }

  /** The pass is there to merge these two. */
  predicate Mergeable(lower: Node, upper: Node) {
    || (lower.Limit? && upper.Limit?)
    || (lower.Project? && upper.Project?)
    || (lower.OrderBy? && upper.OrderBy?)
    || (lower.Window? && upper.Window? && OneBoundary(lower.projections, upper.projections))
  }

  predicate SettledAt(rw: Store, j: nat)
    requires j < |rw|
  {
    && !(rw[j].Filter? && rw[j].predicate_.node == BoolLiteral(true))
    && (rw[j].Read? || rw[j].Join?
        || (assert rw[j].Inputs()[0] == rw[j].input; !Mergeable(rw[rw[j].input], rw[j])))
  }

  predicate Settled(rw: Store) {
    forall j :: 0 <= j < |rw| ==> SettledAt(rw, j)
  }

  lemma AppendSettles(rw: Store, n: Node)
    requires Settled(rw) && forall x :: x in n.Inputs() ==> x < |rw|
    requires !(n.Filter? && n.predicate_.node == BoolLiteral(true))
    requires n.Read? || n.Join? || (n.input in n.Inputs() && !Mergeable(rw[n.input], n))
    ensures Settled(Appended(rw, n))
  {
    var r := Appended(rw, n);
    forall j | 0 <= j < |r| ensures SettledAt(r, j) {
      if j < |rw| {
        assert SettledAt(rw, j) && r[j] == rw[j];
        if !rw[j].Read? && !rw[j].Join? {
          assert rw[j].Inputs()[0] == rw[j].input;
        }
      }
    }
  }

  /** A node that is merged into its parent stands on the parent's own parent, which the two cannot be merged with. */
  lemma CollapsedSettles(rw: Store, n: Node, left: nat)
    requires Settled(rw) && left < |rw| && !n.Read? && !n.Join?
    requires !(n.Filter? && n.predicate_.node == BoolLiteral(true))
    ensures var c := Collapsed(n, rw[left], left, 0);
            && !c.Read? && !c.Join? && c.input <= left
            && !(c.Filter? && c.predicate_.node == BoolLiteral(true))
            && !Mergeable(rw[c.input], c)
  {
    var parent := rw[left];
    assert SettledAt(rw, left);
    if !parent.Read? && !parent.Join? {
      assert parent.Inputs()[0] == parent.input;
      var below := rw[parent.input];
      if parent.Window? && n.Window? && below.Window? && OneBoundary(parent.projections, n.projections) {
        WindowsSettle(below.projections, parent.projections, n.projections);
      }
    }
  }

  /** Adding projections to a group never makes it fit a group it did not fit before. */
  lemma WindowsSettle(below: seq<WindowProjection>, parent: seq<WindowProjection>, more: seq<WindowProjection>)
    requires parent != []
    ensures OneBoundary(below, parent + more) ==> OneBoundary(below, parent)
  {
    if OneBoundary(below, parent + more) {
      forall k | 0 <= k < |parent| ensures SameBoundary(below[0], parent[k]) {
        assert (parent + more)[k] == parent[k];
      }
    }
  }

  lemma StepSettles(plan: Store, v: View, i: nat)
    requires |v.ids| == |plan| && i < |plan| && InputsMapped(plan, v, i) && Settled(v.nodes)
    ensures Settled(RewriteStep(plan, v, i).nodes)
  {
    var n := plan[i];
    if !IsTrueFilter(n) {
      if !n.Read? && !n.Join? {
        assert n.Inputs()[0] == n.input;
        assert Mapped(plan, v, n.input);
        CollapsedSettles(v.nodes, n, v.ids[n.input]);
      }
      AppendSettles(v.nodes, RewrittenNode(plan, v, i));
    }
  }

  /** Main result: behind the pass no always-true filter is left, and no limit, projection, ordering or window group
      stands directly on one it could be merged with. */
  lemma {:induction false} PassSettles(plan: Store, order: seq<nat>)
    requires Ordered(plan, order)
    ensures Settled(Pass(plan, order).nodes)
    decreases |order|
  {
    if order != [] {
      var n := |order| - 1;
      OrderedFront(plan, order);
      PassSettles(plan, order[..n]);
      ReadyInputs(plan, order, Pass(plan, order[..n]));
      StepSettles(plan, Pass(plan, order[..n]), order[n]);
    }
  }
}
