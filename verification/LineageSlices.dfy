/** Slices: databases that agree on all the fields the nodes of a plan read give the same columns.

    A slice is a set of fields that holds, with a column, everything the column reads, and at every node everything its
    rows depend on. Nothing here mentions lineage. */
module LineageSlices {
  import opened Names
  import opened Tables
  import opened Expressions
  import opened Plans
  import opened Wrappers
  import opened Reachability
  import opened LineageReach
  import opened LineageReads

  type Fields = iset<(nat, nat)>

  ghost predicate AllIn(fields: set<(nat, nat)>, s: Fields) {
    forall f :: f in fields ==> f in s
  }

  ghost predicate ColumnHeld(cat: Catalog, plan: Store, i: nat, c: nat, s: Fields)
    requires i < |plan|
  {
    c < |Columns(cat, plan, i)| && (i, c) in s ==> AllIn(ColumnReads(cat, plan, i, c), s)
  }

  /** s holds what the rows of node i read, and what each of its columns in s reads. */
  ghost predicate ReadsHeld(cat: Catalog, plan: Store, i: nat, s: Fields)
    requires i < |plan|
  {
    AllIn(RowReads(cat, plan, i), s) && forall c: nat :: ColumnHeld(cat, plan, i, c, s)
  }

  // ----- agreement of two runs -----

  ghost predicate Alike(t1: Table, t2: Table, s: Fields, node: nat) {
    && t1.count == t2.count && |t1.cols| == |t2.cols|
    && forall c: nat :: c < |t1.cols| && (node, c) in s ==> t1.cols[c] == t2.cols[c]
  }

  /** Column `prefix + k` of a node is in s. */
  ghost predicate Wanted(s: Fields, node: nat, prefix: nat, k: nat) {
    (node, prefix + k) in s
  }

  ghost predicate AlikeRuns(r1: Option<Table>, r2: Option<Table>, s: Fields, node: nat) {
    r1.Some? == r2.Some? && (r1.Some? ==> Alike(r1.value, r2.value, s, node))
  }

  /** Every mentioned name that resolves has its column in s. */
  ghost predicate Settled(names: seq<string>, refs: set<string>, s: Fields, node: nat) {
    forall x :: x in refs && x in names ==> (node, FirstIndex(names, x)) in s
  }

  lemma ResolvedHeld(node: nat, names: seq<string>, refs: set<string>, s: Fields)
    requires AllIn(At(node, Resolved(names, refs)), s)
    ensures Settled(names, refs, s, node)
  {
    forall x | x in refs && x in names ensures (node, FirstIndex(names, x)) in s {
      assert FirstIndex(names, x) in Resolved(names, refs);
      assert (node, FirstIndex(names, x)) in At(node, Resolved(names, refs));
    }
  }

  lemma RowsAgree(names: seq<string>, t1: Table, t2: Table, refs: set<string>, s: Fields, node: nat, j: nat)
    requires Alike(t1, t2, s, node) && |names| == |t1.cols| && j < t1.count
    requires forall x :: x in refs && x in names ==> (node, FirstIndex(names, x)) in s
    ensures SameOn(names, RowAt(t1, j), names, RowAt(t2, j), refs)
  {
  }

  lemma ExprColumnsAgree(eng: Engine, names: seq<string>, t1: Table, t2: Table, e: ColumnExpr, s: Fields, node: nat)
    requires Alike(t1, t2, s, node) && |names| == |t1.cols|
    requires forall x :: x in References(e) && x in names ==> (node, FirstIndex(names, x)) in s
    ensures ExprColumn(eng, names, t1, e) == ExprColumn(eng, names, t2, e)
  {
    forall j | 0 <= j < t1.count
      ensures EvalExpr(eng, names, RowAt(t1, j), e) == EvalExpr(eng, names, RowAt(t2, j), e)
    {
      RowsAgree(names, t1, t2, References(e), s, node, j);
      EvalDependsOnReferences(eng, names, RowAt(t1, j), names, RowAt(t2, j), e);
    }
  }

  lemma ExprRowsAgree(
      eng: Engine, names: seq<string>, t1: Table, t2: Table, es: seq<ColumnExpr>, s: Fields, node: nat)
    requires Alike(t1, t2, s, node) && |names| == |t1.cols|
    requires Settled(names, AllReferences(es), s, node)
    ensures ExprRows(eng, names, t1, es) == ExprRows(eng, names, t2, es)
    ensures ExprColumns(eng, names, t1, es) == ExprColumns(eng, names, t2, es)
  {
    forall k | 0 <= k < |es|
      ensures ExprColumn(eng, names, t1, es[k]) == ExprColumn(eng, names, t2, es[k])
    {
      assert References(es[k]) <= AllReferences(es);
      ExprColumnsAgree(eng, names, t1, t2, es[k], s, node);
    }
    forall j | 0 <= j < t1.count
      ensures EvalAll(eng, names, RowAt(t1, j), es) == EvalAll(eng, names, RowAt(t2, j), es)
    {
      forall k | 0 <= k < |es|
        ensures EvalExpr(eng, names, RowAt(t1, j), es[k]) == EvalExpr(eng, names, RowAt(t2, j), es[k])
      {
        assert ExprColumn(eng, names, t1, es[k])[j] == ExprColumn(eng, names, t2, es[k])[j];
      }
    }
  }

  lemma GatherAlike(t1: Table, t2: Table, picks: seq<nat>, s: Fields, input: nat, node: nat)
    requires Alike(t1, t2, s, input)
    requires forall k :: 0 <= k < |picks| ==> picks[k] < t1.count
    requires forall c: nat :: c < |t1.cols| && (node, c) in s ==> (input, c) in s
    ensures Alike(Gather(t1, picks), Gather(t2, picks), s, node)
  {
  }

  // ----- filters, orderings, limits -----

  lemma FilterAgrees(eng: Engine, cat: Catalog, plan: Store, i: nat, s: Fields, t1: Table, t2: Table)
    requires i < |plan| && plan[i].Filter? && plan[i].input < i && ReadsHeld(cat, plan, i, s)
    requires Alike(t1, t2, s, plan[i].input) && |t1.cols| == |Columns(cat, plan, plan[i].input)|
    ensures AlikeRuns(EvalUnary(eng, Columns(cat, plan, plan[i].input), Some(t1), plan[i]),
                      EvalUnary(eng, Columns(cat, plan, plan[i].input), Some(t2), plan[i]), s, i)
  {
    var input, p := plan[i].input, plan[i].predicate_;
    var names := Columns(cat, plan, input);
    ResolvedHeld(input, names, References(p), s);
    ExprColumnsAgree(eng, names, t1, t2, p, s, input);
    forall c: nat | c < |t1.cols| && (i, c) in s
      ensures (input, c) in s
    {
      assert ColumnHeld(cat, plan, i, c, s);
    }
    GatherAlike(t1, t2, Kept(Flags(ExprColumn(eng, names, t1, p))), s, input, i);
  }

  lemma OrderByAgrees(eng: Engine, cat: Catalog, plan: Store, i: nat, s: Fields, t1: Table, t2: Table)
    requires i < |plan| && plan[i].OrderBy? && plan[i].input < i && ReadsHeld(cat, plan, i, s)
    requires Alike(t1, t2, s, plan[i].input) && |t1.cols| == |Columns(cat, plan, plan[i].input)|
    ensures AlikeRuns(EvalUnary(eng, Columns(cat, plan, plan[i].input), Some(t1), plan[i]),
                      EvalUnary(eng, Columns(cat, plan, plan[i].input), Some(t2), plan[i]), s, i)
  {
    var input, keys := plan[i].input, plan[i].keys;
    var names := Columns(cat, plan, input);
    ResolvedHeld(input, names, AllReferences(keys), s);
    ExprRowsAgree(eng, names, t1, t2, keys, s, input);
    forall c: nat | c < |t1.cols| && (i, c) in s
      ensures (input, c) in s
    {
      assert ColumnHeld(cat, plan, i, c, s);
    }
    var picks := eng.order(ExprRows(eng, names, t1, keys));
    if IsPermutation(picks, t1.count) {
      GatherAlike(t1, t2, picks, s, input, i);
    }
  }

  lemma LimitAgrees(eng: Engine, cat: Catalog, plan: Store, i: nat, s: Fields, t1: Table, t2: Table)
    requires i < |plan| && plan[i].Limit? && plan[i].input < i && ReadsHeld(cat, plan, i, s)
    requires Alike(t1, t2, s, plan[i].input) && |t1.cols| == |Columns(cat, plan, plan[i].input)|
    ensures AlikeRuns(EvalUnary(eng, Columns(cat, plan, plan[i].input), Some(t1), plan[i]),
                      EvalUnary(eng, Columns(cat, plan, plan[i].input), Some(t2), plan[i]), s, i)
  {
    forall c: nat | c < |t1.cols| && (i, c) in s
      ensures (plan[i].input, c) in s
    {
      assert ColumnHeld(cat, plan, i, c, s);
    }
    var n := plan[i].rows;
    GatherAlike(t1, t2, Iota(if n < t1.count then n else t1.count), s, plan[i].input, i);
  }

  // ----- grouping -----

  lemma GroupByAgrees(eng: Engine, cat: Catalog, plan: Store, i: nat, s: Fields, t1: Table, t2: Table)
    requires i < |plan| && plan[i].GroupBy? && plan[i].input < i && ReadsHeld(cat, plan, i, s)
    requires Alike(t1, t2, s, plan[i].input) && |t1.cols| == |Columns(cat, plan, plan[i].input)|
    ensures EvalUnary(eng, Columns(cat, plan, plan[i].input), Some(t1), plan[i])
         == EvalUnary(eng, Columns(cat, plan, plan[i].input), Some(t2), plan[i])
  {
    var names := Columns(cat, plan, plan[i].input);
    ResolvedHeld(plan[i].input, names, AllReferences(plan[i].keys), s);
    ExprRowsAgree(eng, names, t1, t2, plan[i].keys, s, plan[i].input);
  }

  // ----- aggregating -----

  /** A measure sees the same rows and the same tuples in both runs. */
  lemma MeasureAgrees(eng: Engine, names: seq<string>, t1: Table, t2: Table, m: Measure, members: seq<nat>,
                      s: Fields, node: nat)
    requires Alike(t1, t2, s, node) && |names| == |t1.cols|
    requires Settled(names, AllReferences(MeasureInputs(m)), s, node)
    requires forall k :: 0 <= k < |members| ==> members[k] < t1.count
    ensures MeasureValue(eng, names, t1, m, members) == MeasureValue(eng, names, t2, m, members)
  {
    var inputs := MeasureInputs(m);
    forall j, k | 0 <= j < t1.count && 0 <= k < |inputs|
      ensures EvalExpr(eng, names, RowAt(t1, j), inputs[k]) == EvalExpr(eng, names, RowAt(t2, j), inputs[k])
    {
      assert References(inputs[k]) <= AllReferences(inputs);
      RowsAgree(names, t1, t2, References(inputs[k]), s, node, j);
      EvalDependsOnReferences(eng, names, RowAt(t1, j), names, RowAt(t2, j), inputs[k]);
    }
    if m.filter.Some? {
      assert inputs[|inputs| - 1] == m.filter.value;
      assert seq(|members|, k requires 0 <= k < |members| =>
               Holds(EvalExpr(eng, names, RowAt(t1, members[k]), m.filter.value)))
          == seq(|members|, k requires 0 <= k < |members| =>
               Holds(EvalExpr(eng, names, RowAt(t2, members[k]), m.filter.value)));
    }
    var rows := MeasureRows(eng, names, t1, m, members);
    assert rows == MeasureRows(eng, names, t2, m, members);
    forall j: nat | j < t1.count
      ensures EvalAll(eng, names, RowAt(t1, j), m.arguments) == EvalAll(eng, names, RowAt(t2, j), m.arguments)
      ensures EvalAll(eng, names, RowAt(t1, j), m.ordering) == EvalAll(eng, names, RowAt(t2, j), m.ordering)
    {
      assert forall k :: 0 <= k < |m.arguments| ==> inputs[k] == m.arguments[k];
      assert forall k :: 0 <= k < |m.ordering| ==> inputs[|m.arguments| + k] == m.ordering[k];
    }
    assert seq(|rows|, k requires 0 <= k < |rows| => EvalAll(eng, names, RowAt(t1, rows[k]), m.arguments))
        == seq(|rows|, k requires 0 <= k < |rows| => EvalAll(eng, names, RowAt(t2, rows[k]), m.arguments));
    assert seq(|rows|, k requires 0 <= k < |rows| => EvalAll(eng, names, RowAt(t1, rows[k]), m.ordering))
        == seq(|rows|, k requires 0 <= k < |rows| => EvalAll(eng, names, RowAt(t2, rows[k]), m.ordering));
  }

  lemma AggregateAgrees(
      eng: Engine, cat: Catalog, plan: Store, i: nat, source: nat, keys: seq<ColumnExpr>, s: Fields, t1: Table, t2: Table)
    requires AggregateOf(plan, i, source, keys) && ReadsHeld(cat, plan, i, s)
    requires Alike(t1, t2, s, source) && |t1.cols| == |Columns(cat, plan, source)|
    ensures AlikeRuns(EvalAggregate(eng, Columns(cat, plan, source), Some(t1), keys, plan[i].measures),
                      EvalAggregate(eng, Columns(cat, plan, source), Some(t2), keys, plan[i].measures), s, i)
  {
    var names, measures := Columns(cat, plan, source), plan[i].measures;
    ResolvedHeld(source, names, AllReferences(keys), s);
    forall k: nat | k < |measures| && Wanted(s, i, |keys|, k)
      ensures Settled(names, AllReferences(MeasureInputs(measures[k])), s, source)
    {
      MeasureHeld(cat, plan, i, source, keys, s, k);
    }
    AggregateTablesAgree(eng, names, t1, t2, keys, measures, s, source, i);
  }

  lemma MeasureHeld(cat: Catalog, plan: Store, i: nat, source: nat, keys: seq<ColumnExpr>, s: Fields, k: nat)
    requires AggregateOf(plan, i, source, keys) && ReadsHeld(cat, plan, i, s)
    requires k < |plan[i].measures| && Wanted(s, i, |keys|, k)
    ensures Settled(Columns(cat, plan, source), AllReferences(MeasureInputs(plan[i].measures[k])), s, source)
  {
    MeasureReadsAre(cat, plan, i, source, keys, k, |keys| + k);
    assert ColumnHeld(cat, plan, i, |keys| + k, s);
    ResolvedHeld(source, Columns(cat, plan, source), AllReferences(MeasureInputs(plan[i].measures[k])), s);
  }

  lemma AggregateTablesAgree(eng: Engine, names: seq<string>, t1: Table, t2: Table,
                             keys: seq<ColumnExpr>, measures: seq<Measure>, s: Fields, source: nat, i: nat)
    requires Alike(t1, t2, s, source) && |t1.cols| == |names|
    requires Settled(names, AllReferences(keys), s, source)
    requires forall k: nat {:trigger Wanted(s, i, |keys|, k)} :: k < |measures| && Wanted(s, i, |keys|, k)
               ==> Settled(names, AllReferences(MeasureInputs(measures[k])), s, source)
    ensures Alike(AggregateTable(eng, names, t1, keys, measures), AggregateTable(eng, names, t2, keys, measures), s, i)
  {
    ExprRowsAgree(eng, names, t1, t2, keys, s, source);
    AggregatesAgree(eng, names, t1, t2, ExprColumns(eng, names, t1, keys), measures, s, source, i);
  }

  lemma AggregatesAgree(eng: Engine, names: seq<string>, t1: Table, t2: Table,
                        keyCols: seq<Column>, measures: seq<Measure>, s: Fields, source: nat, i: nat)
    requires Alike(t1, t2, s, source) && |t1.cols| == |names|
    requires forall c :: 0 <= c < |keyCols| ==> |keyCols[c]| == t1.count
    requires forall k: nat {:trigger Wanted(s, i, |keyCols|, k)} :: k < |measures| && Wanted(s, i, |keyCols|, k)
               ==> Settled(names, AllReferences(MeasureInputs(measures[k])), s, source)
    ensures Alike(AggregateOver(eng, names, t1, keyCols, measures), AggregateOver(eng, names, t2, keyCols, measures),
                  s, i)
  {
    GroupsAgree(eng, names, t1, t2, GroupKeys(keyCols, t1.count), Groups(keyCols, t1.count), measures, s, source, i);
  }

  /** The measures of any grouping agree behind its head columns. */
  lemma GroupsAgree(eng: Engine, names: seq<string>, t1: Table, t2: Table, heads: Table, groups: seq<seq<nat>>,
                    measures: seq<Measure>, s: Fields, source: nat, i: nat)
    requires Alike(t1, t2, s, source) && |t1.cols| == |names| && heads.count == |groups|
    requires forall g, k :: 0 <= g < |groups| && 0 <= k < |groups[g]| ==> groups[g][k] < t1.count
    requires forall k: nat {:trigger Wanted(s, i, |heads.cols|, k)} :: k < |measures| && Wanted(s, i, |heads.cols|, k)
               ==> Settled(names, AllReferences(MeasureInputs(measures[k])), s, source)
    ensures Alike(WithColumns(heads, MeasureColumns(eng, names, t1, measures, groups)),
                  WithColumns(heads, MeasureColumns(eng, names, t2, measures, groups)), s, i)
  {
    MeasuresAgree(eng, names, t1, t2, |heads.cols|, measures, groups, s, source, i);
    BehindAlike(heads, |heads.cols|, MeasureColumns(eng, names, t1, measures, groups),
                MeasureColumns(eng, names, t2, measures, groups), s, i);
  }

  lemma MeasuresAgree(eng: Engine, names: seq<string>, t1: Table, t2: Table, prefix: nat, measures: seq<Measure>,
                      groups: seq<seq<nat>>, s: Fields, source: nat, i: nat)
    requires Alike(t1, t2, s, source) && |t1.cols| == |names|
    requires forall g, k :: 0 <= g < |groups| && 0 <= k < |groups[g]| ==> groups[g][k] < t1.count
    requires forall k: nat {:trigger Wanted(s, i, prefix, k)} :: k < |measures| && Wanted(s, i, prefix, k)
               ==> Settled(names, AllReferences(MeasureInputs(measures[k])), s, source)
    ensures forall k: nat {:trigger Wanted(s, i, prefix, k)} :: k < |measures| && Wanted(s, i, prefix, k) ==>
      MeasureColumns(eng, names, t1, measures, groups)[k] == MeasureColumns(eng, names, t2, measures, groups)[k]
  {
    forall k: nat | k < |measures| && Wanted(s, i, prefix, k)
      ensures MeasureColumn(eng, names, t1, measures[k], groups) == MeasureColumn(eng, names, t2, measures[k], groups)
    {
      MeasureColumnsAgree(eng, names, t1, t2, measures[k], groups, s, source);
    }
  }

  /** Columns behind a shared prefix that agree wherever s asks. */
  lemma BehindAlike(heads: Table, prefix: nat, more1: seq<Column>, more2: seq<Column>, s: Fields, i: nat)
    requires |heads.cols| == prefix && |more1| == |more2|
    requires forall c :: 0 <= c < |more1| ==> |more1[c]| == heads.count
    requires forall c :: 0 <= c < |more2| ==> |more2[c]| == heads.count
    requires forall k: nat {:trigger Wanted(s, i, prefix, k)} :: k < |more1| && Wanted(s, i, prefix, k) ==> more1[k] == more2[k]
    ensures Alike(WithColumns(heads, more1), WithColumns(heads, more2), s, i)
  {
    SplitAlike(heads, more1, more2, s, i);
  }

  lemma SplitAlike(t: Table, more1: seq<Column>, more2: seq<Column>, s: Fields, i: nat)
    requires |more1| == |more2|
    requires forall c :: 0 <= c < |more1| ==> |more1[c]| == t.count && |more2[c]| == t.count
    requires forall k: nat {:trigger Wanted(s, i, |t.cols|, k)} :: k < |more1| && Wanted(s, i, |t.cols|, k) ==> more1[k] == more2[k]
    ensures Alike(WithColumns(t, more1), WithColumns(t, more2), s, i)
  {
    WithColumnsAlike(t, t, more1, more2, s, i);
  }

  /** Appending columns that agree wherever s asks keeps tables alike. */
  lemma WithColumnsAlike(t1: Table, t2: Table, more1: seq<Column>, more2: seq<Column>, s: Fields, i: nat)
    requires Alike(t1, t2, s, i) && |more1| == |more2|
    requires forall c :: 0 <= c < |more1| ==> |more1[c]| == t1.count && |more2[c]| == t1.count
    requires forall k: nat {:trigger Wanted(s, i, |t1.cols|, k)} :: k < |more1| && Wanted(s, i, |t1.cols|, k) ==> more1[k] == more2[k]
    ensures Alike(WithColumns(t1, more1), WithColumns(t2, more2), s, i)
  {
    forall c: nat | c < |t1.cols| + |more1| && (i, c) in s
      ensures (t1.cols + more1)[c] == (t2.cols + more2)[c]
    {
      if c >= |t1.cols| {
        assert Wanted(s, i, |t1.cols|, c - |t1.cols|);
      }
    }
  }

  lemma MeasureColumnsAgree(eng: Engine, names: seq<string>, t1: Table, t2: Table, m: Measure,
                            groups: seq<seq<nat>>, s: Fields, node: nat)
    requires Alike(t1, t2, s, node) && |names| == |t1.cols|
    requires Settled(names, AllReferences(MeasureInputs(m)), s, node)
    requires forall g, k :: 0 <= g < |groups| && 0 <= k < |groups[g]| ==> groups[g][k] < t1.count
    ensures MeasureColumn(eng, names, t1, m, groups) == MeasureColumn(eng, names, t2, m, groups)
  {
    forall g | 0 <= g < |groups|
      ensures MeasureValue(eng, names, t1, m, groups[g]) == MeasureValue(eng, names, t2, m, groups[g])
    {
      MeasureAgrees(eng, names, t1, t2, m, groups[g], s, node);
    }
  }

  // ----- generating -----

  lemma GenerateAgrees(eng: Engine, cat: Catalog, plan: Store, i: nat, s: Fields, t1: Table, t2: Table)
    requires i < |plan| && plan[i].Generate? && plan[i].input < i && ReadsHeld(cat, plan, i, s)
    requires Alike(t1, t2, s, plan[i].input) && |t1.cols| == |Columns(cat, plan, plan[i].input)|
    ensures AlikeRuns(EvalUnary(eng, Columns(cat, plan, plan[i].input), Some(t1), plan[i]),
                      EvalUnary(eng, Columns(cat, plan, plan[i].input), Some(t2), plan[i]), s, i)
  {
    var input, g := plan[i].input, plan[i].generator;
    var names := Columns(cat, plan, input);
    ResolvedHeld(input, names, AllReferences(g.arguments), s);
    ExprRowsAgree(eng, names, t1, t2, g.arguments, s, input);
    var es := Emissions(eng, g.name, g.rowCount, ExprRows(eng, names, t1, g.arguments));
    var generated := seq(|g.outputColumns|, c requires 0 <= c < |g.outputColumns| => EmittedColumn(es, c));
    if g.preservesInput {
      forall c: nat | c < |t1.cols| && (i, c) in s
        ensures (input, c) in s
      {
        assert ColumnHeld(cat, plan, i, c, s);
      }
      GatherAlike(t1, t2, EmittedRows(es), s, input, i);
      WithColumnsAlike(Gather(t1, EmittedRows(es)), Gather(t2, EmittedRows(es)), generated, generated, s, i);
    }
  }

  // ----- windows -----

  lemma WindowTablesAgree(eng: Engine, names: seq<string>, t1: Table, t2: Table, ws: seq<WindowProjection>,
                          s: Fields, input: nat, i: nat)
    requires Alike(t1, t2, s, input) && |t1.cols| == |names|
    requires forall c: nat :: c < |t1.cols| && (i, c) in s ==> (input, c) in s
    requires forall k: nat {:trigger Wanted(s, i, |names|, k)} :: k < |ws| && Wanted(s, i, |names|, k)
               ==> Settled(names, AllReferences(WindowInputs(ws[k])), s, input)
    ensures Alike(WindowTable(eng, names, t1, ws), WindowTable(eng, names, t2, ws), s, i)
  {
    var more1 := seq(|ws|, k requires 0 <= k < |ws| => WindowColumn(eng, names, t1, ws[k]));
    var more2 := seq(|ws|, k requires 0 <= k < |ws| => WindowColumn(eng, names, t2, ws[k]));
    forall k: nat | k < |ws| && Wanted(s, i, |names|, k)
      ensures more1[k] == more2[k]
    {
      ExprRowsAgree(eng, names, t1, t2, WindowInputs(ws[k]), s, input);
    }
    WithColumnsAlike(t1, t2, more1, more2, s, i);
  }

  lemma WindowHeld(cat: Catalog, plan: Store, i: nat, s: Fields, k: nat)
    requires i < |plan| && plan[i].Window? && plan[i].input < i && ReadsHeld(cat, plan, i, s)
    requires k < |plan[i].projections| && Wanted(s, i, |Columns(cat, plan, plan[i].input)|, k)
    ensures Settled(Columns(cat, plan, plan[i].input), AllReferences(WindowInputs(plan[i].projections[k])), s, plan[i].input)
  {
    var names := Columns(cat, plan, plan[i].input);
    WindowReadsAre(cat, plan, i, k);
    assert ColumnHeld(cat, plan, i, |names| + k, s);
    ResolvedHeld(plan[i].input, names, AllReferences(WindowInputs(plan[i].projections[k])), s);
  }

  lemma WindowAgrees(eng: Engine, cat: Catalog, plan: Store, i: nat, s: Fields, t1: Table, t2: Table)
    requires i < |plan| && plan[i].Window? && plan[i].input < i && ReadsHeld(cat, plan, i, s)
    requires Alike(t1, t2, s, plan[i].input) && |t1.cols| == |Columns(cat, plan, plan[i].input)|
    ensures AlikeRuns(EvalUnary(eng, Columns(cat, plan, plan[i].input), Some(t1), plan[i]),
                      EvalUnary(eng, Columns(cat, plan, plan[i].input), Some(t2), plan[i]), s, i)
  {
    var input, ws := plan[i].input, plan[i].projections;
    var names := Columns(cat, plan, input);
    forall c: nat | c < |t1.cols| && (i, c) in s
      ensures (input, c) in s
    {
      assert ColumnHeld(cat, plan, i, c, s);
    }
    forall k: nat | k < |ws| && Wanted(s, i, |names|, k)
      ensures Settled(names, AllReferences(WindowInputs(ws[k])), s, input)
    {
      WindowHeld(cat, plan, i, s, k);
    }
    WindowTablesAgree(eng, names, t1, t2, ws, s, input, i);
  }

  // ----- joining -----

  lemma HitsAgree(eng: Engine, l: seq<string>, r: seq<string>, l1: Table, l2: Table, r1: Table, r2: Table,
                  on: ColumnExpr, s: Fields, left: nat, right: nat)
    requires Alike(l1, l2, s, left) && Alike(r1, r2, s, right) && |l1.cols| == |l| && |r1.cols| == |r|
    requires forall x :: x in References(on) ==>
               && (x in l ==> (left, FirstIndex(l, x)) in s)
               && (x !in l && x in r ==> (right, FirstIndex(r, x)) in s)
    ensures Hits(eng, l + r, l1, r1, on) == Hits(eng, l + r, l2, r2, on)
  {
    var hits1, hits2 := Hits(eng, l + r, l1, r1, on), Hits(eng, l + r, l2, r2, on);
    forall j | 0 <= j < l1.count
      ensures hits1[j] == hits2[j]
    {
      forall k | 0 <= k < r1.count
        ensures hits1[j][k] == hits2[j][k]
      {
        PairAgrees(l, r, l1, l2, r1, r2, References(on), s, left, right, j, k);
        EvalDependsOnReferences(eng, l + r, RowAt(l1, j) + RowAt(r1, k), l + r, RowAt(l2, j) + RowAt(r2, k), on);
      }
    }
  }

  lemma PairAgrees(l: seq<string>, r: seq<string>, l1: Table, l2: Table, r1: Table, r2: Table,
                   refs: set<string>, s: Fields, left: nat, right: nat, j: nat, k: nat)
    requires Alike(l1, l2, s, left) && Alike(r1, r2, s, right) && |l1.cols| == |l| && |r1.cols| == |r|
    requires j < l1.count && k < r1.count
    requires forall x :: x in refs ==>
               && (x in l ==> (left, FirstIndex(l, x)) in s)
               && (x !in l && x in r ==> (right, FirstIndex(r, x)) in s)
    ensures SameOn(l + r, RowAt(l1, j) + RowAt(r1, k), l + r, RowAt(l2, j) + RowAt(r2, k), refs)
  {
    forall x | x in refs
      ensures Lookup(l + r, RowAt(l1, j) + RowAt(r1, k), x) == Lookup(l + r, RowAt(l2, j) + RowAt(r2, k), x)
    {
      FirstIndexAppend(l, r, x);
    }
  }

  lemma JoinedAlike(l1: Table, l2: Table, r1: Table, r2: Table, hits: seq<seq<bool>>, outer: bool,
                    s: Fields, left: nat, right: nat, i: nat)
    requires Alike(l1, l2, s, left) && Alike(r1, r2, s, right)
    requires |hits| == l1.count && forall j :: 0 <= j < |hits| ==> |hits[j]| == r1.count
    requires forall c: nat :: c < |l1.cols| && (i, c) in s ==> (left, c) in s
    requires forall c: nat :: c < |r1.cols| && (i, |l1.cols| + c) in s ==> (right, c) in s
    ensures Alike(JoinTables(l1, r1, hits, outer), JoinTables(l2, r2, hits, outer), s, i)
  {
    var ps := Pairs(hits, outer);
    GatherAlike(l1, l2, LeftPicks(ps), s, left, i);
    var more1, more2 := PadColumns(r1, ps), PadColumns(r2, ps);
    forall k: nat | k < |r1.cols| && Wanted(s, i, |l1.cols|, k)
      ensures more1[k] == more2[k]
    {
      assert (right, k) in s;
    }
    WithColumnsAlike(Gather(l1, LeftPicks(ps)), Gather(l2, LeftPicks(ps)), more1, more2, s, i);
  }

  /** The columns a join predicate resolves to, on either side, are in s. */
  ghost predicate PredicateSettled(l: seq<string>, q: seq<string>, refs: set<string>, s: Fields, left: nat, right: nat) {
    forall x :: x in refs ==>
      && (x in l ==> (left, FirstIndex(l, x)) in s)
      && (x !in l && x in q ==> (right, FirstIndex(q, x)) in s)
  }

  lemma PredicateHeld(l: seq<string>, q: seq<string>, refs: set<string>, s: Fields, left: nat, right: nat)
    requires AllIn(At(left, Resolved(l, refs)) + At(right, RightReads(l, q, refs)), s)
    ensures PredicateSettled(l, q, refs, s, left, right)
  {
    forall x | x in refs && x in l ensures (left, FirstIndex(l, x)) in s {
      assert FirstIndex(l, x) in Resolved(l, refs);
      assert (left, FirstIndex(l, x)) in At(left, Resolved(l, refs));
    }
    forall x | x in refs && x !in l && x in q ensures (right, FirstIndex(q, x)) in s {
      assert FirstIndex(q, x) in RightReads(l, q, refs);
      assert (right, FirstIndex(q, x)) in At(right, RightReads(l, q, refs));
    }
  }

  lemma JoinAgrees(eng: Engine, cat: Catalog, plan: Store, i: nat, s: Fields, l1: Table, l2: Table, r1: Table, r2: Table)
    requires i < |plan| && plan[i].Join? && plan[i].left < i && plan[i].right < i && ReadsHeld(cat, plan, i, s)
    requires Alike(l1, l2, s, plan[i].left) && |l1.cols| == |Columns(cat, plan, plan[i].left)|
    requires Alike(r1, r2, s, plan[i].right) && |r1.cols| == |Columns(cat, plan, plan[i].right)|
    ensures var node := plan[i];
            var l, q := Columns(cat, plan, node.left), Qualify(Columns(cat, plan, node.right), node.relationName);
            AlikeRuns(EvalJoin(eng, l, Some(l1), q, Some(r1), node.kind, node.on),
                      EvalJoin(eng, l, Some(l2), q, Some(r2), node.kind, node.on), s, i)
  {
    var left, right, on := plan[i].left, plan[i].right, plan[i].on;
    var l, q := Columns(cat, plan, left), Qualify(Columns(cat, plan, right), plan[i].relationName);
    PredicateHeld(l, q, References(on), s, left, right);
    forall c: nat | c < |l| && (i, c) in s
      ensures (left, c) in s
    {
      assert ColumnHeld(cat, plan, i, c, s);
    }
    forall c: nat | c < |q| && (i, |l| + c) in s
      ensures (right, c) in s
    {
      assert ColumnHeld(cat, plan, i, |l| + c, s);
    }
    HitsAgree(eng, l, q, l1, l2, r1, r2, on, s, left, right);
    JoinedAlike(l1, l2, r1, r2, Hits(eng, l + q, l1, r1, on), plan[i].kind == Left, s, left, right, i);
  }

  // ----- assigning -----

  ghost predicate InFields(columns: set<nat>, s: Fields, input: nat) {
    forall o :: o in columns ==> (input, o) in s
  }

  /** The bindings of two runs after some assignments: a name agrees once the input columns behind it are in s. */
  ghost predicate Bound(inNames: seq<string>, earlier: seq<Assignment>, b1: Table, b2: Table, s: Fields, input: nat) {
    var names := InsertAll(inNames, AssignedNames(earlier));
    && b1.count == b2.count && |names| == |b1.cols| == |b2.cols|
    && forall x {:trigger Origin(inNames, earlier, x)} ::
         x in names && InFields(Origin(inNames, earlier, x), s, input) ==>
           b1.cols[FirstIndex(names, x)] == b2.cols[FirstIndex(names, x)]
  }

  lemma BoundAtStart(inNames: seq<string>, t1: Table, t2: Table, s: Fields, input: nat)
    requires Alike(t1, t2, s, input) && |t1.cols| == |inNames|
    ensures Bound(inNames, [], t1, t2, s, input)
  {
  }

  /** An expression over the current bindings has the same column in both runs once all it reads is in s. */
  lemma BoundColumns(eng: Engine, inNames: seq<string>, earlier: seq<Assignment>, b1: Table, b2: Table,
                     s: Fields, input: nat, e: ColumnExpr)
    requires Bound(inNames, earlier, b1, b2, s, input) && InFields(Reads(inNames, earlier, e), s, input)
    ensures var names := InsertAll(inNames, AssignedNames(earlier));
            ExprColumn(eng, names, b1, e) == ExprColumn(eng, names, b2, e)
  {
    var names := InsertAll(inNames, AssignedNames(earlier));
    forall j | 0 <= j < b1.count
      ensures EvalExpr(eng, names, RowAt(b1, j), e) == EvalExpr(eng, names, RowAt(b2, j), e)
    {
      forall x | x in References(e)
        ensures Lookup(names, RowAt(b1, j), x) == Lookup(names, RowAt(b2, j), x)
      {
        assert Origin(inNames, earlier, x) <= Reads(inNames, earlier, e);
      }
      EvalDependsOnReferences(eng, names, RowAt(b1, j), names, RowAt(b2, j), e);
    }
  }

  lemma AssignedNamesExtend(inNames: seq<string>, earlier: seq<Assignment>, a: Assignment)
    ensures InsertAll(inNames, AssignedNames(earlier + [a]))
         == Insert(InsertAll(inNames, AssignedNames(earlier)), a.outputName)
  {
    assert AssignedNames(earlier + [a]) == AssignedNames(earlier) + [a.outputName];
    InsertAllAppend(inNames, AssignedNames(earlier), [a.outputName]);
    InsertAllOne(InsertAll(inNames, AssignedNames(earlier)), a.outputName);
  }

  lemma OriginExtends(inNames: seq<string>, earlier: seq<Assignment>, a: Assignment, x: string)
    ensures Origin(inNames, earlier + [a], x)
         == if x == a.outputName then Reads(inNames, earlier, a.expr) else Origin(inNames, earlier, x)
  {
    assert (earlier + [a])[..|earlier|] == earlier;
  }

  /** Binding one more name keeps the invariant. */
  lemma BoundStep(eng: Engine, inNames: seq<string>, earlier: seq<Assignment>, b1: Table, b2: Table,
                  s: Fields, input: nat, a: Assignment)
    requires Bound(inNames, earlier, b1, b2, s, input)
    ensures var names := InsertAll(inNames, AssignedNames(earlier));
            Bound(inNames, earlier + [a], Bind(names, b1, a.outputName, ExprColumn(eng, names, b1, a.expr)),
                  Bind(names, b2, a.outputName, ExprColumn(eng, names, b2, a.expr)), s, input)
  {
    var names := InsertAll(inNames, AssignedNames(earlier));
    var c1, c2 := ExprColumn(eng, names, b1, a.expr), ExprColumn(eng, names, b2, a.expr);
    var d1, d2 := Bind(names, b1, a.outputName, c1), Bind(names, b2, a.outputName, c2);
    AssignedNamesExtend(inNames, earlier, a);
    var next := Insert(names, a.outputName);
    forall x | x in next && InFields(Origin(inNames, earlier + [a], x), s, input)
      ensures d1.cols[FirstIndex(next, x)] == d2.cols[FirstIndex(next, x)]
    {
      OriginExtends(inNames, earlier, a, x);
      if x == a.outputName {
        BoundColumns(eng, inNames, earlier, b1, b2, s, input, a.expr);
        BoundSlot(names, b1, x, c1);
        BoundSlot(names, b2, x, c2);
      } else {
        OtherSlot(names, b1, a.outputName, c1, x);
        OtherSlot(names, b2, a.outputName, c2, x);
      }
    }
  }

  lemma BoundSlot(names: seq<string>, b: Table, name: string, c: Column)
    requires |names| == |b.cols| && |c| == b.count
    ensures Bind(names, b, name, c).cols[FirstIndex(Insert(names, name), name)] == c
  {
    FirstIndexAppend(names, [name], name);
  }

  lemma OtherSlot(names: seq<string>, b: Table, name: string, c: Column, x: string)
    requires |names| == |b.cols| && |c| == b.count && x != name && x in Insert(names, name)
    ensures x in names && Bind(names, b, name, c).cols[FirstIndex(Insert(names, name), x)] == b.cols[FirstIndex(names, x)]
  {
    FirstIndexAppend(names, [name], x);
  }

  lemma HeldFields(input: nat, columns: set<nat>, s: Fields)
    requires AllIn(At(input, columns), s)
    ensures InFields(columns, s, input)
  {
    forall o | o in columns ensures (input, o) in s {
      assert (input, o) in At(input, columns);
    }
  }

  /** Running the remaining assignments keeps the bindings of two runs in step. */
  lemma {:induction false} AssignBound(
      eng: Engine, inNames: seq<string>, all: seq<Assignment>, k: nat, b1: Table, b2: Table, s: Fields, input: nat)
    requires k <= |all| && Bound(inNames, all[..k], b1, b2, s, input)
    ensures var names := InsertAll(inNames, AssignedNames(all[..k]));
            var r1, r2 := Assign(eng, names, b1, all[k..]), Assign(eng, names, b2, all[k..]);
            r1.Some? == r2.Some? && (r1.Some? ==> Bound(inNames, all, r1.value, r2.value, s, input))
    decreases |all| - k
  {
    var names := InsertAll(inNames, AssignedNames(all[..k]));
    if k == |all| {
      assert all[..k] == all;
    } else if Resolves(names, all[k].expr) {
      var a := all[k];
      assert all[k..][0] == a && all[k..][1..] == all[k + 1..] && all[..k + 1] == all[..k] + [a];
      var c1, c2 := ExprColumn(eng, names, b1, a.expr), ExprColumn(eng, names, b2, a.expr);
      BoundStep(eng, inNames, all[..k], b1, b2, s, input, a);
      AssignedNamesExtend(inNames, all[..k], a);
      AssignBound(eng, inNames, all, k + 1, Bind(names, b1, a.outputName, c1), Bind(names, b2, a.outputName, c2), s, input);
    }
  }

  /** Assignments leave a column alone that is not the first of its name. */
  lemma {:induction false} AssignKeeps(eng: Engine, names: seq<string>, t: Table, assignments: seq<Assignment>, c: nat)
    requires |names| == |t.cols| && c < |names| && FirstIndex(names, names[c]) != c
    ensures var r := Assign(eng, names, t, assignments);
            r.Some? ==> c < |r.value.cols| && r.value.cols[c] == t.cols[c]
    decreases |assignments|
  {
    if assignments != [] && Resolves(names, assignments[0].expr) {
      var a := assignments[0];
      assert AssignedNames(assignments)[1..] == AssignedNames(assignments[1..]);
      FirstIndexAppend(names, [a.outputName], names[c]);
      var next := Bind(names, t, a.outputName, ExprColumn(eng, names, t, a.expr));
      AssignKeeps(eng, Insert(names, a.outputName), next, assignments[1..], c);
    }
  }

  lemma ProjectAgrees(eng: Engine, cat: Catalog, plan: Store, i: nat, s: Fields, t1: Table, t2: Table)
    requires i < |plan| && plan[i].Project? && plan[i].input < i && ReadsHeld(cat, plan, i, s)
    requires Alike(t1, t2, s, plan[i].input) && |t1.cols| == |Columns(cat, plan, plan[i].input)|
    ensures AlikeRuns(EvalUnary(eng, Columns(cat, plan, plan[i].input), Some(t1), plan[i]),
                      EvalUnary(eng, Columns(cat, plan, plan[i].input), Some(t2), plan[i]), s, i)
  {
    var input, assignments := plan[i].input, plan[i].assignments;
    var names := Columns(cat, plan, input);
    BoundAtStart(names, t1, t2, s, input);
    assert assignments[..0] == [] && assignments[0..] == assignments;
    AssignBound(eng, names, assignments, 0, t1, t2, s, input);
    var r1, r2 := Assign(eng, names, t1, assignments), Assign(eng, names, t2, assignments);
    if r1.Some? {
      forall c: nat | c < |r1.value.cols| && (i, c) in s ensures r1.value.cols[c] == r2.value.cols[c] {
        ProjectedColumnAgrees(eng, cat, plan, i, s, t1, t2, r1.value, r2.value, c);
      }
    }
  }

  lemma ProjectedColumnAgrees(
      eng: Engine, cat: Catalog, plan: Store, i: nat, s: Fields, t1: Table, t2: Table, r1: Table, r2: Table, c: nat)
    requires i < |plan| && plan[i].Project? && plan[i].input < i && ReadsHeld(cat, plan, i, s)
    requires Alike(t1, t2, s, plan[i].input) && |t1.cols| == |Columns(cat, plan, plan[i].input)|
    requires Assign(eng, Columns(cat, plan, plan[i].input), t1, plan[i].assignments) == Some(r1)
    requires Assign(eng, Columns(cat, plan, plan[i].input), t2, plan[i].assignments) == Some(r2)
    requires Bound(Columns(cat, plan, plan[i].input), plan[i].assignments, r1, r2, s, plan[i].input)
    requires c < |r1.cols| && (i, c) in s
    ensures r1.cols[c] == r2.cols[c]
  {
    var input, assignments := plan[i].input, plan[i].assignments;
    var names, out := Columns(cat, plan, input), Columns(cat, plan, i);
    assert ColumnHeld(cat, plan, i, c, s);
    HeldFields(input, SlotReads(names, out, assignments, c), s);
    AssignedColumnAgrees(eng, names, assignments, s, input, t1, t2, r1, r2, c);
  }

  lemma AssignedColumnAgrees(
      eng: Engine, names: seq<string>, assignments: seq<Assignment>, s: Fields, input: nat, t1: Table, t2: Table,
      r1: Table, r2: Table, c: nat)
    requires Alike(t1, t2, s, input) && |t1.cols| == |names| && Bound(names, assignments, r1, r2, s, input)
    requires Assign(eng, names, t1, assignments) == Some(r1) && Assign(eng, names, t2, assignments) == Some(r2)
    requires var out := InsertAll(names, AssignedNames(assignments));
             c < |out| && InFields(SlotReads(names, out, assignments, c), s, input)
    ensures r1.cols[c] == r2.cols[c]
  {
    var out := InsertAll(names, AssignedNames(assignments));
    if FirstIndex(out, out[c]) != c {
      LaterSlot(names, AssignedNames(assignments), c);
      AssignKeeps(eng, names, t1, assignments, c);
      AssignKeeps(eng, names, t2, assignments, c);
    }
  }

  /** A slot that is not the first of its name is an input slot that is not the first of its name. */
  lemma LaterSlot(names: seq<string>, more: seq<string>, c: nat)
    requires var out := InsertAll(names, more); c < |out| && FirstIndex(out, out[c]) != c
    ensures c < |names| && FirstIndex(names, names[c]) != c
  {
    var out := InsertAll(names, more);
    InsertAllFacts(names, more);
    if c >= |names| {
      AddedIsFirst(names, more, c);
    } else {
      assert out == names + out[|names|..];
      FirstIndexAppend(names, out[|names|..], names[c]);
    }
  }

  ghost predicate SelectedAlike(r1: Option<Table>, r2: Option<Table>, want: seq<bool>) {
    && r1.Some? == r2.Some?
    && (r1.Some? ==> r1.value.count == r2.value.count && |r1.value.cols| == |r2.value.cols| == |want|)
    && (r1.Some? ==> forall k :: 0 <= k < |want| && want[k] ==> r1.value.cols[k] == r2.value.cols[k])
  }

  /** `want` marks the selected columns that must agree. */
  lemma {:induction false} SelectAgrees(
      eng: Engine, inNames: seq<string>, all: seq<Assignment>, k: nat, b1: Table, b2: Table,
      s: Fields, input: nat, want: seq<bool>)
    requires k <= |all| && |want| == |all| && Bound(inNames, all[..k], b1, b2, s, input)
    requires forall j {:trigger want[j]} ::
      0 <= j < |all| && want[j] ==> InFields(Reads(inNames, all[..j], all[j].expr), s, input)
    ensures var names := InsertAll(inNames, AssignedNames(all[..k]));
            SelectedAlike(Select(eng, names, b1, all[k..]), Select(eng, names, b2, all[k..]), want[k..])
    decreases |all| - k
  {
    var names := InsertAll(inNames, AssignedNames(all[..k]));
    if k < |all| && Resolves(names, all[k].expr) {
      var a := all[k];
      assert all[k..][0] == a && all[k..][1..] == all[k + 1..] && all[..k + 1] == all[..k] + [a];
      var c1, c2 := ExprColumn(eng, names, b1, a.expr), ExprColumn(eng, names, b2, a.expr);
      if want[k] {
        BoundColumns(eng, inNames, all[..k], b1, b2, s, input, a.expr);
      }
      BoundStep(eng, inNames, all[..k], b1, b2, s, input, a);
      AssignedNamesExtend(inNames, all[..k], a);
      SelectAgrees(eng, inNames, all, k + 1, Bind(names, b1, a.outputName, c1), Bind(names, b2, a.outputName, c2),
                   s, input, want);
      assert want[k..][1..] == want[k + 1..];
    }
  }

  lemma SelectProjectAgrees(eng: Engine, cat: Catalog, plan: Store, i: nat, s: Fields, t1: Table, t2: Table)
    requires i < |plan| && plan[i].SelectProject? && plan[i].input < i && ReadsHeld(cat, plan, i, s)
    requires Alike(t1, t2, s, plan[i].input) && |t1.cols| == |Columns(cat, plan, plan[i].input)|
    ensures AlikeRuns(EvalUnary(eng, Columns(cat, plan, plan[i].input), Some(t1), plan[i]),
                      EvalUnary(eng, Columns(cat, plan, plan[i].input), Some(t2), plan[i]), s, i)
  {
    var input, assignments := plan[i].input, plan[i].assignments;
    var names := Columns(cat, plan, input);
    ghost var want := seq(|assignments|, k requires 0 <= k < |assignments| => (i, k) in s);
    forall k | 0 <= k < |assignments| && want[k]
      ensures InFields(Reads(names, assignments[..k], assignments[k].expr), s, input)
    {
      assert ColumnHeld(cat, plan, i, k, s);
      HeldFields(input, Reads(names, assignments[..k], assignments[k].expr), s);
    }
    BoundAtStart(names, t1, t2, s, input);
    assert assignments[0..] == assignments && want[0..] == want;
    SelectAgrees(eng, names, assignments, 0, t1, t2, s, input, want);
  }

  // ----- every node, every plan -----

  lemma UnaryAgrees(eng: Engine, cat: Catalog, plan: Store, i: nat, s: Fields, r1: Option<Table>, r2: Option<Table>)
    requires i < |plan| && !plan[i].Read? && !plan[i].Join? && !plan[i].Aggregate? && plan[i].input < i
    requires ReadsHeld(cat, plan, i, s) && AlikeRuns(r1, r2, s, plan[i].input)
    requires r1.Some? ==> |r1.value.cols| == |Columns(cat, plan, plan[i].input)|
    ensures AlikeRuns(EvalUnary(eng, Columns(cat, plan, plan[i].input), r1, plan[i]),
                      EvalUnary(eng, Columns(cat, plan, plan[i].input), r2, plan[i]), s, i)
    ensures plan[i].GroupBy? ==>
      EvalUnary(eng, Columns(cat, plan, plan[i].input), r1, plan[i])
        == EvalUnary(eng, Columns(cat, plan, plan[i].input), r2, plan[i])
  {
    if r1.Some? {
      match plan[i] {
        case Filter(_, _) => FilterAgrees(eng, cat, plan, i, s, r1.value, r2.value);
        case Project(_, _) => ProjectAgrees(eng, cat, plan, i, s, r1.value, r2.value);
        case SelectProject(_, _) => SelectProjectAgrees(eng, cat, plan, i, s, r1.value, r2.value);
        case GroupBy(_, _) => GroupByAgrees(eng, cat, plan, i, s, r1.value, r2.value);
        case Generate(_, _) => GenerateAgrees(eng, cat, plan, i, s, r1.value, r2.value);
        case Window(_, _) => WindowAgrees(eng, cat, plan, i, s, r1.value, r2.value);
        case OrderBy(_, _) => OrderByAgrees(eng, cat, plan, i, s, r1.value, r2.value);
        case Limit(_, _) => LimitAgrees(eng, cat, plan, i, s, r1.value, r2.value);
      }
    }
  }

  /** The two databases agree on the read columns in s, row count and width, for every table below the tip. */
  ghost predicate RootsAgree(plan: Store, tip: nat, db1: Database, db2: Database, s: Fields)
    requires tip < |plan|
  {
    forall i: nat :: i < |plan| && Feeds(plan, i, tip) && plan[i].Read? ==>
      Alike(db1(plan[i].table), db2(plan[i].table), s, i)
  }

  /** Below the tip s holds what every node reads, and aggregates keep their width. */
  ghost predicate Slice(cat: Catalog, plan: Store, tip: nat, s: Fields)
    requires tip < |plan|
  {
    forall i: nat :: i < |plan| && Feeds(plan, i, tip) ==> Aligned(plan, i) && ReadsHeld(cat, plan, i, s)
  }

  lemma JoinWidth(eng: Engine, cat: Catalog, db: Database, plan: Store, i: nat)
    requires i < |plan| && plan[i].Join? && plan[i].left < i && plan[i].right < i
    requires var l := Eval(eng, cat, db, plan, plan[i].left); l.Some? ==> |l.value.cols| == |Columns(cat, plan, plan[i].left)|
    requires var r := Eval(eng, cat, db, plan, plan[i].right); r.Some? ==> |r.value.cols| == |Columns(cat, plan, plan[i].right)|
    ensures var r := Eval(eng, cat, db, plan, i); r.Some? ==> |r.value.cols| == |Columns(cat, plan, i)|
  {
  }

  lemma UnaryWidth(eng: Engine, cat: Catalog, db: Database, plan: Store, i: nat)
    requires i < |plan| && !plan[i].Read? && !plan[i].Join? && !plan[i].Aggregate? && plan[i].input < i
    requires var t := Eval(eng, cat, db, plan, plan[i].input); t.Some? ==> |t.value.cols| == |Columns(cat, plan, plan[i].input)|
    ensures var r := Eval(eng, cat, db, plan, i); r.Some? ==> |r.value.cols| == |Columns(cat, plan, i)|
  {
  }

  /** Widths hold below the tip when its aggregates keep theirs. */
  lemma {:induction false} WidthBelow(eng: Engine, cat: Catalog, db: Database, plan: Store, tip: nat, s: Fields, i: nat)
    requires tip < |plan| && i < |plan| && Feeds(plan, i, tip) && Slice(cat, plan, tip, s)
    ensures var r := Eval(eng, cat, db, plan, i); r.Some? ==> |r.value.cols| == |Columns(cat, plan, i)|
    decreases i
  {
    assert Aligned(plan, i);
    match plan[i] {
      case Read(_) =>
      case Aggregate(_, _, _) => AggregateWidth(eng, cat, db, plan, i);
      case Join(left, right, _, _, _) =>
        assert plan[i].Inputs()[0] == left && plan[i].Inputs()[1] == right;
        FeedsInput(plan, i, left, tip);
        FeedsInput(plan, i, right, tip);
        WidthBelow(eng, cat, db, plan, tip, s, left);
        WidthBelow(eng, cat, db, plan, tip, s, right);
        JoinWidth(eng, cat, db, plan, i);
      case node =>
        assert plan[i].Inputs()[0] == node.input;
        FeedsInput(plan, i, node.input, tip);
        WidthBelow(eng, cat, db, plan, tip, s, node.input);
        UnaryWidth(eng, cat, db, plan, i);
    }
  }

  lemma {:induction false} NodesAgree(
      eng: Engine, cat: Catalog, plan: Store, tip: nat, db1: Database, db2: Database, s: Fields, i: nat)
    requires tip < |plan| && i < |plan| && Feeds(plan, i, tip) && Slice(cat, plan, tip, s)
    requires RootsAgree(plan, tip, db1, db2, s)
    ensures AlikeRuns(Eval(eng, cat, db1, plan, i), Eval(eng, cat, db2, plan, i), s, i)
    ensures plan[i].GroupBy? ==> Eval(eng, cat, db1, plan, i) == Eval(eng, cat, db2, plan, i)
    decreases i, 3
  {
    if plan[i].Read? {
    } else if plan[i].Join? {
      JoinNodeAgrees(eng, cat, plan, tip, db1, db2, s, i);
    } else if plan[i].Aggregate? {
      AggregateNodeAgrees(eng, cat, plan, tip, db1, db2, s, i);
    } else {
      UnaryNodeAgrees(eng, cat, plan, tip, db1, db2, s, i);
    }
  }

  lemma {:induction false} JoinNodeAgrees(
      eng: Engine, cat: Catalog, plan: Store, tip: nat, db1: Database, db2: Database, s: Fields, i: nat)
    requires tip < |plan| && i < |plan| && Feeds(plan, i, tip) && Slice(cat, plan, tip, s)
    requires RootsAgree(plan, tip, db1, db2, s)
    requires plan[i].Join?
    ensures AlikeRuns(Eval(eng, cat, db1, plan, i), Eval(eng, cat, db2, plan, i), s, i)
    decreases i, 1
  {
    var left, right := plan[i].left, plan[i].right;
    assert plan[i].Inputs()[0] == left && plan[i].Inputs()[1] == right;
    InputAgrees(eng, cat, plan, tip, db1, db2, s, i, left);
    InputAgrees(eng, cat, plan, tip, db1, db2, s, i, right);
    JoinFromInputs(eng, cat, plan, tip, db1, db2, s, i);
  }

  ghost predicate InputReady(
      eng: Engine, cat: Catalog, plan: Store, db1: Database, db2: Database, s: Fields, input: nat)
    requires input < |plan|
  {
    var t1, t2 := Eval(eng, cat, db1, plan, input), Eval(eng, cat, db2, plan, input);
    AlikeRuns(t1, t2, s, input) && (t1.Some? ==> |t1.value.cols| == |Columns(cat, plan, input)|)
  }

  lemma JoinFromInputs(
      eng: Engine, cat: Catalog, plan: Store, tip: nat, db1: Database, db2: Database, s: Fields, i: nat)
    requires tip < |plan| && i < |plan| && Feeds(plan, i, tip) && Slice(cat, plan, tip, s)
    requires plan[i].Join? && plan[i].left < i && plan[i].right < i
    requires InputReady(eng, cat, plan, db1, db2, s, plan[i].left)
    requires InputReady(eng, cat, plan, db1, db2, s, plan[i].right)
    ensures AlikeRuns(Eval(eng, cat, db1, plan, i), Eval(eng, cat, db2, plan, i), s, i)
  {
    var left, right := plan[i].left, plan[i].right;
    var l1, l2 := Eval(eng, cat, db1, plan, left), Eval(eng, cat, db2, plan, left);
    var r1, r2 := Eval(eng, cat, db1, plan, right), Eval(eng, cat, db2, plan, right);
    if l1.Some? && r1.Some? {
      JoinAgrees(eng, cat, plan, i, s, l1.value, l2.value, r1.value, r2.value);
    }
  }

  lemma {:induction false} AggregateNodeAgrees(
      eng: Engine, cat: Catalog, plan: Store, tip: nat, db1: Database, db2: Database, s: Fields, i: nat)
    requires tip < |plan| && i < |plan| && Feeds(plan, i, tip) && Slice(cat, plan, tip, s)
    requires RootsAgree(plan, tip, db1, db2, s)
    requires plan[i].Aggregate?
    ensures AlikeRuns(Eval(eng, cat, db1, plan, i), Eval(eng, cat, db2, plan, i), s, i)
    decreases i, 2
  {
    if ReadsGrouping(plan, i) {
      assert plan[i].Inputs()[0] == plan[i].input;
      FeedsInput(plan, i, plan[i].input, tip);
      NodesAgree(eng, cat, plan, tip, db1, db2, s, plan[i].input);
      assert AggregateSource(plan, i) == (plan[i].input, plan[i].keys);
    } else {
      AggregateSourceAgrees(eng, cat, plan, tip, db1, db2, s, i);
      AggregateFromSource(eng, cat, plan, tip, db1, db2, s, i);
    }
  }

  lemma AggregateFromSource(
      eng: Engine, cat: Catalog, plan: Store, tip: nat, db1: Database, db2: Database, s: Fields, i: nat)
    requires tip < |plan| && i < |plan| && Feeds(plan, i, tip) && Slice(cat, plan, tip, s)
    requires plan[i].Aggregate? && !ReadsGrouping(plan, i)
    requires InputReady(eng, cat, plan, db1, db2, s, AggregateSource(plan, i).0)
    ensures AlikeRuns(Eval(eng, cat, db1, plan, i), Eval(eng, cat, db2, plan, i), s, i)
  {
    var (source, keys) := AggregateSource(plan, i);
    var t1, t2 := Eval(eng, cat, db1, plan, source), Eval(eng, cat, db2, plan, source);
    if t1.Some? {
      AggregateAgrees(eng, cat, plan, i, source, keys, s, t1.value, t2.value);
    }
  }

  lemma {:induction false} AggregateSourceAgrees(
      eng: Engine, cat: Catalog, plan: Store, tip: nat, db1: Database, db2: Database, s: Fields, i: nat)
    requires tip < |plan| && i < |plan| && Feeds(plan, i, tip) && Slice(cat, plan, tip, s)
    requires RootsAgree(plan, tip, db1, db2, s)
    requires plan[i].Aggregate?
    ensures InputReady(eng, cat, plan, db1, db2, s, AggregateSource(plan, i).0)
    decreases i, 1
  {
    var input, source := plan[i].input, AggregateSource(plan, i).0;
    assert plan[i].Inputs()[0] == input;
    FeedsInput(plan, i, input, tip);
    if source == input {
      InputAgrees(eng, cat, plan, tip, db1, db2, s, i, input);
    } else {
      assert plan[input].Inputs()[0] == source;
      InputAgrees(eng, cat, plan, tip, db1, db2, s, input, source);
    }
  }

  lemma {:induction false} UnaryNodeAgrees(
      eng: Engine, cat: Catalog, plan: Store, tip: nat, db1: Database, db2: Database, s: Fields, i: nat)
    requires tip < |plan| && i < |plan| && Feeds(plan, i, tip) && Slice(cat, plan, tip, s)
    requires RootsAgree(plan, tip, db1, db2, s)
    requires !plan[i].Read? && !plan[i].Join? && !plan[i].Aggregate?
    ensures AlikeRuns(Eval(eng, cat, db1, plan, i), Eval(eng, cat, db2, plan, i), s, i)
    ensures plan[i].GroupBy? ==> Eval(eng, cat, db1, plan, i) == Eval(eng, cat, db2, plan, i)
    decreases i, 1
  {
    assert plan[i].Inputs()[0] == plan[i].input;
    InputAgrees(eng, cat, plan, tip, db1, db2, s, i, plan[i].input);
    UnaryFromInput(eng, cat, plan, tip, db1, db2, s, i);
  }

  lemma UnaryFromInput(
      eng: Engine, cat: Catalog, plan: Store, tip: nat, db1: Database, db2: Database, s: Fields, i: nat)
    requires tip < |plan| && i < |plan| && Feeds(plan, i, tip) && Slice(cat, plan, tip, s)
    requires !plan[i].Read? && !plan[i].Join? && !plan[i].Aggregate? && plan[i].input < i
    requires InputReady(eng, cat, plan, db1, db2, s, plan[i].input)
    ensures AlikeRuns(Eval(eng, cat, db1, plan, i), Eval(eng, cat, db2, plan, i), s, i)
    ensures plan[i].GroupBy? ==> Eval(eng, cat, db1, plan, i) == Eval(eng, cat, db2, plan, i)
  {
    var input := plan[i].input;
    UnaryAgrees(eng, cat, plan, i, s, Eval(eng, cat, db1, plan, input), Eval(eng, cat, db2, plan, input));
  }

  lemma {:induction false} InputAgrees(
      eng: Engine, cat: Catalog, plan: Store, tip: nat, db1: Database, db2: Database, s: Fields, i: nat, input: nat)
    requires tip < |plan| && i < |plan| && Feeds(plan, i, tip) && Slice(cat, plan, tip, s)
    requires RootsAgree(plan, tip, db1, db2, s)
    requires input in plan[i].Inputs() && input < i
    ensures InputReady(eng, cat, plan, db1, db2, s, input)
    decreases i, 0
  {
    FeedsInput(plan, i, input, tip);
    NodesAgree(eng, cat, plan, tip, db1, db2, s, input);
    WidthBelow(eng, cat, db1, plan, tip, s, input);
  }

  /** Databases that agree on the read columns of a slice and on the table sizes give the same number of rows and the
      same values in every output column of the slice, for every backend. */
  lemma SliceSound(
      eng: Engine, cat: Catalog, plan: Store, tip: nat, f: nat, db1: Database, db2: Database, s: Fields)
    requires tip < |plan| && f < |Columns(cat, plan, tip)| && Slice(cat, plan, tip, s) && (tip, f) in s
    requires RootsAgree(plan, tip, db1, db2, s)
    ensures var r1, r2 := Eval(eng, cat, db1, plan, tip), Eval(eng, cat, db2, plan, tip);
            && r1.Some? == r2.Some?
            && (r1.Some? ==>
                  && r1.value.count == r2.value.count
                  && |r1.value.cols| == |r2.value.cols| == |Columns(cat, plan, tip)|
                  && r1.value.cols[f] == r2.value.cols[f])
  {
    assert Feeds(plan, tip, tip);
    NodesAgree(eng, cat, plan, tip, db1, db2, s, tip);
    WidthBelow(eng, cat, db1, plan, tip, s, tip);
    WidthBelow(eng, cat, db2, plan, tip, s, tip);
  }
}
