/** Prism plans: nodes, output column names, and the table every node denotes.

    Shapes follow src/prism/types.incn and the checks of src/prism/store.incn; names follow
    src/prism/output_columns.incn; meanings follow the lowering in src/prism/lower.incn and src/substrait. */
module Plans {
  import opened Names
  import opened Tables
  import opened Expressions
  import opened Wrappers

  datatype JoinKind = Inner | Left

  datatype Assignment = Assignment(outputName: string, expr: ColumnExpr)

  /** An aggregate measure. The builders keep `has_expr` and `expr` in step with the argument list. */
  datatype Measure = Measure(
    kind: string,
    arguments: seq<ColumnExpr>,
    isDistinct: bool,
    filter: Option<ColumnExpr>,
    ordering: seq<ColumnExpr>,
    suffix: string,
    alias: Option<string>)

  datatype Generator = Generator(
    name: string, rowCount: nat, arguments: seq<ColumnExpr>, outputColumns: seq<string>, preservesInput: bool)

  datatype WindowProjection = WindowProjection(
    outputName: string,
    function_: string,
    arguments: seq<ColumnExpr>,
    partitions: seq<ColumnExpr>,
    sorts: seq<ColumnExpr>,
    frame: string,
    requiresOrdering: bool)

  datatype Node =
    | Read(table: string)
    | Filter(input: nat, predicate_: ColumnExpr)
    | Join(left: nat, right: nat, kind: JoinKind, relationName: string, on: ColumnExpr)
    | Project(input: nat, assignments: seq<Assignment>)
    | SelectProject(input: nat, assignments: seq<Assignment>)
    | GroupBy(input: nat, keys: seq<ColumnExpr>)
    | Aggregate(input: nat, keys: seq<ColumnExpr>, measures: seq<Measure>)
    | Generate(input: nat, generator: Generator)
    | Window(input: nat, projections: seq<WindowProjection>)
    | OrderBy(input: nat, keys: seq<ColumnExpr>)
    | Limit(input: nat, rows: nat)
  {
    function Inputs(): seq<nat> {
      if Read? then [] else if Join? then [left, right] else [input]
    }
  }

  /** An append-only store: node ids are positions. */
  type Plan = seq<Node>
  type Catalog = string -> seq<string>
  type Database = string -> Table

  /** Appending always refers to nodes already in the store. */
  predicate Acyclic(plan: Plan) {
    forall i, k :: 0 <= i < |plan| && 0 <= k < |plan[i].Inputs()| ==> plan[i].Inputs()[k] < i
  }

  type Store = p: Plan | Acyclic(p) witness []

  // ----- names -----

  function AssignedNames(assignments: seq<Assignment>): (r: seq<string>)
    ensures |r| == |assignments|
  {
    seq(|assignments|, k requires 0 <= k < |assignments| => assignments[k].outputName)
  }

  function WindowNames(projections: seq<WindowProjection>): (r: seq<string>)
    ensures |r| == |projections|
  {
    seq(|projections|, k requires 0 <= k < |projections| => projections[k].outputName)
  }

  function Qualify(columns: seq<string>, relation: string): (r: seq<string>)
    ensures |r| == |columns|
  {
    if relation == "" then columns
    else seq(|columns|, k requires 0 <= k < |columns| => relation + "." + columns[k])
  }

  function Digits(n: nat): string {
    if n < 10 then [('0' as int + n) as char] else Digits(n / 10) + [('0' as int + n % 10) as char]
  }

  /** The number some digits spell. */
  function Spelled(digits: string): int {
    if digits == "" then 0
    else 10 * Spelled(digits[..|digits| - 1]) + (digits[|digits| - 1] as int - '0' as int)
  }

  /** Different numbers are spelled differently. */
  lemma {:induction false} DigitsSpell(n: nat)
    ensures Spelled(Digits(n)) == n
  {
    if n >= 10 {
      DigitsSpell(n / 10);
      assert Digits(n)[..|Digits(n)| - 1] == Digits(n / 10);
    } else {
      assert Digits(n)[..0] == "" && Spelled("") == 0;
    }
  }

  /** Unnamed group keys get different names in different places. */
  lemma UnnamedApart(j: nat, k: nat)
    ensures "group_" + Digits(j) == "group_" + Digits(k) <==> j == k
  {
    DigitsSpell(j);
    DigitsSpell(k);
    assert ("group_" + Digits(j))[6..] == Digits(j) && ("group_" + Digits(k))[6..] == Digits(k);
  }

  function GroupNames(keys: seq<ColumnExpr>): (r: seq<string>)
    ensures |r| == |keys|
  {
    seq(|keys|, k requires 0 <= k < |keys| => ScalarOutputName(keys[k], "group_" + Digits(k)))
  }

  function MeasureName(m: Measure): string {
    if m.alias.Some? then m.alias.value
    else
      m.kind
      + (if m.arguments == [] then ""
         else (if m.isDistinct then "_distinct_" else "_") + ScalarOutputName(m.arguments[0], "expr"))
      + m.suffix
      + (if m.filter.Some? then "_filtered" else "")
      + (if m.ordering != [] then "_ordered" else "")
  }

  function MeasureNames(measures: seq<Measure>): (r: seq<string>)
    ensures |r| == |measures|
  {
    seq(|measures|, k requires 0 <= k < |measures| => MeasureName(measures[k]))
  }

  /** Output column names of one node, as authored. */
  function Columns(cat: Catalog, plan: Store, i: nat): seq<string>
    requires i < |plan|
    decreases i
  {
    match plan[i]
    case Read(table) => cat(table)
    case Filter(input, _) => (assert plan[i].Inputs()[0] == input; Columns(cat, plan, input))
    case Join(left, right, _, relation, _) =>
      (assert plan[i].Inputs()[0] == left && plan[i].Inputs()[1] == right;
       Columns(cat, plan, left) + Qualify(Columns(cat, plan, right), relation))
    case Project(input, assignments) =>
      (assert plan[i].Inputs()[0] == input; InsertAll(Columns(cat, plan, input), AssignedNames(assignments)))
    case SelectProject(_, assignments) => AssignedNames(assignments)
    case GroupBy(_, keys) => GroupNames(keys)
    case Aggregate(_, _, measures) => AggregatePrefix(plan, i) + MeasureNames(measures)
    case Generate(input, g) =>
      (assert plan[i].Inputs()[0] == input;
       (if g.preservesInput then Columns(cat, plan, input) else []) + g.outputColumns)
    case Window(input, projections) =>
      (assert plan[i].Inputs()[0] == input; Columns(cat, plan, input) + WindowNames(projections))
    case OrderBy(input, _) => (assert plan[i].Inputs()[0] == input; Columns(cat, plan, input))
    case Limit(input, _) => (assert plan[i].Inputs()[0] == input; Columns(cat, plan, input))
  }

  /** Grouping columns in front of the measures; an aggregate over an aggregate inherits its input's. */
  function AggregatePrefix(plan: Store, i: nat): seq<string>
    requires i < |plan| && plan[i].Aggregate?
    decreases i
  {
    assert plan[i].Inputs()[0] == plan[i].input;
    var source := plan[plan[i].input];
    if plan[i].keys != [] then GroupNames(plan[i].keys)
    else if source.GroupBy? then GroupNames(source.keys)
    else if source.Aggregate? then AggregatePrefix(plan, plan[i].input)
    else []
  }

  // ----- meanings -----

  /** Add-or-replace one column in the current bindings. */
  function Bind(names: seq<string>, t: Table, name: string, col: Column): (r: Table)
    requires |names| == |t.cols| && |col| == t.count
    ensures r.count == t.count && |r.cols| == |Insert(names, name)|
  {
    var k := FirstIndex(names, name);
    if k >= 0 then RawTable(t.count, t.cols[k := col]) else RawTable(t.count, t.cols + [col])
  }

  /** Ordered assignments; each one sees the columns bound before it. None is an unknown column. */
  function Assign(eng: Engine, names: seq<string>, t: Table, assignments: seq<Assignment>): (r: Option<Table>)
    requires |names| == |t.cols|
    ensures r.Some? ==> r.value.count == t.count
    ensures r.Some? ==> |r.value.cols| == |InsertAll(names, AssignedNames(assignments))|
    decreases |assignments|
  {
    if assignments == [] then Some(t)
    else
      var a := assignments[0];
      assert AssignedNames(assignments)[1..] == AssignedNames(assignments[1..]);
      if !Resolves(names, a.expr) then None
      else Assign(eng, Insert(names, a.outputName),
                  Bind(names, t, a.outputName, ExprColumn(eng, names, t, a.expr)), assignments[1..])
  }

  /** An exclusive projection: the same sequential bindings, but only the assigned columns come out. */
  function Select(eng: Engine, names: seq<string>, t: Table, assignments: seq<Assignment>): (r: Option<Table>)
    requires |names| == |t.cols|
    ensures r.Some? ==> r.value.count == t.count && |r.value.cols| == |assignments|
    decreases |assignments|
  {
    if assignments == [] then Some(RawTable(t.count, []))
    else
      var a := assignments[0];
      if !Resolves(names, a.expr) then None
      else
        var col := ExprColumn(eng, names, t, a.expr);
        match Select(eng, Insert(names, a.outputName), Bind(names, t, a.outputName, col), assignments[1..])
        case None => None
        case Some(rest) => Some(RawTable(t.count, [col] + rest.cols))
  }

  /** Which row pairs satisfy the join predicate. */
  function Hits(eng: Engine, names: seq<string>, l: Table, r: Table, on: ColumnExpr): (hits: seq<seq<bool>>)
    ensures |hits| == l.count && forall i :: 0 <= i < |hits| ==> |hits[i]| == r.count
  {
    seq(l.count, i requires 0 <= i < l.count =>
      seq(r.count, j requires 0 <= j < r.count => Holds(EvalExpr(eng, names, RowAt(l, i) + RowAt(r, j), on))))
  }

  /** Members of one group that pass the measure's own filter. */
  function MeasureRows(eng: Engine, names: seq<string>, t: Table, m: Measure, members: seq<nat>): (rows: seq<nat>)
    requires forall k :: 0 <= k < |members| ==> members[k] < t.count
    ensures forall k :: 0 <= k < |rows| ==> rows[k] < t.count
  {
    if m.filter.None? then members
    else
      var keep := seq(|members|, k requires 0 <= k < |members| =>
        Holds(EvalExpr(eng, names, RowAt(t, members[k]), m.filter.value)));
      var picks := Kept(keep);
      seq(|picks|, k requires 0 <= k < |picks| => members[picks[k]])
  }

  function MeasureValue(eng: Engine, names: seq<string>, t: Table, m: Measure, members: seq<nat>): Value
    requires forall k :: 0 <= k < |members| ==> members[k] < t.count
  {
    var rows := MeasureRows(eng, names, t, m, members);
    eng.aggregate(m.kind + m.suffix, m.isDistinct,
      seq(|rows|, k requires 0 <= k < |rows| => EvalAll(eng, names, RowAt(t, rows[k]), m.arguments)),
      seq(|rows|, k requires 0 <= k < |rows| => EvalAll(eng, names, RowAt(t, rows[k]), m.ordering)))
  }

  function MeasureColumn(eng: Engine, names: seq<string>, t: Table, m: Measure, groups: seq<seq<nat>>): (c: Column)
    requires forall g, k :: 0 <= g < |groups| && 0 <= k < |groups[g]| ==> groups[g][k] < t.count
    ensures |c| == |groups|
  {
    seq(|groups|, g requires 0 <= g < |groups| => MeasureValue(eng, names, t, m, groups[g]))
  }

  function MeasureColumns(
      eng: Engine, names: seq<string>, t: Table, measures: seq<Measure>, groups: seq<seq<nat>>): (cs: seq<Column>)
    requires forall g, k :: 0 <= g < |groups| && 0 <= k < |groups[g]| ==> groups[g][k] < t.count
    ensures |cs| == |measures| && forall k :: 0 <= k < |cs| ==> |cs[k]| == |groups|
  {
    seq(|measures|, k requires 0 <= k < |measures| => MeasureColumn(eng, names, t, measures[k], groups))
  }

  function MeasureInputs(m: Measure): seq<ColumnExpr> {
    m.arguments + m.ordering + if m.filter.Some? then [m.filter.value] else []
  }

  predicate MeasuresResolve(names: seq<string>, measures: seq<Measure>) {
    forall k :: 0 <= k < |measures| ==> AllResolve(names, MeasureInputs(measures[k]))
  }

  /** Key columns, then one column per measure. */
  function AggregateTable(
      eng: Engine, names: seq<string>, t: Table, keys: seq<ColumnExpr>, measures: seq<Measure>): (r: Table)
    ensures |r.cols| == |keys| + |measures|
  {
    AggregateOver(eng, names, t, ExprColumns(eng, names, t, keys), measures)
  }

  function AggregateOver(
      eng: Engine, names: seq<string>, t: Table, keyCols: seq<Column>, measures: seq<Measure>): (r: Table)
    requires forall c :: 0 <= c < |keyCols| ==> |keyCols[c]| == t.count
    ensures |r.cols| == |keyCols| + |measures|
  {
    WithColumns(GroupKeys(keyCols, t.count), MeasureColumns(eng, names, t, measures, Groups(keyCols, t.count)))
  }

  function GenerateTable(eng: Engine, names: seq<string>, t: Table, g: Generator): (r: Table)
    ensures |r.cols| == (if g.preservesInput then |t.cols| else 0) + |g.outputColumns|
  {
    var es := Emissions(eng, g.name, g.rowCount, ExprRows(eng, names, t, g.arguments));
    var kept := if g.preservesInput then Gather(t, EmittedRows(es)) else RawTable(|es|, []);
    WithColumns(kept,
      seq(|g.outputColumns|, c requires 0 <= c < |g.outputColumns| => EmittedColumn(es, c)))
  }

  /** No generated name repeats a kept or earlier generated one. */
  predicate FreshOutputs(kept: seq<string>, outputs: seq<string>) {
    forall k :: 0 <= k < |outputs| ==> outputs[k] !in kept && outputs[k] !in outputs[..k]
  }

  function WindowInputs(w: WindowProjection): seq<ColumnExpr> {
    w.arguments + w.partitions + w.sorts
  }

  function WindowColumn(eng: Engine, names: seq<string>, t: Table, w: WindowProjection): (c: Column)
    ensures |c| == t.count
  {
    var shape := WindowShape(w.function_, |w.arguments|, |w.partitions|, |w.sorts|, w.frame);
    var rows := ExprRows(eng, names, t, WindowInputs(w));
    seq(t.count, j requires 0 <= j < t.count => eng.window(shape, rows, j))
  }

  /** One window boundary: partitioning, ordering and frame. */
  predicate SameBoundary(a: WindowProjection, b: WindowProjection) {
    SameExprs(a.partitions, b.partitions) && SameExprs(a.sorts, b.sorts) && a.frame == b.frame
  }

  predicate WindowsAccepted(names: seq<string>, projections: seq<WindowProjection>) {
    forall k :: 0 <= k < |projections| ==>
      AllResolve(names, WindowInputs(projections[k]))
      && (projections[k].requiresOrdering ==> projections[k].sorts != [])
      && SameBoundary(projections[0], projections[k])
  }

  function WindowTable(eng: Engine, names: seq<string>, t: Table, projections: seq<WindowProjection>): (r: Table)
    ensures r.count == t.count && |r.cols| == |t.cols| + |projections|
  {
    WithColumns(t,
      seq(|projections|, k requires 0 <= k < |projections| => WindowColumn(eng, names, t, projections[k])))
  }

  /** Where an aggregate reads its rows and which keys group them: a GroupBy right below is skipped. */
  function AggregateSource(plan: Store, i: nat): (r: (nat, seq<ColumnExpr>))
    requires i < |plan| && plan[i].Aggregate?
    ensures r.0 < i
  {
    assert plan[i].Inputs()[0] == plan[i].input;
    var source := plan[plan[i].input];
    if plan[i].keys == [] && source.GroupBy? then
      assert plan[plan[i].input].Inputs()[0] == source.input;
      (source.input, source.keys)
    else (plan[i].input, plan[i].keys)
  }

  /** The table of one node, or None where lowering reports an error. */
  function Eval(eng: Engine, cat: Catalog, db: Database, plan: Store, i: nat): Option<Table>
    requires i < |plan|
    decreases i
  {
    match plan[i]
    case Read(table) => if |db(table).cols| == |cat(table)| then Some(db(table)) else None
    case Aggregate(_, _, measures) =>
      var (source, keys) := AggregateSource(plan, i);
      EvalAggregate(eng, Columns(cat, plan, source), Eval(eng, cat, db, plan, source), keys, measures)
    case Join(left, right, kind, relation, on) =>
      assert plan[i].Inputs()[0] == left && plan[i].Inputs()[1] == right;
      EvalJoin(eng, Columns(cat, plan, left), Eval(eng, cat, db, plan, left),
               Qualify(Columns(cat, plan, right), relation), Eval(eng, cat, db, plan, right), kind, on)
    case node =>
      assert plan[i].Inputs()[0] == node.input;
      EvalUnary(eng, Columns(cat, plan, node.input), Eval(eng, cat, db, plan, node.input), node)
  }

  function EvalAggregate(
      eng: Engine, names: seq<string>, source: Option<Table>, keys: seq<ColumnExpr>, measures: seq<Measure>)
    : Option<Table>
  {
    if source.Some? && AllResolve(names, keys) && MeasuresResolve(names, measures)
    then Some(AggregateTable(eng, names, source.value, keys, measures))
    else None
  }

  function EvalJoin(
      eng: Engine, leftNames: seq<string>, left: Option<Table>, rightNames: seq<string>, right: Option<Table>,
      kind: JoinKind, on: ColumnExpr): Option<Table>
  {
    if left.Some? && right.Some? && Resolves(leftNames + rightNames, on)
    then Some(JoinTables(left.value, right.value,
                Hits(eng, leftNames + rightNames, left.value, right.value, on), kind == Left))
    else None
  }

  function EvalUnary(eng: Engine, names: seq<string>, input: Option<Table>, node: Node): Option<Table>
    requires !node.Read? && !node.Join? && !node.Aggregate?
  {
    if input.None? then None
    else
      var t := input.value;
      match node
      case Filter(_, p) => if Resolves(names, p) then Some(Where(t, ExprColumn(eng, names, t, p))) else None
      case Project(_, assignments) =>
        if |names| == |t.cols| then Assign(eng, names, t, assignments) else None
      case SelectProject(_, assignments) =>
        if |names| == |t.cols| then Select(eng, names, t, assignments) else None
      case GroupBy(_, keys) =>
        if AllResolve(names, keys) then Some(AggregateTable(eng, names, t, keys, [])) else None
      case Generate(_, g) =>
        if AllResolve(names, g.arguments)
           && FreshOutputs(if g.preservesInput then names else [], g.outputColumns)
        then Some(GenerateTable(eng, names, t, g)) else None
      case Window(_, projections) =>
        if projections != [] && WindowsAccepted(names, projections)
        then Some(WindowTable(eng, names, t, projections)) else None
      case OrderBy(_, keys) =>
        if keys != [] && AllResolve(names, keys) then Some(Sorted(eng, t, ExprRows(eng, names, t, keys))) else None
      case Limit(_, n) => Some(Take(t, n))
  }

  // ----- widths -----

  /** An aggregate without keys of its own inherits the grouping names of an aggregate below it, though not its
      columns. */
  predicate AggregateKeepsWidth(plan: Store, i: nat)
    requires i < |plan| && plan[i].Aggregate?
  {
    assert plan[i].Inputs()[0] == plan[i].input;
    plan[i].keys == [] && plan[plan[i].input].Aggregate? ==> AggregatePrefix(plan, i) == []
  }

  predicate AggregatesKeepWidth(plan: Store) {
    forall i :: 0 <= i < |plan| && plan[i].Aggregate? ==> AggregateKeepsWidth(plan, i)
  }

  /** Every aggregate that node i takes its columns from keeps its width. */
  predicate KeepsWidth(plan: Store, i: nat)
    requires i < |plan|
    decreases i
  {
    match plan[i]
    case Aggregate(_, _, _) => AggregateKeepsWidth(plan, i)
    case Join(left, right, _, _, _) =>
      assert plan[i].Inputs()[0] == left && plan[i].Inputs()[1] == right;
      KeepsWidth(plan, left) && KeepsWidth(plan, right)
    case Filter(input, _) => (assert plan[i].Inputs()[0] == input; KeepsWidth(plan, input))
    case Window(input, _) => (assert plan[i].Inputs()[0] == input; KeepsWidth(plan, input))
    case OrderBy(input, _) => (assert plan[i].Inputs()[0] == input; KeepsWidth(plan, input))
    case Limit(input, _) => (assert plan[i].Inputs()[0] == input; KeepsWidth(plan, input))
    case Generate(input, g) => (assert plan[i].Inputs()[0] == input; g.preservesInput ==> KeepsWidth(plan, input))
    case _ => true
  }

  /** Whatever lowers has at most one column per planned output name, and exactly one per name if and only if the
      aggregates behind it keep their width. */
  lemma {:induction false} EvalWidthExactly(eng: Engine, cat: Catalog, db: Database, plan: Store, i: nat)
    requires i < |plan|
    ensures var r := Eval(eng, cat, db, plan, i);
            r.Some? ==> |r.value.cols| <= |Columns(cat, plan, i)|
                        && (|r.value.cols| == |Columns(cat, plan, i)| <==> KeepsWidth(plan, i))
    decreases i
  {
    if Eval(eng, cat, db, plan, i).Some? {
      match plan[i] {
        case Read(_) =>
        case Aggregate(_, _, _) => AggregateWidth(eng, cat, db, plan, i);
        case Join(left, right, _, _, _) =>
          assert plan[i].Inputs()[0] == left && plan[i].Inputs()[1] == right;
          EvalWidthExactly(eng, cat, db, plan, left);
          EvalWidthExactly(eng, cat, db, plan, right);
        case node =>
          assert plan[i].Inputs()[0] == node.input;
          EvalWidthExactly(eng, cat, db, plan, node.input);
      }
    }
  }

  lemma AggregateWidth(eng: Engine, cat: Catalog, db: Database, plan: Store, i: nat)
    requires i < |plan| && plan[i].Aggregate?
    ensures var r := Eval(eng, cat, db, plan, i);
            r.Some? ==> |r.value.cols| <= |Columns(cat, plan, i)|
                        && (|r.value.cols| == |Columns(cat, plan, i)| <==> AggregateKeepsWidth(plan, i))
  {
    assert plan[i].Inputs()[0] == plan[i].input;
    var keys := AggregateSource(plan, i).1;
    assert |Columns(cat, plan, i)| == |AggregatePrefix(plan, i)| + |plan[i].measures|;
  }

  lemma {:induction false} AllKeepWidth(plan: Store, i: nat)
    requires i < |plan| && AggregatesKeepWidth(plan)
    ensures KeepsWidth(plan, i)
    decreases i
  {
    match plan[i] {
      case Aggregate(_, _, _) =>
      case Read(_) =>
      case Join(left, right, _, _, _) =>
        assert plan[i].Inputs()[0] == left && plan[i].Inputs()[1] == right;
        AllKeepWidth(plan, left);
        AllKeepWidth(plan, right);
      case node =>
        assert plan[i].Inputs()[0] == node.input;
        AllKeepWidth(plan, node.input);
    }
  }

  /** Whatever lowers has one table column per output name, in a plan whose aggregates all keep their width. */
  lemma EvalWidth(eng: Engine, cat: Catalog, db: Database, plan: Store, i: nat)
    requires i < |plan| && AggregatesKeepWidth(plan)
    ensures var r := Eval(eng, cat, db, plan, i); r.Some? ==> |r.value.cols| == |Columns(cat, plan, i)|
  {
    EvalWidthExactly(eng, cat, db, plan, i);
    AllKeepWidth(plan, i);
  }
}
