/** The plan a query block appends to its store: every carrier method of the lowered chain appends one node
    (src/prism/mod.incn), and the node evaluates to the table the chain, and so the block, means.

    Scalar helper calls become expression trees under the name the engine knows the operation by; the expression of a
    window column stays one argument. */
module QueryPlans {
  import opened Names
  import opened Tables
  import opened Wrappers
  import opened Incan
  import opened Expressions
  import opened Plans
  import opened Carriers
  import opened Desugar
  import opened QueryValues
  import Chains = ChainMeaning
  import QueryMeaning
  import Rewrites

  // ----- expression trees -----

  function Untyped_(node: ScalarNode): ColumnExpr {
    ColumnExpr(Untyped, node)
  }

  function Applied(name: string, mark: seq<(string, string)>, args: seq<ColumnExpr>): ColumnExpr {
    Untyped_(Application(name, args, mark))
  }

  predicate IsLiteral(e: ColumnExpr) {
    !e.node.ColumnRef? && !e.node.Application?
  }

  /** A helper over its argument trees; `lit` takes literals only. */
  function BuiltHelper(helper: string, args: seq<ColumnExpr>): Option<ColumnExpr> {
    var name := if helper == "mod" then "modulo" else helper;
    if name == "lit" && |args| == 1 then if IsLiteral(args[0]) then Some(args[0]) else None
    else if name == "not_" && |args| == 1 then Some(Applied("not", [("operator", "")], args))
    else if name == "neg" && |args| == 1 then Some(Applied("neg", [("operator", "")], args))
    else if OperatorNamed(name).Some? && |args| == 2 then
      Some(Applied(OperatorNamed(name).value, [("operator", "")], args))
    else Some(Applied(name, [], args))
  }

  /** The expression tree a lowered expression builds. */
  function Built(e: Expr): Option<ColumnExpr>
    decreases e, 1
  {
    if DirectColumn(e).Some? then Some(Col(DirectColumn(e).value))
    else match e
    case Str(s) => Some(Untyped_(StringLiteral(s)))
    case Int(i) => Some(Untyped_(IntLiteral(i)))
    case Bool(b) => Some(Untyped_(BoolLiteral(b)))
    case Call(callee, args) =>
      var xs := BuiltAll(args);
      if xs.None? then None
      else if callee.Helper? then BuiltHelper(callee.helper, xs.value)
      else if callee.Field? && Built(callee.object_).Some? then
        Some(Applied(callee.field, [("method", "")], [Built(callee.object_).value] + xs.value))
      else None
    case Field(o, f) => if Built(o).Some? then Some(Applied(f, [("field", "")], [Built(o).value])) else None
    case ListOf(items) =>
      var xs := BuiltAll(items);
      if xs.Some? then Some(Applied("", [("list", "")], xs.value)) else None
    case _ => None
  }

  function BuiltAll(es: seq<Expr>): (r: Option<seq<ColumnExpr>>)
    ensures r.Some? ==> |r.value| == |es|
    decreases es, 0
  {
    if es == [] then Some([])
    else
      var first, rest := Built(es[0]), BuiltAll(es[1..]);
      if first.Some? && rest.Some? then Some([first.value] + rest.value) else None
  }

  lemma {:induction false} BuiltEach(es: seq<Expr>, k: nat)
    requires BuiltAll(es).Some? && k < |es|
    ensures Built(es[k]) == Some(BuiltAll(es).value[k])
  {
    if k > 0 {
      BuiltEach(es[1..], k - 1);
    }
  }

  lemma AppliedValue(
      eng: Engine, names: seq<string>, row: Row, name: string, mark: seq<(string, string)>, args: seq<ColumnExpr>)
    ensures EvalExpr(eng, names, row, Applied(name, mark, args)) == eng.apply(name, mark, EvalAll(eng, names, row, args))
  {
  }

  lemma HelperBuilt(eng: Engine, names: seq<string>, row: Row, helper: string, args: seq<ColumnExpr>)
    requires BuiltHelper(helper, args).Some?
    ensures EvalExpr(eng, names, row, BuiltHelper(helper, args).value)
         == HelperValue(eng, helper, EvalAll(eng, names, row, args))
  {
    var name := if helper == "mod" then "modulo" else helper;
    AppliedValue(eng, names, row, "not", [("operator", "")], args);
    AppliedValue(eng, names, row, "neg", [("operator", "")], args);
    if OperatorNamed(name).Some? {
      AppliedValue(eng, names, row, OperatorNamed(name).value, [("operator", "")], args);
    }
    AppliedValue(eng, names, row, name, [], args);
  }

  /** The tree has the value of the lowered expression on every row. */
  lemma {:induction false} BuiltValue(eng: Engine, names: seq<string>, row: Row, e: Expr)
    requires Built(e).Some?
    ensures EvalExpr(eng, names, row, Built(e).value) == Lowered(eng, names, row, e)
    decreases e, 1
  {
    if DirectColumn(e).None? {
      match e {
        case Call(callee, args) =>
          BuiltValues(eng, names, row, args);
          if callee.Helper? {
            HelperBuilt(eng, names, row, callee.helper, BuiltAll(args).value);
          } else {
            BuiltValue(eng, names, row, callee.object_);
            MethodBuilt(eng, names, row, callee.object_, callee.field, args);
          }
        case Field(o, f) =>
          BuiltValue(eng, names, row, o);
          AppliedValue(eng, names, row, f, [("field", "")], [Built(o).value]);
          assert EvalAll(eng, names, row, [Built(o).value]) == [Lowered(eng, names, row, o)];
        case ListOf(items) =>
          BuiltValues(eng, names, row, items);
          AppliedValue(eng, names, row, "", [("list", "")], BuiltAll(items).value);
        case _ =>
      }
    }
  }

  lemma MethodBuilt(eng: Engine, names: seq<string>, row: Row, o: Expr, method_: string, args: seq<Expr>)
    requires Built(o).Some? && BuiltAll(args).Some?
    requires EvalExpr(eng, names, row, Built(o).value) == Lowered(eng, names, row, o)
    requires EvalAll(eng, names, row, BuiltAll(args).value) == LoweredAll(eng, names, row, args)
    ensures EvalExpr(eng, names, row, Applied(method_, [("method", "")], [Built(o).value] + BuiltAll(args).value))
         == MethodValue(eng, Lowered(eng, names, row, o), method_, LoweredAll(eng, names, row, args))
  {
    var xs := [Built(o).value] + BuiltAll(args).value;
    AppliedValue(eng, names, row, method_, [("method", "")], xs);
    EvalAllCons(eng, names, row, Built(o).value, BuiltAll(args).value);
  }

  lemma EvalAllCons(eng: Engine, names: seq<string>, row: Row, x: ColumnExpr, xs: seq<ColumnExpr>)
    ensures EvalAll(eng, names, row, [x] + xs) == [EvalExpr(eng, names, row, x)] + EvalAll(eng, names, row, xs)
  {
  }

  lemma {:induction false} BuiltValues(eng: Engine, names: seq<string>, row: Row, es: seq<Expr>)
    requires BuiltAll(es).Some?
    ensures EvalAll(eng, names, row, BuiltAll(es).value) == LoweredAll(eng, names, row, es)
    decreases es, 0
  {
    if es != [] {
      BuiltValue(eng, names, row, es[0]);
      BuiltValues(eng, names, row, es[1..]);
      EvalAllCons(eng, names, row, Built(es[0]).value, BuiltAll(es[1..]).value);
    }
  }

  // ----- the node of one method call -----

  function BuiltAssignment(e: Expr): Option<Assignment> {
    if Chains.IsAssignment(e) && Built(e.args[1]).Some? then Some(Assignment(e.args[0].text, Built(e.args[1]).value))
    else None
  }

  function BuiltAssignments(es: seq<Expr>): (r: Option<seq<Assignment>>)
    ensures r.Some? ==> |r.value| == |es|
  {
    if es == [] then Some([])
    else
      var n := |es| - 1;
      var front, last := BuiltAssignments(es[..n]), BuiltAssignment(es[n]);
      if front.Some? && last.Some? then Some(front.value + [last.value]) else None
  }

  function BuiltMeasure(e: Expr): Option<Measure> {
    var m := Chains.BareMeasure(e);
    if Chains.IsHelperCall(m) && BuiltAll(m.args).Some? then
      var distinct := m.callee.helper == "count_distinct";
      Some(Measure(if distinct then "count" else m.callee.helper, BuiltAll(m.args).value, distinct, None, [], "",
                   if Chains.IsAliased(e) then Some(e.args[1].text) else None))
    else None
  }

  function BuiltMeasures(es: seq<Expr>): (r: Option<seq<Measure>>)
    ensures r.Some? ==> |r.value| == |es|
  {
    if es == [] then Some([])
    else
      var first, rest := BuiltMeasure(es[0]), BuiltMeasures(es[1..]);
      if first.Some? && rest.Some? then Some([first.value] + rest.value) else None
  }

  /** Where the host's relations stand in the store. */
  type Relations = Expr -> Option<nat>

  function JoinNode(tip: nat, relations: Relations, args: seq<Expr>, kind: JoinKind): Option<Node> {
    if |args| == 3 && args[2].Str? && !Chains.IsMethodCall(args[0]) && relations(args[0]).Some? && Built(args[1]).Some?
    then Some(Join(tip, relations(args[0]).value, kind, args[2].text, Built(args[1]).value))
    else None
  }

  function SelectNode(tip: nat, es: seq<Expr>): Option<Node> {
    if es == [] then Some(Project(tip, []))
    else if BuiltAssignments(es).Some? then Some(SelectProject(tip, BuiltAssignments(es).value))
    else None
  }

  function GenerateNode(tip: nat, g: Expr): Option<Node> {
    if Chains.IsHelperCall(g) && g.callee.helper == "explode" && |g.args| == 2 && g.args[1].Str? && Built(g.args[0]).Some?
    then Some(Generate(tip, Generator("explode", 0, [Built(g.args[0]).value], [g.args[1].text], true)))
    else None
  }

  function WindowNode(tip: nat, name: string, e: Expr): Option<Node> {
    if Built(e).Some? then Some(Window(tip, [WindowProjection(name, "", [Built(e).value], [], [], "", false)]))
    else None
  }

  /** The node a method call on the cursor at `tip` appends. */
  function AppendedNode(
      tip: nat, relations: Relations, number: Expr -> nat, m: Chains.Method, args: seq<Expr>): Option<Node>
  {
    if m.Join? then JoinNode(tip, relations, args, Inner)
    else if m.LeftJoin? then JoinNode(tip, relations, args, Left)
    else if m.Filter? && |args| == 1 && Built(args[0]).Some? then Some(Filter(tip, Built(args[0]).value))
    else if m.GroupBy? && |args| == 1 && args[0].ListOf? && BuiltAll(args[0].items).Some? then
      Some(GroupBy(tip, BuiltAll(args[0].items).value))
    else if m.Agg? && |args| == 1 && args[0].ListOf? && BuiltMeasures(args[0].items).Some? then
      Some(Aggregate(tip, [], BuiltMeasures(args[0].items).value))
    else if m.Select? && |args| == 1 && args[0].ListOf? then SelectNode(tip, args[0].items)
    else if m.Generate? && |args| == 1 then GenerateNode(tip, args[0])
    else if m.WithWindowColumn? && |args| == 2 && args[0].Str? then WindowNode(tip, args[0].text, args[1])
    else if m.OrderBy? && |args| == 1 && args[0].ListOf? && BuiltAll(args[0].items).Some? then
      Some(OrderBy(tip, BuiltAll(args[0].items).value))
    else if m.Limit? && |args| == 1 then Some(Limit(tip, number(args[0])))
    else None
  }

  // ----- cursors -----

  datatype RawCursor = RawCursor(nodes: seq<Node>, tip: nat)

  /** A store and the node the next call is applied to. */
  type Cursor = c: RawCursor | Acyclic(c.nodes) && c.tip < |c.nodes| witness RawCursor([Read("")], 0)

  predicate Fits(nodes: seq<Node>, n: Node) {
    forall k :: 0 <= k < |n.Inputs()| ==> n.Inputs()[k] < |nodes|
  }

  function Push(c: Cursor, n: Node): Cursor
    requires Fits(c.nodes, n)
  {
    RawCursor(c.nodes + [n], |c.nodes|)
  }

  function PlannedCall(c: Cursor, relations: Relations, number: Expr -> nat, call: Invocation): Option<Cursor> {
    var m := Chains.MethodNamed(call.method_);
    if m.None? then None
    else
      var n := AppendedNode(c.tip, relations, number, m.value, call.args);
      if n.Some? && Fits(c.nodes, n.value) then Some(Push(c, n.value)) else None
  }

  /** The cursor a chain of calls leads to, or None where a call does not fit its method. */
  function Planned(c: Cursor, relations: Relations, number: Expr -> nat, calls: seq<Invocation>): Option<Cursor> {
    if calls == [] then Some(c)
    else
      var n := |calls| - 1;
      var d := Planned(c, relations, number, calls[..n]);
      if d.None? then None else PlannedCall(d.value, relations, number, calls[n])
  }

  // ----- what a node shows -----

  /** The planned names are the frame's, and the node evaluates to the frame's table wherever it lowers at all. */
  predicate NodeShows(eng: Engine, cat: Catalog, db: Database, plan: Store, i: nat, f: Frame)
    requires i < |plan|
  {
    && Columns(cat, plan, i) == f.names
    && (Eval(eng, cat, db, plan, i).Some? ==> Eval(eng, cat, db, plan, i).value == f.table)
  }

  /** The node under a grouping shows the ungrouped rows, and its keys are the carrier's. */
  predicate ShowsGroups(eng: Engine, cat: Catalog, db: Database, plan: Store, i: nat, k: Carrier)
    requires i < |plan| && plan[i].GroupBy? && k.Grouped?
  {
    assert plan[i].Inputs()[0] == plan[i].input;
    && NodeShows(eng, cat, db, plan, plan[i].input, k.source)
    && GroupNames(plan[i].keys) == k.keyNames
    && ExprColumns(eng, k.source.names, k.source.table, plan[i].keys) == k.keyCols
  }

  predicate Denotes(eng: Engine, cat: Catalog, db: Database, c: Cursor, k: Carrier) {
    && NodeShows(eng, cat, db, c.nodes, c.tip, Flat(k))
    && (c.nodes[c.tip].GroupBy? <==> k.Grouped?)
    && (k.Grouped? ==> ShowsGroups(eng, cat, db, c.nodes, c.tip, k))
  }

  // ----- expressions over a frame -----

  lemma ColumnBuilt(eng: Engine, f: Frame, e: Expr)
    requires Built(e).Some?
    ensures ExprColumn(eng, f.names, f.table, Built(e).value) == Chains.LoweredColumn(eng, f, e)
  {
    forall j | 0 <= j < f.table.count
      ensures EvalExpr(eng, f.names, RowAt(f.table, j), Built(e).value) == Lowered(eng, f.names, RowAt(f.table, j), e)
    {
      BuiltValue(eng, f.names, RowAt(f.table, j), e);
    }
  }

  lemma ColumnsBuilt(eng: Engine, f: Frame, es: seq<Expr>)
    requires BuiltAll(es).Some?
    ensures ExprColumns(eng, f.names, f.table, BuiltAll(es).value) == Chains.LoweredColumns(eng, f, es)
  {
    forall k | 0 <= k < |es|
      ensures ExprColumn(eng, f.names, f.table, BuiltAll(es).value[k]) == Chains.LoweredColumn(eng, f, es[k])
    {
      BuiltEach(es, k);
      ColumnBuilt(eng, f, es[k]);
    }
  }

  lemma RowsBuilt(eng: Engine, f: Frame, es: seq<Expr>)
    requires BuiltAll(es).Some?
    ensures ExprRows(eng, f.names, f.table, BuiltAll(es).value) == Chains.LoweredRows(eng, f, es)
  {
    forall j | 0 <= j < f.table.count
      ensures EvalAll(eng, f.names, RowAt(f.table, j), BuiltAll(es).value)
           == LoweredAll(eng, f.names, RowAt(f.table, j), es)
    {
      BuiltValues(eng, f.names, RowAt(f.table, j), es);
    }
  }

  lemma OneBuilt(e: Expr)
    requires Built(e).Some?
    ensures BuiltAll([e]) == Some([Built(e).value])
  {
    assert [e][1..] == [];
    assert BuiltAll([e][1..]) == Some([]);
    assert [Built(e).value] + [] == [Built(e).value];
  }

  lemma KeyNamesBuilt(es: seq<Expr>)
    requires BuiltAll(es).Some?
    ensures GroupNames(BuiltAll(es).value) == Chains.GroupColumnNames(es)
  {
    forall k | 0 <= k < |es| ensures GroupNames(BuiltAll(es).value)[k] == Chains.GroupColumnNames(es)[k] {
      BuiltEach(es, k);
      DirectBuilt(es[k]);
    }
  }

  /** The tree is a direct reference exactly when the lowered expression is one. */
  lemma DirectBuilt(e: Expr)
    requires Built(e).Some?
    ensures Built(e).value.node.ColumnRef? <==> DirectColumn(e).Some?
    ensures DirectColumn(e).Some? ==> Built(e).value.node.columnName == DirectColumn(e).value
  {
  }

  // ----- unary nodes -----

  /** Over a frame, the node gives another frame wherever it lowers. */
  predicate UnaryShows(eng: Engine, f: Frame, n: Node, r: Frame)
    requires Rewrites.IsUnary(n)
  {
    var t := EvalUnary(eng, f.names, Some(f.table), n);
    Rewrites.UnaryColumns(f.names, n) == r.names && (t.Some? ==> t.value == r.table)
  }

  lemma FilterShows(eng: Engine, f: Frame, tip: nat, e: Expr)
    requires Built(e).Some?
    ensures UnaryShows(eng, f, Filter(tip, Built(e).value), Filtered(f, Chains.LoweredColumn(eng, f, e)))
  {
    ColumnBuilt(eng, f, e);
  }

  lemma OrderShows(eng: Engine, f: Frame, tip: nat, es: seq<Expr>)
    requires BuiltAll(es).Some?
    ensures UnaryShows(eng, f, OrderBy(tip, BuiltAll(es).value), OrderedBy(eng, f, Chains.LoweredRows(eng, f, es)))
  {
    RowsBuilt(eng, f, es);
  }

  lemma LimitShows(eng: Engine, f: Frame, tip: nat, rows: nat)
    ensures UnaryShows(eng, f, Limit(tip, rows), Limited(f, rows))
  {
  }

  lemma GroupShows(eng: Engine, f: Frame, tip: nat, es: seq<Expr>)
    requires BuiltAll(es).Some?
    ensures UnaryShows(eng, f, GroupBy(tip, BuiltAll(es).value),
              Heads(Grouped(f, Chains.GroupColumnNames(es), Chains.LoweredColumns(eng, f, es))))
  {
    ColumnsBuilt(eng, f, es);
    KeyNamesBuilt(es);
  }

  lemma GenerateShows(eng: Engine, f: Frame, tip: nat, e: Expr, name: string)
    requires Built(e).Some?
    ensures UnaryShows(eng, f, Generate(tip, Generator("explode", 0, [Built(e).value], [name], true)),
              Exploded(eng, f, name, Chains.LoweredRows(eng, f, [e])))
  {
    OneBuilt(e);
    RowsBuilt(eng, f, [e]);
  }

  lemma WindowShows(eng: Engine, f: Frame, tip: nat, name: string, e: Expr)
    requires Built(e).Some?
    ensures UnaryShows(eng, f, WindowNode(tip, name, e).value,
              Windowed(eng, f, name, Chains.LoweredRows(eng, f, [e])))
  {
    OneBuilt(e);
    RowsBuilt(eng, f, [e]);
    var w := WindowProjection(name, "", [Built(e).value], [], [], "", false);
    assert WindowInputs(w) == [Built(e).value];
    assert WindowNames([w]) == [name];
  }

  lemma KeepShows(eng: Engine, f: Frame, tip: nat)
    ensures UnaryShows(eng, f, Project(tip, []), f)
  {
  }

  // ----- select -----

  lemma SelectOne(eng: Engine, names: seq<string>, t: Table, a: Assignment)
    requires |names| == |t.cols|
    ensures Select(eng, names, t, [a]) ==
      if Resolves(names, a.expr) then Some(RawTable(t.count, [ExprColumn(eng, names, t, a.expr)])) else None
  {
    assert [a][1..] == [];
    assert [ExprColumn(eng, names, t, a.expr)] + [] == [ExprColumn(eng, names, t, a.expr)];
  }

  /** One more assignment of an exclusive projection reads what the ones before it have bound. */
  lemma {:induction false} SelectLast(eng: Engine, names: seq<string>, t: Table, front: seq<Assignment>, a: Assignment)
    requires |names| == |t.cols|
    ensures var cols, bound := Select(eng, names, t, front), Assign(eng, names, t, front);
            && cols.Some? == bound.Some?
            && Select(eng, names, t, front + [a]) ==
                 if bound.Some? && Resolves(InsertAll(names, AssignedNames(front)), a.expr) then
                   Some(RawTable(t.count, cols.value.cols +
                     [ExprColumn(eng, InsertAll(names, AssignedNames(front)), bound.value, a.expr)]))
                 else None
    decreases |front|
  {
    if front == [] {
      assert [] + [a] == [a];
      SelectOne(eng, names, t, a);
      assert AssignedNames(front) == [];
      assert [] + [ExprColumn(eng, names, t, a.expr)] == [ExprColumn(eng, names, t, a.expr)];
    } else {
      var first := front[0];
      assert (front + [a])[1..] == front[1..] + [a];
      assert AssignedNames(front)[1..] == AssignedNames(front[1..]);
      if Resolves(names, first.expr) {
        var col := ExprColumn(eng, names, t, first.expr);
        var seen, b := Insert(names, first.outputName), Bind(names, t, first.outputName, col);
        SelectLast(eng, seen, b, front[1..], a);
        var rest, bound := Select(eng, seen, b, front[1..]), Assign(eng, seen, b, front[1..]);
        if bound.Some? {
          var last := ExprColumn(eng, InsertAll(seen, AssignedNames(front[1..])), bound.value, a.expr);
          assert [col] + (rest.value.cols + [last]) == [col] + rest.value.cols + [last];
        }
      }
    }
  }

  lemma BoundLast(eng: Engine, names: seq<string>, t: Table, front: seq<Assignment>, a: Assignment)
    requires |names| == |t.cols|
    ensures var bound := Assign(eng, names, t, front);
            var seen := InsertAll(names, AssignedNames(front));
            && InsertAll(names, AssignedNames(front + [a])) == Insert(seen, a.outputName)
            && Assign(eng, names, t, front + [a]) ==
                 if bound.Some? && Resolves(seen, a.expr) then
                   Some(Bind(seen, bound.value, a.outputName, ExprColumn(eng, seen, bound.value, a.expr)))
                 else None
  {
    Rewrites.AssignAppend(eng, names, t, front, [a]);
    Rewrites.AssignedNamesAppend(front, [a]);
    InsertAllAppend(names, AssignedNames(front), AssignedNames([a]));
    assert AssignedNames([a]) == [a.outputName];
    InsertAllOne(InsertAll(names, AssignedNames(front)), a.outputName);
  }

  lemma {:induction false} AssignedBuilt(es: seq<Expr>)
    requires BuiltAssignments(es).Some?
    ensures AssignedNames(BuiltAssignments(es).value) == Chains.AssignedNames(es)
  {
    if es != [] {
      var n := |es| - 1;
      AssignedBuilt(es[..n]);
      Rewrites.AssignedNamesAppend(BuiltAssignments(es[..n]).value, [BuiltAssignment(es[n]).value]);
      assert Chains.AssignedNames(es) == Chains.AssignedNames(es[..n]) + [Chains.AssignedName(es[n])];
    }
  }

  /** The bindings a projection node makes are the chain's. */
  predicate SameBindings(eng: Engine, f: Frame, es: seq<Expr>)
    requires BuiltAssignments(es).Some?
  {
    var built, b := BuiltAssignments(es).value, Chains.Bindings(eng, f, es);
    var bound := Assign(eng, f.names, f.table, built);
    InsertAll(f.names, AssignedNames(built)) == b.names && (bound.Some? ==> bound.value == b.table)
  }

  lemma {:induction false} BindingsBuilt(eng: Engine, f: Frame, es: seq<Expr>)
    requires BuiltAssignments(es).Some?
    ensures SameBindings(eng, f, es)
    decreases |es|
  {
    if es != [] {
      var n := |es| - 1;
      var front, a := BuiltAssignments(es[..n]).value, BuiltAssignment(es[n]).value;
      BindingsBuilt(eng, f, es[..n]);
      BoundLast(eng, f.names, f.table, front, a);
      ColumnBuilt(eng, Chains.Bindings(eng, f, es[..n]), es[n].args[1]);
    }
  }

  lemma {:induction false} SelectBuilt(eng: Engine, f: Frame, es: seq<Expr>)
    requires BuiltAssignments(es).Some?
    ensures var t := Select(eng, f.names, f.table, BuiltAssignments(es).value);
            t.Some? ==> t.value == RawTable(f.table.count, Chains.Assigned(eng, f, es))
    decreases |es|
  {
    if es != [] {
      var n := |es| - 1;
      var front, a := BuiltAssignments(es[..n]).value, BuiltAssignment(es[n]).value;
      SelectBuilt(eng, f, es[..n]);
      BindingsBuilt(eng, f, es[..n]);
      SelectLast(eng, f.names, f.table, front, a);
      ColumnBuilt(eng, Chains.Bindings(eng, f, es[..n]), es[n].args[1]);
    }
  }

  lemma SelectShows(eng: Engine, f: Frame, tip: nat, es: seq<Expr>)
    requires BuiltAssignments(es).Some?
    ensures UnaryShows(eng, f, SelectProject(tip, BuiltAssignments(es).value),
              RawFrame(Chains.AssignedNames(es), RawTable(f.table.count, Chains.Assigned(eng, f, es))))
  {
    SelectBuilt(eng, f, es);
    AssignedBuilt(es);
  }

  // ----- pushing a node -----

  lemma ShownStays(eng: Engine, cat: Catalog, db: Database, c: Cursor, n: Node, i: nat, f: Frame)
    requires Fits(c.nodes, n) && i < |c.nodes| && NodeShows(eng, cat, db, c.nodes, i, f)
    ensures NodeShows(eng, cat, db, Push(c, n).nodes, i, f)
  {
    Rewrites.ColumnsStay(cat, c.nodes, n, i);
    Rewrites.EvalStays(eng, cat, db, c.nodes, n, i);
  }

  lemma PushedUnary(eng: Engine, cat: Catalog, db: Database, c: Cursor, n: Node, f: Frame, r: Frame)
    requires Rewrites.IsUnary(n) && n.input == c.tip && Fits(c.nodes, n)
    requires NodeShows(eng, cat, db, c.nodes, c.tip, f) && UnaryShows(eng, f, n, r)
    ensures NodeShows(eng, cat, db, Push(c, n).nodes, |c.nodes|, r)
  {
    ShownStays(eng, cat, db, c, n, c.tip, f);
    Rewrites.UnaryMeaning(eng, cat, db, Push(c, n).nodes, |c.nodes|);
  }

  /** A unary node other than a grouping makes the carrier ordinary. */
  lemma PushedOrdinary(eng: Engine, cat: Catalog, db: Database, c: Cursor, n: Node, k: Carrier, r: Frame)
    requires Rewrites.IsUnary(n) && !n.GroupBy? && n.input == c.tip && Fits(c.nodes, n)
    requires Denotes(eng, cat, db, c, k) && UnaryShows(eng, Flat(k), n, r)
    ensures Denotes(eng, cat, db, Push(c, n), Ordinary(r))
  {
    PushedUnary(eng, cat, db, c, n, Flat(k), r);
  }

  lemma PushedGroups(eng: Engine, cat: Catalog, db: Database, c: Cursor, k: Carrier, es: seq<Expr>)
    requires BuiltAll(es).Some? && Denotes(eng, cat, db, c, k) && Fits(c.nodes, GroupBy(c.tip, BuiltAll(es).value))
    ensures Denotes(eng, cat, db, Push(c, GroupBy(c.tip, BuiltAll(es).value)),
              Grouped(Flat(k), Chains.GroupColumnNames(es), Chains.LoweredColumns(eng, Flat(k), es)))
  {
    var n := GroupBy(c.tip, BuiltAll(es).value);
    var g := Grouped(Flat(k), Chains.GroupColumnNames(es), Chains.LoweredColumns(eng, Flat(k), es));
    GroupShows(eng, Flat(k), c.tip, es);
    PushedUnary(eng, cat, db, c, n, Flat(k), Heads(g));
    ShownStays(eng, cat, db, c, n, c.tip, Flat(k));
    ColumnsBuilt(eng, Flat(k), es);
    KeyNamesBuilt(es);
  }

  // ----- aggregates -----

  lemma MeasureBuilt(eng: Engine, k: Carrier, e: Expr)
    requires BuiltMeasure(e).Some?
    ensures Plans.MeasureColumn(eng, Source(k).names, Source(k).table, BuiltMeasure(e).value, MembersOf(k))
         == Chains.MeasureColumn(eng, k, e)
    ensures Plans.MeasureName(BuiltMeasure(e).value) == Chains.MeasureName(e)
  {
    var m, f := Chains.BareMeasure(e), Source(k);
    MeasureNamed(e);
    RowsBuilt(eng, f, m.args);
    forall g | 0 <= g < |MembersOf(k)|
      ensures Plans.MeasureColumn(eng, f.names, f.table, BuiltMeasure(e).value, MembersOf(k))[g]
           == Chains.MeasureColumn(eng, k, e)[g]
    {
      MeasureCell(eng, f, BuiltMeasure(e).value, m.args, MembersOf(k)[g]);
    }
  }

  /** One group's value: the arguments of its rows, no filter and no ordering. */
  lemma MeasureCell(eng: Engine, f: Frame, m: Measure, args: seq<Expr>, members: seq<nat>)
    requires BuiltAll(args) == Some(m.arguments) && m.filter.None? && m.ordering == [] && m.suffix == ""
    requires forall k :: 0 <= k < |members| ==> members[k] < f.table.count
    ensures MeasureValue(eng, f.names, f.table, m, members)
         == eng.aggregate(m.kind, m.isDistinct, PickRows(Chains.LoweredRows(eng, f, args), members),
                          seq(|members|, _ => []))
  {
    RowsBuilt(eng, f, args);
    var rows := Chains.LoweredRows(eng, f, args);
    assert m.kind + "" == m.kind;
    assert seq(|members|, k requires 0 <= k < |members| =>
             EvalAll(eng, f.names, RowAt(f.table, members[k]), m.arguments)) == PickRows(rows, members) by {
      forall k | 0 <= k < |members|
        ensures EvalAll(eng, f.names, RowAt(f.table, members[k]), m.arguments) == rows[members[k]]
      {
        assert ExprRows(eng, f.names, f.table, m.arguments)[members[k]] == rows[members[k]];
      }
    }
    assert seq(|members|, k requires 0 <= k < |members| =>
             EvalAll(eng, f.names, RowAt(f.table, members[k]), m.ordering)) == seq(|members|, _ => []);
  }

  lemma MeasureNamed(e: Expr)
    requires BuiltMeasure(e).Some?
    ensures Plans.MeasureName(BuiltMeasure(e).value) == Chains.MeasureName(e)
  {
    if !Chains.IsAliased(e) && e.args != [] {
      BuiltEach(e.args, 0);
      DirectBuilt(e.args[0]);
    }
  }

  lemma {:induction false} MeasuresBuiltEach(es: seq<Expr>, k: nat)
    requires BuiltMeasures(es).Some? && k < |es|
    ensures BuiltMeasure(es[k]) == Some(BuiltMeasures(es).value[k])
  {
    if k > 0 {
      MeasuresBuiltEach(es[1..], k - 1);
    }
  }

  lemma MeasuresBuilt(eng: Engine, k: Carrier, es: seq<Expr>)
    requires BuiltMeasures(es).Some?
    ensures Plans.MeasureColumns(eng, Source(k).names, Source(k).table, BuiltMeasures(es).value, MembersOf(k))
         == Chains.MeasureColumns(eng, k, es)
    ensures Plans.MeasureNames(BuiltMeasures(es).value) == Chains.MeasureNames(es)
  {
    forall j | 0 <= j < |es|
      ensures Plans.MeasureColumn(eng, Source(k).names, Source(k).table, BuiltMeasures(es).value[j], MembersOf(k))
           == Chains.MeasureColumn(eng, k, es[j])
      ensures Plans.MeasureName(BuiltMeasures(es).value[j]) == Chains.MeasureName(es[j])
    {
      MeasuresBuiltEach(es, j);
      MeasureBuilt(eng, k, es[j]);
    }
  }

  /** No grouping names are inherited by an aggregate on this node. */
  predicate Unprefixed(c: Cursor) {
    c.nodes[c.tip].Aggregate? ==> AggregatePrefix(c.nodes, c.tip) == []
  }

  /** An aggregate reads the rows and keys under a grouping right below it, else the rows of its input. */
  lemma PushedAggregate(eng: Engine, cat: Catalog, db: Database, c: Cursor, k: Carrier, es: seq<Expr>)
    requires BuiltMeasures(es).Some? && Denotes(eng, cat, db, c, k) && Unprefixed(c)
    requires Fits(c.nodes, Aggregate(c.tip, [], BuiltMeasures(es).value))
    ensures Denotes(eng, cat, db, Push(c, Aggregate(c.tip, [], BuiltMeasures(es).value)), Chains.AggCarrier(eng, k, es))
  {
    var n := Aggregate(c.tip, [], BuiltMeasures(es).value);
    var nodes, i := Push(c, n).nodes, |c.nodes|;
    assert nodes[i].Inputs()[0] == c.tip && nodes[c.tip] == c.nodes[c.tip];
    MeasuresBuilt(eng, k, es);
    ShownStays(eng, cat, db, c, n, c.tip, Flat(k));
    if k.Grouped? {
      assert c.nodes[c.tip].Inputs()[0] == c.nodes[c.tip].input;
      ShownStays(eng, cat, db, c, n, c.nodes[c.tip].input, k.source);
    } else if c.nodes[c.tip].Aggregate? {
      Rewrites.PrefixStays(c.nodes, n, c.tip);
    }
    assert Columns(cat, nodes, i) == KeyNames(k) + Chains.MeasureNames(es);
  }

  // ----- joins -----

  lemma HitsBuilt(eng: Engine, names: seq<string>, l: Table, r: Table, on: Expr)
    requires Built(on).Some?
    ensures Hits(eng, names, l, r, Built(on).value) == Chains.LoweredHits(eng, names, l, r, on)
  {
    var built, lowered := Hits(eng, names, l, r, Built(on).value), Chains.LoweredHits(eng, names, l, r, on);
    forall i | 0 <= i < l.count ensures built[i] == lowered[i] {
      forall j | 0 <= j < r.count ensures built[i][j] == lowered[i][j] {
        BuiltValue(eng, names, RowAt(l, i) + RowAt(r, j), on);
      }
    }
  }

  lemma PushedJoin(
      eng: Engine, cat: Catalog, db: Database, c: Cursor, k: Carrier, right: Carrier, at: nat, kind: JoinKind,
      relation: string, on: Expr)
    requires Built(on).Some? && at < |c.nodes|
    requires Denotes(eng, cat, db, c, k) && NodeShows(eng, cat, db, c.nodes, at, Flat(right))
    requires Fits(c.nodes, Join(c.tip, at, kind, relation, Built(on).value))
    ensures Denotes(eng, cat, db, Push(c, Join(c.tip, at, kind, relation, Built(on).value)),
              Chains.JoinCarrier(eng, k, right, on, relation, kind == Left))
  {
    var n := Join(c.tip, at, kind, relation, Built(on).value);
    var nodes, i := Push(c, n).nodes, |c.nodes|;
    assert nodes[i].Inputs()[0] == c.tip && nodes[i].Inputs()[1] == at;
    ShownStays(eng, cat, db, c, n, c.tip, Flat(k));
    ShownStays(eng, cat, db, c, n, at, Flat(right));
    HitsBuilt(eng, Flat(k).names + Qualify(Flat(right).names, relation), Flat(k).table, Flat(right).table, on);
  }

  // ----- chains -----

  /** Every relation the chain can join stands in the store and shows what the host supplies. */
  ghost predicate RelationsShown(
      eng: Engine, cat: Catalog, db: Database, plan: Store, relations: Relations, host: QueryMeaning.Host)
  {
    forall e :: relations(e).Some? ==>
      relations(e).value < |plan| && NodeShows(eng, cat, db, plan, relations(e).value, Flat(host.relation(e)))
  }

  lemma RelationsStay(
      eng: Engine, cat: Catalog, db: Database, c: Cursor, n: Node, relations: Relations, host: QueryMeaning.Host)
    requires Fits(c.nodes, n) && RelationsShown(eng, cat, db, c.nodes, relations, host)
    ensures RelationsShown(eng, cat, db, Push(c, n).nodes, relations, host)
  {
    forall e | relations(e).Some?
      ensures NodeShows(eng, cat, db, Push(c, n).nodes, relations(e).value, Flat(host.relation(e)))
    {
      ShownStays(eng, cat, db, c, n, relations(e).value, Flat(host.relation(e)));
    }
  }

  /** What one call keeps: the cursor shows the carrier the call yields. */
  lemma CallDenotes(
      eng: Engine, cat: Catalog, db: Database, c: Cursor, relations: Relations, host: QueryMeaning.Host, k: Carrier,
      m: Chains.Method, args: seq<Expr>)
    requires !m.Join? && !m.LeftJoin? && (m.Agg? ==> Unprefixed(c)) && Denotes(eng, cat, db, c, k)
    requires var n := AppendedNode(c.tip, relations, host.number, m, args); n.Some? && Fits(c.nodes, n.value)
    ensures Denotes(eng, cat, db, Push(c, AppendedNode(c.tip, relations, host.number, m, args).value),
              Chains.Called(eng, host, k, m, args))
  {
    var n, f := AppendedNode(c.tip, relations, host.number, m, args).value, Flat(k);
    match m {
      case Filter =>
        FilterShows(eng, f, c.tip, args[0]);
        PushedOrdinary(eng, cat, db, c, n, k, Filtered(f, Chains.LoweredColumn(eng, f, args[0])));
      case GroupBy => PushedGroups(eng, cat, db, c, k, args[0].items);
      case Agg => PushedAggregate(eng, cat, db, c, k, args[0].items);
      case Select => SelectDenotes(eng, cat, db, c, k, args[0].items);
      case Generate =>
        var g := args[0];
        GenerateShows(eng, f, c.tip, g.args[0], g.args[1].text);
        PushedOrdinary(eng, cat, db, c, n, k,
          Exploded(eng, f, g.args[1].text, Chains.LoweredRows(eng, f, [g.args[0]])));
      case WithWindowColumn =>
        WindowShows(eng, f, c.tip, args[0].text, args[1]);
        PushedOrdinary(eng, cat, db, c, n, k,
          Windowed(eng, f, args[0].text, Chains.LoweredRows(eng, f, [args[1]])));
      case OrderBy =>
        OrderShows(eng, f, c.tip, args[0].items);
        PushedOrdinary(eng, cat, db, c, n, k, OrderedBy(eng, f, Chains.LoweredRows(eng, f, args[0].items)));
      case Limit =>
        LimitShows(eng, f, c.tip, host.number(args[0]));
        PushedOrdinary(eng, cat, db, c, n, k, Limited(f, host.number(args[0])));
      case _ =>
    }
  }

  lemma SelectDenotes(eng: Engine, cat: Catalog, db: Database, c: Cursor, k: Carrier, es: seq<Expr>)
    requires Denotes(eng, cat, db, c, k)
    requires var n := SelectNode(c.tip, es); n.Some? && Fits(c.nodes, n.value)
    ensures Denotes(eng, cat, db, Push(c, SelectNode(c.tip, es).value), Chains.SelectCarrier(eng, k, es))
  {
    var n, f := SelectNode(c.tip, es).value, Flat(k);
    if es == [] {
      KeepShows(eng, f, c.tip);
      PushedOrdinary(eng, cat, db, c, n, k, f);
    } else {
      SelectShows(eng, f, c.tip, es);
      PushedOrdinary(eng, cat, db, c, n, k,
        RawFrame(Chains.AssignedNames(es), RawTable(f.table.count, Chains.Assigned(eng, f, es))));
    }
  }

  lemma JoinDenotes(
      eng: Engine, cat: Catalog, db: Database, c: Cursor, relations: Relations, host: QueryMeaning.Host, k: Carrier,
      args: seq<Expr>, kind: JoinKind)
    requires Denotes(eng, cat, db, c, k) && RelationsShown(eng, cat, db, c.nodes, relations, host)
    requires var n := JoinNode(c.tip, relations, args, kind); n.Some? && Fits(c.nodes, n.value)
    ensures Denotes(eng, cat, db, Push(c, JoinNode(c.tip, relations, args, kind).value),
              Chains.JoinCarrier(eng, k, Chains.CarrierOf(eng, host, args[0]), args[1], args[2].text, kind == Left))
  {
    PushedJoin(eng, cat, db, c, k, host.relation(args[0]), relations(args[0]).value, kind, args[2].text, args[1]);
  }

  /** What the chain induction carries from call to call. */
  ghost predicate Follows(
      eng: Engine, cat: Catalog, db: Database, c: Cursor, relations: Relations, host: QueryMeaning.Host, e: Expr)
  {
    Denotes(eng, cat, db, c, Chains.CarrierOf(eng, host, e)) && RelationsShown(eng, cat, db, c.nodes, relations, host)
  }

  lemma StepFollows(
      eng: Engine, cat: Catalog, db: Database, c: Cursor, relations: Relations, host: QueryMeaning.Host, e: Expr,
      call: Invocation)
    requires Follows(eng, cat, db, c, relations, host, e)
    requires PlannedCall(c, relations, host.number, call).Some?
    requires call.method_ == "agg" ==> Unprefixed(c)
    ensures Follows(eng, cat, db, PlannedCall(c, relations, host.number, call).value, relations, host,
                    MethodCall(e, call.method_, call.args))
  {
    var m, k := Chains.MethodNamed(call.method_).value, Chains.CarrierOf(eng, host, e);
    var n := AppendedNode(c.tip, relations, host.number, m, call.args).value;
    RelationsStay(eng, cat, db, c, n, relations, host);
    if m.Join? {
      JoinDenotes(eng, cat, db, c, relations, host, k, call.args, Inner);
    } else if m.LeftJoin? {
      JoinDenotes(eng, cat, db, c, relations, host, k, call.args, Left);
    } else {
      AggNamed(call.method_);
      CallDenotes(eng, cat, db, c, relations, host, k, m, call.args);
    }
  }

  lemma AggNamed(name: string)
    ensures Chains.MethodNamed(name) == Some(Chains.Agg) <==> name == "agg"
  {
    assert |"filter"| == 6 && |"join"| == 4 && |"left_join"| == 9 && |"group_by"| == 8 && |"agg"| == 3;
  }

  /** No `agg` is called on what an `agg` gave, and the first call is one only where no names would be inherited. */
  predicate AggsApart(c: Cursor, calls: seq<Invocation>) {
    && (calls != [] && calls[0].method_ == "agg" ==> Unprefixed(c))
    && forall k :: 0 < k < |calls| && calls[k].method_ == "agg" ==> calls[k - 1].method_ != "agg"
  }

  /** The plan a chain appends shows what the chain means. */
  lemma {:induction false} ChainFollows(
      eng: Engine, cat: Catalog, db: Database, c: Cursor, relations: Relations, host: QueryMeaning.Host, e: Expr,
      calls: seq<Invocation>)
    requires Follows(eng, cat, db, c, relations, host, e) && AggsApart(c, calls)
    requires Planned(c, relations, host.number, calls).Some?
    ensures Follows(eng, cat, db, Planned(c, relations, host.number, calls).value, relations, host, Chain(e, calls))
    decreases |calls|
  {
    if calls != [] {
      var n := |calls| - 1;
      ApartFront(c, calls);
      ChainFollows(eng, cat, db, c, relations, host, e, calls[..n]);
      LastUnprefixed(c, relations, host.number, calls);
      StepFollows(eng, cat, db, Planned(c, relations, host.number, calls[..n]).value, relations, host,
                  Chain(e, calls[..n]), calls[n]);
    }
  }

  lemma ApartFront(c: Cursor, calls: seq<Invocation>)
    requires AggsApart(c, calls) && calls != []
    ensures AggsApart(c, calls[..|calls| - 1])
  {
  }

  lemma LastUnprefixed(c: Cursor, relations: Relations, number: Expr -> nat, calls: seq<Invocation>)
    requires AggsApart(c, calls) && calls != [] && Planned(c, relations, number, calls[..|calls| - 1]).Some?
    ensures calls[|calls| - 1].method_ == "agg" ==>
      Unprefixed(Planned(c, relations, number, calls[..|calls| - 1]).value)
  {
    var n := |calls| - 1;
    if n > 0 && calls[n].method_ == "agg" {
      LastNode(c, relations, number, calls[..n]);
    }
  }

  /** Only `agg` leaves an aggregate at the tip. */
  lemma LastNode(c: Cursor, relations: Relations, number: Expr -> nat, calls: seq<Invocation>)
    requires calls != [] && Planned(c, relations, number, calls).Some? && calls[|calls| - 1].method_ != "agg"
    ensures Unprefixed(Planned(c, relations, number, calls).value)
  {
    AggNamed(calls[|calls| - 1].method_);
  }
}
