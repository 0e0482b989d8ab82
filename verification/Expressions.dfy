/** The scalar-expression tree (src/projection_builders.incn), its column dependencies and its row-level value. */
module Expressions {
  import opened Names
  import opened Tables

  /** What a typed helper claims about its result; the tree underneath is the same. */
  datatype TypeFact =
    Untyped | BoolFact | IntFact | FloatFact | NumberFact | StringFact | TimestampFact | TemporalFact

  datatype ColumnExpr = ColumnExpr(fact: TypeFact, node: ScalarNode)

  datatype ScalarNode =
    | ColumnRef(columnName: string)
    | IntLiteral(int_: int)
    | FloatLiteral(float_: real)
    | StringLiteral(text: string)
    | BoolLiteral(flag: bool)
    | Application(canonicalName: string, arguments: seq<ColumnExpr>, options: seq<(string, string)>)

  function Col(name: string): ColumnExpr {
    ColumnExpr(Untyped, ColumnRef(name))
  }

  function AlwaysTrue(): ColumnExpr {
    ColumnExpr(Untyped, BoolLiteral(true))
  }

  /** The referenced column of a direct reference, else the fallback. */
  function ScalarOutputName(e: ColumnExpr, fallback: string): string {
    if e.node.ColumnRef? then e.node.columnName else fallback
  }

  // ----- dependencies -----

  /** Every column name the tree mentions. */
  function References(e: ColumnExpr): set<string> {
    match e.node
    case ColumnRef(name) => {name}
    case Application(_, args, _) => set k, x | 0 <= k < |args| && x in References(args[k]) :: x
    case _ => {}
  }

  function AllReferences(es: seq<ColumnExpr>): set<string> {
    set k, x | 0 <= k < |es| && x in References(es[k]) :: x
  }

  /** Names in first-mention order, each once. */
  function ExprNames(e: ColumnExpr): seq<string>
    decreases e, 0
  {
    match e.node
    case ColumnRef(name) => [name]
    case Application(_, args, _) => DependencyNames(args)
    case _ => []
  }

  function DependencyNames(es: seq<ColumnExpr>): seq<string>
    decreases es, 1
  {
    if es == [] then []
    else
      var n := |es| - 1;
      assert es[n] in es;
      InsertAll(DependencyNames(es[..n]), ExprNames(es[n]))
  }

  /** The ordered list mentions exactly the referenced names, without repetition. */
  lemma {:induction false} ExprNamesExact(e: ColumnExpr)
    ensures forall x :: x in ExprNames(e) <==> x in References(e)
    ensures Distinct(ExprNames(e))
    decreases e, 0
  {
    if e.node.Application? {
      DependencyNamesExact(e.node.arguments);
    }
  }

  lemma {:induction false} DependencyNamesExact(es: seq<ColumnExpr>)
    ensures forall x :: x in DependencyNames(es) <==> x in AllReferences(es)
    ensures Distinct(DependencyNames(es))
    decreases es, 1
  {
    if es != [] {
      var n := |es| - 1;
      DependencyNamesExact(es[..n]);
      ExprNamesExact(es[n]);
      InsertAllFacts(DependencyNames(es[..n]), ExprNames(es[n]));
      assert AllReferences(es) == AllReferences(es[..n]) + References(es[n]);
    }
  }

  /** The recursive walk of src/inspect.incn over its local ordered set. */
  method CollectExprNames(e: ColumnExpr) returns (names: seq<string>)
    ensures names == ExprNames(e)
    decreases e, 0
  {
    match e.node {
      case ColumnRef(name) => names := [name];
      case Application(_, args, _) => names := CollectDependencyNames(args);
      case _ => names := [];
    }
  }

  method CollectDependencyNames(es: seq<ColumnExpr>) returns (names: seq<string>)
    ensures names == DependencyNames(es)
    decreases es, 1
  {
    names := [];
    for i := 0 to |es|
      invariant names == DependencyNames(es[..i])
    {
      var found := CollectExprNames(es[i]);
      ghost var before := names;
      assert es[..i + 1][..i] == es[..i];
      for j := 0 to |found|
        invariant names == InsertAll(before, found[..j])
      {
        assert found[..j + 1] == found[..j] + [found[j]];
        InsertAllAppend(before, found[..j], [found[j]]);
        InsertAllOne(names, found[j]);
        names := Insert(names, found[j]);
      }
      assert found[..|found|] == found;
    }
    assert es[..|es|] == es;
  }

  // ----- values -----

  /** Every mentioned column exists; otherwise lowering reports an unknown column. */
  predicate Resolves(names: seq<string>, e: ColumnExpr) {
    forall x :: x in References(e) ==> x in names
  }

  predicate AllResolve(names: seq<string>, es: seq<ColumnExpr>) {
    forall k :: 0 <= k < |es| ==> Resolves(names, es[k])
  }

  /** Value on one row; a name means its first matching column. */
  function EvalExpr(eng: Engine, names: seq<string>, row: Row, e: ColumnExpr): Value {
    match e.node
    case ColumnRef(name) => Lookup(names, row, name)
    case IntLiteral(i) => IntValue(i)
    case FloatLiteral(f) => FloatValue(f)
    case StringLiteral(s) => StrValue(s)
    case BoolLiteral(b) => BoolValue(b)
    case Application(name, args, options) =>
      eng.apply(name, options, seq(|args|, k requires 0 <= k < |args| => EvalExpr(eng, names, row, args[k])))
  }

  function Lookup(names: seq<string>, row: Row, name: string): Value {
    var i := FirstIndex(names, name);
    if 0 <= i < |row| then row[i] else Null
  }

  function EvalAll(eng: Engine, names: seq<string>, row: Row, es: seq<ColumnExpr>): (r: Row)
    ensures |r| == |es|
  {
    seq(|es|, k requires 0 <= k < |es| => EvalExpr(eng, names, row, es[k]))
  }

  function ExprColumn(eng: Engine, names: seq<string>, t: Table, e: ColumnExpr): (c: Column)
    ensures |c| == t.count
  {
    seq(t.count, j requires 0 <= j < t.count => EvalExpr(eng, names, RowAt(t, j), e))
  }

  function ExprColumns(eng: Engine, names: seq<string>, t: Table, es: seq<ColumnExpr>): (cs: seq<Column>)
    ensures |cs| == |es| && forall k :: 0 <= k < |cs| ==> |cs[k]| == t.count
  {
    seq(|es|, k requires 0 <= k < |es| => ExprColumn(eng, names, t, es[k]))
  }

  /** One tuple of expression values per row. */
  function ExprRows(eng: Engine, names: seq<string>, t: Table, es: seq<ColumnExpr>): (rows: seq<Row>)
    ensures |rows| == t.count
  {
    seq(t.count, j requires 0 <= j < t.count => EvalAll(eng, names, RowAt(t, j), es))
  }

  // ----- a value depends only on the mentioned columns -----

  predicate SameOn(names1: seq<string>, row1: Row, names2: seq<string>, row2: Row, refs: set<string>) {
    forall x :: x in refs ==> Lookup(names1, row1, x) == Lookup(names2, row2, x)
  }

  lemma {:induction false} EvalDependsOnReferences(
      eng: Engine, names1: seq<string>, row1: Row, names2: seq<string>, row2: Row, e: ColumnExpr)
    requires SameOn(names1, row1, names2, row2, References(e))
    ensures EvalExpr(eng, names1, row1, e) == EvalExpr(eng, names2, row2, e)
    decreases e
  {
    match e.node {
      case ColumnRef(name) =>
        assert name in References(e);
      case Application(_, args, _) =>
        forall k | 0 <= k < |args|
          ensures EvalExpr(eng, names1, row1, args[k]) == EvalExpr(eng, names2, row2, args[k])
        {
          assert References(args[k]) <= References(e);
          EvalDependsOnReferences(eng, names1, row1, names2, row2, args[k]);
        }
        assert seq(|args|, k requires 0 <= k < |args| => EvalExpr(eng, names1, row1, args[k]))
            == seq(|args|, k requires 0 <= k < |args| => EvalExpr(eng, names2, row2, args[k]));
      case _ =>
    }
  }

  // ----- structural equality -----

  /** The same tree; what typed helpers claim about it is not compared. */
  predicate SameExpr(a: ColumnExpr, b: ColumnExpr) {
    match a.node
    case Application(name, args, options) =>
      && b.node.Application? && name == b.node.canonicalName && options == b.node.options
      && |args| == |b.node.arguments|
      && forall k :: 0 <= k < |args| ==> SameExpr(args[k], b.node.arguments[k])
    case _ => a.node == b.node
  }

  predicate SameExprs(a: seq<ColumnExpr>, b: seq<ColumnExpr>) {
    |a| == |b| && forall k :: 0 <= k < |a| ==> SameExpr(a[k], b[k])
  }

  lemma {:induction false} SameExprItself(a: ColumnExpr)
    ensures SameExpr(a, a)
    decreases a
  {
    if a.node.Application? {
      forall k | 0 <= k < |a.node.arguments| ensures SameExpr(a.node.arguments[k], a.node.arguments[k]) {
        SameExprItself(a.node.arguments[k]);
      }
    }
  }

  /** Equality to a third tree makes two trees equal. */
  lemma {:induction false} SameExprShared(a: ColumnExpr, b: ColumnExpr, c: ColumnExpr)
    requires SameExpr(a, b) && SameExpr(a, c)
    ensures SameExpr(b, c)
    decreases a
  {
    if a.node.Application? {
      forall k | 0 <= k < |a.node.arguments| ensures SameExpr(b.node.arguments[k], c.node.arguments[k]) {
        SameExprShared(a.node.arguments[k], b.node.arguments[k], c.node.arguments[k]);
      }
    }
  }

  lemma SameExprsItself(a: seq<ColumnExpr>)
    ensures SameExprs(a, a)
  {
    forall k | 0 <= k < |a| ensures SameExpr(a[k], a[k]) {
      SameExprItself(a[k]);
    }
  }

  lemma SameExprsShared(a: seq<ColumnExpr>, b: seq<ColumnExpr>, c: seq<ColumnExpr>)
    requires SameExprs(a, b) && SameExprs(a, c)
    ensures SameExprs(b, c)
  {
    forall k | 0 <= k < |a| ensures SameExpr(b[k], c[k]) {
      SameExprShared(a[k], b[k], c[k]);
    }
  }

  /** Structurally equal trees have one value on every row. */
  lemma {:induction false} SameExprMeans(eng: Engine, names: seq<string>, row: Row, a: ColumnExpr, b: ColumnExpr)
    requires SameExpr(a, b)
    ensures EvalExpr(eng, names, row, a) == EvalExpr(eng, names, row, b)
    decreases a
  {
    if a.node.Application? {
      var xs, ys := a.node.arguments, b.node.arguments;
      forall k | 0 <= k < |xs| ensures EvalExpr(eng, names, row, xs[k]) == EvalExpr(eng, names, row, ys[k]) {
        SameExprMeans(eng, names, row, xs[k], ys[k]);
      }
      assert seq(|xs|, k requires 0 <= k < |xs| => EvalExpr(eng, names, row, xs[k]))
          == seq(|ys|, k requires 0 <= k < |ys| => EvalExpr(eng, names, row, ys[k]));
    }
  }

  lemma {:induction false} SameReferences(a: ColumnExpr, b: ColumnExpr)
    requires SameExpr(a, b)
    ensures References(a) == References(b)
    decreases a
  {
    if a.node.Application? {
      forall k | 0 <= k < |a.node.arguments|
        ensures References(a.node.arguments[k]) == References(b.node.arguments[k])
      {
        SameReferences(a.node.arguments[k], b.node.arguments[k]);
      }
    }
  }
}
