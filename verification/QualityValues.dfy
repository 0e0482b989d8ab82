/** What quality expressions mean, and that lowering them keeps the meaning. One reading covers both forms: operators,
    field shorthands and called names as an author writes them, helper calls as the lowering leaves them. */
module QualityValues {
  import opened Incan
  import opened Wrappers
  import opened Desugar
  import opened Tables
  import opened QueryValues
  import opened Quality

  /** What the surrounding program supplies: functions by name, calls of computed values, and nodes that lowering never
      looks into. */
  datatype Host = Host(call: (string, Row) -> Value, invoke: (Value, Row) -> Value, other: Expr -> Value)

  /** A helper applied to arguments: `col("name")` reads a column, any other helper its argument values. */
  function Helped(eng: Engine, names: seq<string>, row: Row, helper: string, args: seq<Expr>, values: Row): Value {
    if helper == "col" && |args| == 1 && args[0].Str? then Column_(names, row, args[0].text)
    else HelperValue(eng, helper, values)
  }

  /** A called name means the helper of that name if the package exports one, `mod` being another name of `modulo`;
      otherwise it is the program's own function. */
  function Named(
      eng: Engine, host: Host, exported: set<string>, names: seq<string>, row: Row, name: string, args: seq<Expr>,
      values: Row): Value
  {
    if name == "mod" && "modulo" in exported then Helped(eng, names, row, "modulo", args, values)
    else if name != "mod" && name in exported then Helped(eng, names, row, name, args, values)
    else host.call(name, values)
  }

  function Meaning(
      eng: Engine, host: Host, exported: set<string>, names: seq<string>, row: Row, e: Expr): Value
    decreases e, 1
  {
    match e
    case Str(s) => StrValue(s)
    case Int(i) => IntValue(i)
    case Bool(b) => BoolValue(b)
    case CurrentField(f) => Column_(names, row, f)
    case RelationField(r, f) => Column_(names, row, r + "." + f)
    case ScopedSurface(query, payload) =>
      if query && payload.LeadingDotPath? then Column_(names, row, Joined(payload.segments, ".")) else host.other(e)
    case Binary(l, op, r) =>
      Operator(eng, Symbol(op), [Meaning(eng, host, exported, names, row, l), Meaning(eng, host, exported, names, row, r)])
    case Unary(op, v) =>
      Operator(eng, if op == Not then "not" else "neg", [Meaning(eng, host, exported, names, row, v)])
    case ListOf(items) => ListValue(eng, Meanings(eng, host, exported, names, row, items))
    case TupleOf(items) => eng.apply("", [("tuple", "")], Meanings(eng, host, exported, names, row, items))
    case DictOf(entries) => eng.apply("", [("dict", "")], EntryMeanings(eng, host, exported, names, row, entries))
    case Field(o, f) => FieldValue(eng, Meaning(eng, host, exported, names, row, o), f)
    case Call(callee, args) =>
      var values := Meanings(eng, host, exported, names, row, args);
      if callee.Helper? then Helped(eng, names, row, callee.helper, args, values)
      else if callee.Name? then Named(eng, host, exported, names, row, callee.name, args, values)
      else if callee.Field? then
        MethodValue(eng, Meaning(eng, host, exported, names, row, callee.object_), callee.field, values)
      else host.invoke(Meaning(eng, host, exported, names, row, callee), values)
    case _ => host.other(e)
  }

  function Meanings(
      eng: Engine, host: Host, exported: set<string>, names: seq<string>, row: Row, es: seq<Expr>): Row
    decreases es, 0
  {
    if es == [] then []
    else [Meaning(eng, host, exported, names, row, es[0])] + Meanings(eng, host, exported, names, row, es[1..])
  }

  /** Keys and values in turn. */
  function EntryMeanings(
      eng: Engine, host: Host, exported: set<string>, names: seq<string>, row: Row, es: seq<Entry>): Row
    decreases es, 0
  {
    if es == [] then []
    else EntryMeaning(eng, host, exported, names, row, es[0])
         + EntryMeanings(eng, host, exported, names, row, es[1..])
  }

  function EntryMeaning(
      eng: Engine, host: Host, exported: set<string>, names: seq<string>, row: Row, entry: Entry): Row
    decreases entry, 0
  {
    [Meaning(eng, host, exported, names, row, entry.key), Meaning(eng, host, exported, names, row, entry.value)]
  }

  /** Main result: whatever quality expression lowers keeps its value on every row. */
  lemma {:induction false} LoweringPreservesMeaning(
      eng: Engine, host: Host, exported: set<string>, names: seq<string>, row: Row, e: Expr)
    requires LowerQuality(exported, e).Ok?
    ensures Meaning(eng, host, exported, names, row, LowerQuality(exported, e).value)
         == Meaning(eng, host, exported, names, row, e)
    decreases e, 1
  {
    match e {
      case CurrentField(f) => ColumnMeaning(eng, host, exported, names, row, f);
      case RelationField(r, f) => ColumnMeaning(eng, host, exported, names, row, r + "." + f);
      case ScopedSurface(query, payload) =>
        if query {
          ColumnMeaning(eng, host, exported, names, row, Joined(payload.segments, "."));
        }
      case Binary(l, op, r) =>
        LoweringPreservesMeaning(eng, host, exported, names, row, l);
        LoweringPreservesMeaning(eng, host, exported, names, row, r);
        BinaryMeaning(eng, host, exported, names, row, op, LowerQuality(exported, l).value,
                      LowerQuality(exported, r).value);
      case Unary(op, v) =>
        LoweringPreservesMeaning(eng, host, exported, names, row, v);
        UnaryMeaning(eng, host, exported, names, row, op, LowerQuality(exported, v).value);
      case ListOf(items) => AllPreserved(eng, host, exported, names, row, items);
      case TupleOf(items) => AllPreserved(eng, host, exported, names, row, items);
      case DictOf(entries) => EntriesPreserved(eng, host, exported, names, row, entries);
      case Field(o, _) => LoweringPreservesMeaning(eng, host, exported, names, row, o);
      case Call(callee, args) =>
        AllPreserved(eng, host, exported, names, row, args);
        if callee.Name? {
          NamedPreserved(eng, host, exported, names, row, callee.name, args);
        } else if callee.Field? {
          LoweringPreservesMeaning(eng, host, exported, names, row, callee.object_);
        } else {
          LoweringPreservesMeaning(eng, host, exported, names, row, callee);
          CalleePreserved(eng, host, exported, names, row, callee, args);
        }
      case _ =>
    }
  }

  lemma ColumnMeaning(
      eng: Engine, host: Host, exported: set<string>, names: seq<string>, row: Row, name: string)
    ensures Meaning(eng, host, exported, names, row, ColCall(name)) == Column_(names, row, name)
  {
  }

  lemma BinaryMeaning(
      eng: Engine, host: Host, exported: set<string>, names: seq<string>, row: Row, op: BinaryOp, l: Expr, r: Expr)
    requires BinaryHelper(op).Ok?
    ensures Meaning(eng, host, exported, names, row, HelperCall(BinaryHelper(op).value, [l, r]))
         == Operator(eng, Symbol(op), [Meaning(eng, host, exported, names, row, l),
                                       Meaning(eng, host, exported, names, row, r)])
  {
    var helper := BinaryHelper(op).value;
    OperatorHelpers(op);
    TwoMeanings(eng, host, exported, names, row, l, r);
    HelperMeaning(eng, host, exported, names, row, helper, [l, r]);
  }

  lemma TwoMeanings(
      eng: Engine, host: Host, exported: set<string>, names: seq<string>, row: Row, l: Expr, r: Expr)
    ensures Meanings(eng, host, exported, names, row, [l, r])
         == [Meaning(eng, host, exported, names, row, l), Meaning(eng, host, exported, names, row, r)]
  {
    assert [l, r][1..] == [r] && [r][1..] == [];
    assert Meanings(eng, host, exported, names, row, [r]) == [Meaning(eng, host, exported, names, row, r)];
  }

  lemma HelperMeaning(
      eng: Engine, host: Host, exported: set<string>, names: seq<string>, row: Row, helper: string, args: seq<Expr>)
    ensures Meaning(eng, host, exported, names, row, HelperCall(helper, args))
         == Helped(eng, names, row, helper, args, Meanings(eng, host, exported, names, row, args))
  {
  }

  lemma UnaryMeaning(
      eng: Engine, host: Host, exported: set<string>, names: seq<string>, row: Row, op: UnaryOp, v: Expr)
    requires UnaryHelper(op).Ok?
    ensures Meaning(eng, host, exported, names, row, HelperCall(UnaryHelper(op).value, [v]))
         == Operator(eng, if op == Not then "not" else "neg", [Meaning(eng, host, exported, names, row, v)])
  {
    HelperMeaning(eng, host, exported, names, row, UnaryHelper(op).value, [v]);
    assert Meanings(eng, host, exported, names, row, [v]) == [Meaning(eng, host, exported, names, row, v)];
    assert "neg"[0] == 'n' && "not_"[0] == 'n' && "col"[0] == 'c' && "lit"[0] == 'l' && "mod"[0] == 'm';
  }

  /** Only a string literal lowers to one. */
  lemma StringsStay(exported: set<string>, args: seq<Expr>)
    requires |args| == 1 && LowerQualities(exported, args).Ok?
    ensures var lowered := LowerQualities(exported, args).value;
            lowered[0].Str? == args[0].Str? && (args[0].Str? ==> lowered[0] == args[0])
  {
  }

  lemma NamedPreserved(
      eng: Engine, host: Host, exported: set<string>, names: seq<string>, row: Row, name: string, args: seq<Expr>)
    requires LowerQualities(exported, args).Ok?
    requires Meanings(eng, host, exported, names, row, LowerQualities(exported, args).value)
          == Meanings(eng, host, exported, names, row, args)
    ensures Meaning(eng, host, exported, names, row, LowerQuality(exported, Call(Name(name), args)).value)
         == Meaning(eng, host, exported, names, row, Call(Name(name), args))
  {
    var lowered := LowerQualities(exported, args).value;
    if |args| == 1 {
      StringsStay(exported, args);
    }
    if HelperName(name) in exported {
      HelperMeaning(eng, host, exported, names, row, HelperName(name), lowered);
    }
  }

  lemma CalleePreserved(
      eng: Engine, host: Host, exported: set<string>, names: seq<string>, row: Row, callee: Expr, args: seq<Expr>)
    requires !callee.Name? && !callee.Field? && LowerQuality(exported, Call(callee, args)).Ok?
    requires Meanings(eng, host, exported, names, row, LowerQualities(exported, args).value)
          == Meanings(eng, host, exported, names, row, args)
    requires Meaning(eng, host, exported, names, row, LowerQuality(exported, callee).value)
          == Meaning(eng, host, exported, names, row, callee)
    ensures Meaning(eng, host, exported, names, row, LowerQuality(exported, Call(callee, args)).value)
         == Meaning(eng, host, exported, names, row, Call(callee, args))
  {
    var lowered := LowerQualities(exported, args).value;
    if |args| == 1 {
      StringsStay(exported, args);
    }
    var target := LowerQuality(exported, callee).value;
    assert callee.Helper? ==> target == callee;
    assert !callee.Helper? ==> !target.Helper? && !target.Name? && !target.Field?;
  }

  lemma {:induction false} AllPreserved(
      eng: Engine, host: Host, exported: set<string>, names: seq<string>, row: Row, es: seq<Expr>)
    requires LowerQualities(exported, es).Ok?
    ensures Meanings(eng, host, exported, names, row, LowerQualities(exported, es).value)
         == Meanings(eng, host, exported, names, row, es)
    decreases es, 0
  {
    if es != [] {
      LoweringPreservesMeaning(eng, host, exported, names, row, es[0]);
      AllPreserved(eng, host, exported, names, row, es[1..]);
      assert LowerQualities(exported, es).value[1..] == LowerQualities(exported, es[1..]).value;
    }
  }

  lemma {:induction false} EntriesPreserved(
      eng: Engine, host: Host, exported: set<string>, names: seq<string>, row: Row, es: seq<Entry>)
    requires LowerEntries(exported, es).Ok?
    ensures EntryMeanings(eng, host, exported, names, row, LowerEntries(exported, es).value)
         == EntryMeanings(eng, host, exported, names, row, es)
    decreases es, 0
  {
    if es != [] {
      EntryPreserved(eng, host, exported, names, row, es[0]);
      EntriesPreserved(eng, host, exported, names, row, es[1..]);
      assert LowerEntries(exported, es).value[1..] == LowerEntries(exported, es[1..]).value;
    }
  }

  lemma {:induction false} EntryPreserved(
      eng: Engine, host: Host, exported: set<string>, names: seq<string>, row: Row, entry: Entry)
    requires LowerEntry(exported, entry).Ok?
    ensures EntryMeaning(eng, host, exported, names, row, LowerEntry(exported, entry).value)
         == EntryMeaning(eng, host, exported, names, row, entry)
    decreases entry, 0
  {
    LoweringPreservesMeaning(eng, host, exported, names, row, entry.key);
    LoweringPreservesMeaning(eng, host, exported, names, row, entry.value);
  }

  // ----- acceptance -----

  /** Everything but a query field without a path and an operator without a helper, wherever lowering looks. */
  predicate Supported(e: Expr)
    decreases e
  {
    match e
    case ScopedSurface(query, payload) => query ==> payload.LeadingDotPath?
    case Binary(l, op, r) => op != OtherBinary && Supported(l) && Supported(r)
    case Unary(op, v) => op != OtherUnary && Supported(v)
    case ListOf(items) => forall k :: 0 <= k < |items| ==> Supported(items[k])
    case TupleOf(items) => forall k :: 0 <= k < |items| ==> Supported(items[k])
    case DictOf(entries) => forall k :: 0 <= k < |entries| ==> Supported(entries[k].key) && Supported(entries[k].value)
    case Call(callee, args) => Supported(callee) && forall k :: 0 <= k < |args| ==> Supported(args[k])
    case Field(o, _) => Supported(o)
    case _ => true
  }

  lemma {:induction false} LowersExactly(exported: set<string>, e: Expr)
    ensures LowerQuality(exported, e).Ok? <==> Supported(e)
    decreases e, 1
  {
    match e {
      case Binary(l, _, r) =>
        LowersExactly(exported, l);
        LowersExactly(exported, r);
      case Unary(_, v) => LowersExactly(exported, v);
      case ListOf(items) => AllLowerExactly(exported, items);
      case TupleOf(items) => AllLowerExactly(exported, items);
      case DictOf(entries) => EntriesLowerExactly(exported, entries);
      case Call(callee, args) =>
        AllLowerExactly(exported, args);
        if callee.Field? {
          LowersExactly(exported, callee.object_);
        } else if !callee.Name? {
          LowersExactly(exported, callee);
        }
      case Field(o, _) => LowersExactly(exported, o);
      case _ =>
    }
  }

  lemma {:induction false} AllLowerExactly(exported: set<string>, es: seq<Expr>)
    ensures LowerQualities(exported, es).Ok? <==> forall k :: 0 <= k < |es| ==> Supported(es[k])
    decreases es, 0
  {
    if es != [] {
      LowersExactly(exported, es[0]);
      AllLowerExactly(exported, es[1..]);
      assert forall k :: 1 <= k < |es| ==> es[k] == es[1..][k - 1];
      assert forall k :: 0 <= k < |es[1..]| ==> es[1..][k] == es[k + 1];
    }
  }

  lemma {:induction false} EntriesLowerExactly(exported: set<string>, es: seq<Entry>)
    ensures LowerEntries(exported, es).Ok?
        <==> forall k :: 0 <= k < |es| ==> Supported(es[k].key) && Supported(es[k].value)
    decreases es, 0
  {
    if es != [] {
      EntryLowersExactly(exported, es[0]);
      EntriesLowerExactly(exported, es[1..]);
      assert forall k :: 1 <= k < |es| ==> es[k] == es[1..][k - 1];
      assert forall k :: 0 <= k < |es[1..]| ==> es[1..][k] == es[k + 1];
    }
  }

  lemma {:induction false} EntryLowersExactly(exported: set<string>, entry: Entry)
    ensures LowerEntry(exported, entry).Ok? <==> Supported(entry.key) && Supported(entry.value)
    decreases entry, 0
  {
    LowersExactly(exported, entry.key);
    LowersExactly(exported, entry.value);
  }

  // ----- whole blocks -----

  /** The asserted expressions of a block, in order. */
  function Asserted(body: seq<QualityItem>): seq<Expr> {
    if body == [] then []
    else (if body[0].Assertion? then [body[0].expr] else []) + Asserted(body[1..])
  }

  lemma {:induction false} AssertedLast(body: seq<QualityItem>)
    requires body != []
    ensures var n := |body| - 1;
            Asserted(body) == Asserted(body[..n]) + if body[n].Assertion? then [body[n].expr] else []
    decreases |body|
  {
    var n := |body| - 1;
    if n > 0 {
      AssertedLast(body[1..]);
      assert body[1..][..n - 1] == body[..n][1..] && body[1..][n - 1] == body[n];
    }
  }

  /** What an accepted list of items must look like. */
  predicate Assertable(exported: set<string>, body: seq<QualityItem>) {
    && (forall i :: 0 <= i < |body| ==> !body[i].OtherQualityItem?)
    && (forall i :: 0 <= i < |body| && body[i].Assertion? ==> LowerQuality(exported, body[i].expr).Ok?)
  }

  lemma {:induction false} AssertionsExactly(exported: set<string>, body: seq<QualityItem>)
    ensures LowerAssertions(exported, body).Ok? <==> Assertable(exported, body)
    ensures LowerAssertions(exported, body).Ok? ==>
      var lowered := LowerAssertions(exported, body).value;
      && |lowered| == |Asserted(body)|
      && forall k :: 0 <= k < |lowered| ==> LowerQuality(exported, Asserted(body)[k]) == Ok(lowered[k])
    decreases |body|
  {
    if body != [] {
      var n := |body| - 1;
      AssertionsExactly(exported, body[..n]);
      AssertedLast(body);
      assert body == body[..n] + [body[n]];
    }
  }

  /** Main result: a block lowers exactly when it has no header, holds only assertions and passes, and every assertion
      lowers. Its k-th expression is then the lowering of its k-th assertion, and has the same value on every row. */
  lemma BlockExactly(
      eng: Engine, host: Host, exported: set<string>, names: seq<string>, row: Row, hasHeader: bool,
      body: seq<QualityItem>)
    ensures LowerBlock(exported, hasHeader, body).Ok? <==> !hasHeader && Assertable(exported, body)
    ensures LowerBlock(exported, hasHeader, body).Ok? ==>
      var r := LowerBlock(exported, hasHeader, body).value;
      && r.ListOf? && |r.items| == |Asserted(body)|
      && forall k :: 0 <= k < |r.items| ==>
           LowerQuality(exported, Asserted(body)[k]) == Ok(r.items[k])
           && Meaning(eng, host, exported, names, row, r.items[k])
              == Meaning(eng, host, exported, names, row, Asserted(body)[k])
  {
    AssertionsExactly(exported, body);
    if LowerBlock(exported, hasHeader, body).Ok? {
      var items := LowerBlock(exported, hasHeader, body).value.items;
      forall k | 0 <= k < |items|
        ensures Meaning(eng, host, exported, names, row, items[k])
             == Meaning(eng, host, exported, names, row, Asserted(body)[k])
      {
        LoweringPreservesMeaning(eng, host, exported, names, row, Asserted(body)[k]);
      }
    }
  }
}
