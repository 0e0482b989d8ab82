/** Lowering inside `quality` blocks (vocab_companion/src/desugar.rs): unlike query expressions, anything not recognised
    passes through, and a name becomes a helper only if the package exports it. */
module Quality {
  import opened Incan
  import opened Wrappers
  import opened Desugar
  import Manifest

  function LowerQuality(exported: set<string>, e: Expr): Result<Expr>
    decreases e, 1
  {
    match e
    case ScopedSurface(query, payload) =>
      if !query then Ok(e)
      else if payload.LeadingDotPath? then Ok(ColCall(Joined(payload.segments, ".")))
      else Err(NotAPath)
    case CurrentField(field) => Ok(ColCall(field))
    case RelationField(relation, field) => Ok(ColCall(relation + "." + field))
    case ListOf(items) =>
      var lowered :- LowerQualities(exported, items);
      Ok(ListOf(lowered))
    case TupleOf(items) =>
      var lowered :- LowerQualities(exported, items);
      Ok(TupleOf(lowered))
    case DictOf(entries) =>
      var lowered :- LowerEntries(exported, entries);
      Ok(DictOf(lowered))
    case Binary(left, op, right) =>
      var helper :- BinaryHelper(op);
      var l :- LowerQuality(exported, left);
      var r :- LowerQuality(exported, right);
      Ok(HelperCall(helper, [l, r]))
    case Unary(op, inner) =>
      var helper :- UnaryHelper(op);
      var v :- LowerQuality(exported, inner);
      Ok(HelperCall(helper, [v]))
    case Call(callee, args) =>
      var lowered :- LowerQualities(exported, args);
      if callee.Name? then
        if HelperName(callee.name) in exported then Ok(HelperCall(HelperName(callee.name), lowered))
        else Ok(Call(callee, lowered))
      else if callee.Field? then
        var object_ :- LowerQuality(exported, callee.object_);
        Ok(Call(Field(object_, callee.field), lowered))
      else
        var target :- LowerQuality(exported, callee);
        Ok(Call(target, lowered))
    case Field(object_, field) =>
      var lowered :- LowerQuality(exported, object_);
      Ok(Field(lowered, field))
    case _ => Ok(e)
  }

  function LowerQualities(exported: set<string>, es: seq<Expr>): (r: Result<seq<Expr>>)
    ensures r.Ok? ==> |r.value| == |es|
    decreases es, 0
  {
    if es == [] then Ok([])
    else
      var first :- LowerQuality(exported, es[0]);
      var rest :- LowerQualities(exported, es[1..]);
      Ok([first] + rest)
  }

  function LowerEntries(exported: set<string>, es: seq<Entry>): (r: Result<seq<Entry>>)
    ensures r.Ok? ==> |r.value| == |es|
    decreases es, 0
  {
    if es == [] then Ok([])
    else
      var first :- LowerEntry(exported, es[0]);
      var rest :- LowerEntries(exported, es[1..]);
      Ok([first] + rest)
  }

  function LowerEntry(exported: set<string>, entry: Entry): Result<Entry>
    decreases entry, 0
  {
    var key :- LowerQuality(exported, entry.key);
    var value :- LowerQuality(exported, entry.value);
    Ok(Entry(key, value))
  }

  // ----- the block -----

  datatype QualityItem = Assertion(expr: Expr) | Pass | OtherQualityItem

  function LowerBlock(exported: set<string>, hasHeader: bool, body: seq<QualityItem>): Result<Expr> {
    if hasHeader then Err(ClauseShape)
    else
      var assertions :- LowerAssertions(exported, body);
      Ok(ListOf(assertions))
  }

  function LowerAssertions(exported: set<string>, body: seq<QualityItem>): Result<seq<Expr>> {
    if body == [] then Ok([])
    else
      var n := |body| - 1;
      var front :- LowerAssertions(exported, body[..n]);
      match body[n]
      case Assertion(e) => (var lowered :- LowerQuality(exported, e); Ok(front + [lowered]))
      case Pass => Ok(front)
      case OtherQualityItem => Err(ClauseShape)
  }

  method LowerQualityBlock(exported: set<string>, hasHeader: bool, body: seq<QualityItem>) returns (r: Result<Expr>)
    ensures r == LowerBlock(exported, hasHeader, body)
  {
    if hasHeader {
      return Err(ClauseShape);
    }
    var assertions: seq<Expr> := [];
    for i := 0 to |body|
      invariant LowerAssertions(exported, body[..i]) == Ok(assertions)
    {
      assert body[..i + 1][..i] == body[..i];
      if body[i].Assertion? {
        var lowered := LowerQuality(exported, body[i].expr);
        if lowered.Err? {
          AssertionFails(exported, body, i, lowered.error);
          return Err(lowered.error);
        }
        assertions := assertions + [lowered.value];
      } else if body[i].OtherQualityItem? {
        AssertionFails(exported, body, i, ClauseShape);
        return Err(ClauseShape);
      }
    }
    assert body[..|body|] == body;
    return Ok(ListOf(assertions));
  }

  /** The first failing item decides the error. */
  lemma {:induction false} AssertionFails(exported: set<string>, body: seq<QualityItem>, i: nat, error: Error)
    requires i < |body| && LowerAssertions(exported, body[..i]).Ok?
    requires match body[i]
             case Assertion(e) => LowerQuality(exported, e) == Err(error)
             case OtherQualityItem => error == ClauseShape
             case Pass => false
    ensures LowerAssertions(exported, body) == Err(error)
    decreases |body|
  {
    var n := |body| - 1;
    if i < n {
      assert body[..n][..i] == body[..i];
      AssertionFails(exported, body[..n], i, error);
    } else {
      assert body[..n] == body[..i];
    }
  }

  // ----- fixed points -----

  /** None left to rewrite: no field shorthand, no operator, no direct call of an exported name. */
  predicate Settled(exported: set<string>, e: Expr)
    decreases e
  {
    match e
    case ScopedSurface(query, _) => !query
    case CurrentField(_) => false
    case RelationField(_, _) => false
    case Binary(_, _, _) => false
    case Unary(_, _) => false
    case ListOf(items) => forall k :: 0 <= k < |items| ==> Settled(exported, items[k])
    case TupleOf(items) => forall k :: 0 <= k < |items| ==> Settled(exported, items[k])
    case DictOf(entries) =>
      forall k :: 0 <= k < |entries| ==> Settled(exported, entries[k].key) && Settled(exported, entries[k].value)
    case Call(callee, args) =>
      && (forall k :: 0 <= k < |args| ==> Settled(exported, args[k]))
      && if callee.Name? then HelperName(callee.name) !in exported else Settled(exported, callee)
    case Field(o, _) => Settled(exported, o)
    case _ => true
  }

  /** Whatever is accepted lowers to a settled tree. */
  lemma {:induction false} LoweringSettles(exported: set<string>, e: Expr)
    requires LowerQuality(exported, e).Ok?
    ensures Settled(exported, LowerQuality(exported, e).value)
    decreases e, 1
  {
    match e {
      case ListOf(items) => AllSettle(exported, items);
      case TupleOf(items) => AllSettle(exported, items);
      case DictOf(entries) => EntriesSettle(exported, entries);
      case Binary(l, _, r) =>
        LoweringSettles(exported, l);
        LoweringSettles(exported, r);
      case Unary(_, v) => LoweringSettles(exported, v);
      case Call(callee, args) =>
        AllSettle(exported, args);
        if callee.Field? {
          LoweringSettles(exported, callee.object_);
        } else if !callee.Name? {
          LoweringSettles(exported, callee);
        }
      case Field(o, _) => LoweringSettles(exported, o);
      case _ =>
    }
  }

  lemma {:induction false} AllSettle(exported: set<string>, es: seq<Expr>)
    requires LowerQualities(exported, es).Ok?
    ensures forall k :: 0 <= k < |es| ==> Settled(exported, LowerQualities(exported, es).value[k])
    decreases es, 0
  {
    if es != [] {
      LoweringSettles(exported, es[0]);
      AllSettle(exported, es[1..]);
    }
  }

  lemma {:induction false} EntriesSettle(exported: set<string>, es: seq<Entry>)
    requires LowerEntries(exported, es).Ok?
    ensures var r := LowerEntries(exported, es).value;
            forall k :: 0 <= k < |es| ==> Settled(exported, r[k].key) && Settled(exported, r[k].value)
    decreases es, 0
  {
    if es != [] {
      EntrySettles(exported, es[0]);
      EntriesSettle(exported, es[1..]);
    }
  }

  lemma {:induction false} EntrySettles(exported: set<string>, entry: Entry)
    requires LowerEntry(exported, entry).Ok?
    ensures var r := LowerEntry(exported, entry).value; Settled(exported, r.key) && Settled(exported, r.value)
    decreases entry, 0
  {
    LoweringSettles(exported, entry.key);
    LoweringSettles(exported, entry.value);
  }

  /** Settled trees are the trees lowering returns unchanged. */
  lemma {:induction false} SettledIsFixed(exported: set<string>, e: Expr)
    requires Settled(exported, e)
    ensures LowerQuality(exported, e) == Ok(e)
    decreases e, 1
  {
    match e {
      case ListOf(items) => AllFixed(exported, items);
      case TupleOf(items) => AllFixed(exported, items);
      case DictOf(entries) => EntriesFixed(exported, entries);
      case Call(callee, args) =>
        AllFixed(exported, args);
        if !callee.Name? {
          SettledIsFixed(exported, callee);
        }
      case Field(o, _) => SettledIsFixed(exported, o);
      case _ =>
    }
  }

  lemma {:induction false} AllFixed(exported: set<string>, es: seq<Expr>)
    requires forall k :: 0 <= k < |es| ==> Settled(exported, es[k])
    ensures LowerQualities(exported, es) == Ok(es)
    decreases es, 0
  {
    if es != [] {
      SettledIsFixed(exported, es[0]);
      AllFixed(exported, es[1..]);
      assert es == [es[0]] + es[1..];
    }
  }

  lemma {:induction false} EntriesFixed(exported: set<string>, es: seq<Entry>)
    requires forall k :: 0 <= k < |es| ==> Settled(exported, es[k].key) && Settled(exported, es[k].value)
    ensures LowerEntries(exported, es) == Ok(es)
    decreases es, 0
  {
    if es != [] {
      EntryFixed(exported, es[0]);
      EntriesFixed(exported, es[1..]);
      assert es == [es[0]] + es[1..];
    }
  }

  lemma {:induction false} EntryFixed(exported: set<string>, entry: Entry)
    requires Settled(exported, entry.key) && Settled(exported, entry.value)
    ensures LowerEntry(exported, entry) == Ok(entry)
    decreases entry, 0
  {
    SettledIsFixed(exported, entry.key);
    SettledIsFixed(exported, entry.value);
  }

  /** Main result: lowering is idempotent, and its fixed points are exactly the settled trees. */
  lemma LoweringIdempotent(exported: set<string>, e: Expr)
    ensures LowerQuality(exported, e).Ok? ==>
      LowerQuality(exported, LowerQuality(exported, e).value) == LowerQuality(exported, e)
    ensures LowerQuality(exported, e) == Ok(e) <==> Settled(exported, e)
  {
    if LowerQuality(exported, e).Ok? {
      LoweringSettles(exported, e);
      SettledIsFixed(exported, LowerQuality(exported, e).value);
    }
    if Settled(exported, e) {
      SettledIsFixed(exported, e);
    }
  }

  // ----- helpers come from the manifest -----

  function Helpers(e: Expr): set<string>
    decreases e, 1
  {
    match e
    case Helper(h) => {h}
    case ListOf(items) => AllHelpers(items)
    case TupleOf(items) => AllHelpers(items)
    case DictOf(entries) => EntryHelpers(entries)
    case Binary(l, _, r) => Helpers(l) + Helpers(r)
    case Unary(_, v) => Helpers(v)
    case Call(callee, args) => Helpers(callee) + AllHelpers(args)
    case ScopedSymbolCall(_, args) => AllHelpers(args)
    case Field(o, _) => Helpers(o)
    case _ => {}
  }

  function AllHelpers(es: seq<Expr>): set<string>
    decreases es, 0
  {
    if es == [] then {} else Helpers(es[0]) + AllHelpers(es[1..])
  }

  function EntryHelpers(es: seq<Entry>): set<string>
    decreases es, 0
  {
    if es == [] then {} else HelpersOfEntry(es[0]) + EntryHelpers(es[1..])
  }

  function HelpersOfEntry(entry: Entry): set<string>
    decreases entry, 0
  {
    Helpers(entry.key) + Helpers(entry.value)
  }

  /** What the package must export for operators and field shorthands. */
  ghost predicate ExportsOperators(exported: set<string>) {
    && "col" in exported
    && (forall op :: BinaryHelper(op).Ok? ==> BinaryHelper(op).value in exported)
    && (forall op :: UnaryHelper(op).Ok? ==> UnaryHelper(op).value in exported)
  }

  /** Every helper in the result was in the input or is exported. */
  lemma {:induction false} HelpersExported(exported: set<string>, e: Expr)
    requires ExportsOperators(exported) && LowerQuality(exported, e).Ok?
    ensures Helpers(LowerQuality(exported, e).value) <= Helpers(e) + exported
    decreases e, 1
  {
    match e {
      case ListOf(items) => AllHelpersExported(exported, items);
      case TupleOf(items) => AllHelpersExported(exported, items);
      case DictOf(entries) => EntryHelpersExported(exported, entries);
      case Binary(l, op, r) =>
        HelpersExported(exported, l);
        HelpersExported(exported, r);
        BinaryHelpers(op, LowerQuality(exported, l).value, LowerQuality(exported, r).value);
      case Unary(op, v) =>
        HelpersExported(exported, v);
        OneHelper(LowerQuality(exported, v).value);
      case Call(callee, args) =>
        AllHelpersExported(exported, args);
        if callee.Field? {
          HelpersExported(exported, callee.object_);
        } else if !callee.Name? {
          HelpersExported(exported, callee);
        }
      case Field(o, _) => HelpersExported(exported, o);
      case ScopedSurface(_, payload) =>
        if e.query {
          OneHelper(Str(Joined(payload.segments, ".")));
        }
      case CurrentField(f) => OneHelper(Str(f));
      case RelationField(r, f) => OneHelper(Str(r + "." + f));
      case _ =>
    }
  }

  lemma OneHelper(e: Expr)
    ensures AllHelpers([e]) == Helpers(e)
  {
    assert [e][1..] == [];
  }

  lemma BinaryHelpers(op: BinaryOp, a: Expr, b: Expr)
    requires BinaryHelper(op).Ok?
    ensures Helpers(HelperCall(BinaryHelper(op).value, [a, b])) == {BinaryHelper(op).value} + (Helpers(a) + Helpers(b))
  {
    TwoHelpers(a, b);
  }

  lemma TwoHelpers(a: Expr, b: Expr)
    ensures AllHelpers([a, b]) == Helpers(a) + Helpers(b)
  {
    assert [a, b][1..] == [b];
    OneHelper(b);
  }

  lemma {:induction false} AllHelpersExported(exported: set<string>, es: seq<Expr>)
    requires ExportsOperators(exported) && LowerQualities(exported, es).Ok?
    ensures AllHelpers(LowerQualities(exported, es).value) <= AllHelpers(es) + exported
    decreases es, 0
  {
    if es != [] {
      HelpersExported(exported, es[0]);
      AllHelpersExported(exported, es[1..]);
      assert LowerQualities(exported, es).value[1..] == LowerQualities(exported, es[1..]).value;
    }
  }

  lemma {:induction false} EntryHelpersExported(exported: set<string>, es: seq<Entry>)
    requires ExportsOperators(exported) && LowerEntries(exported, es).Ok?
    ensures EntryHelpers(LowerEntries(exported, es).value) <= EntryHelpers(es) + exported
    decreases es, 0
  {
    if es != [] {
      EntryExported(exported, es[0]);
      EntryHelpersExported(exported, es[1..]);
      assert LowerEntries(exported, es).value[1..] == LowerEntries(exported, es[1..]).value;
    }
  }

  lemma {:induction false} EntryExported(exported: set<string>, entry: Entry)
    requires ExportsOperators(exported) && LowerEntry(exported, entry).Ok?
    ensures HelpersOfEntry(LowerEntry(exported, entry).value) <= HelpersOfEntry(entry) + exported
    decreases entry, 0
  {
    HelpersExported(exported, entry.key);
    HelpersExported(exported, entry.value);
  }

  // ----- the manifest -----

  /** The package exports `col` and the helper of every operator. */
  lemma ManifestExportsOperators()
    ensures ExportsOperators(Manifest.Exported())
  {
    assert "col" in Manifest.ValueHelpers();
    forall op | BinaryHelper(op).Ok? ensures BinaryHelper(op).value in Manifest.Exported() {
      assert BinaryHelper(op).value in Manifest.OperatorHelpers();
    }
    forall op | UnaryHelper(op).Ok? ensures UnaryHelper(op).value in Manifest.Exported() {
      assert UnaryHelper(op).value in Manifest.OperatorHelpers();
    }
  }

  /** Lowering a quality expression against the manifest introduces exported helpers only. */
  lemma ManifestCovers(e: Expr)
    requires LowerQuality(Manifest.Exported(), e).Ok?
    ensures Helpers(LowerQuality(Manifest.Exported(), e).value) <= Helpers(e) + Manifest.Exported()
    ensures Helpers(e) == {} ==> Helpers(LowerQuality(Manifest.Exported(), e).value) <= Manifest.Exported()
  {
    ManifestExportsOperators();
    HelpersExported(Manifest.Exported(), e);
  }
}
