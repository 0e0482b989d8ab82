/** Lowering a whole query block: the clause loop, its JOIN staging, and the exact shape of what it accepts. */
module Queries {
  import opened Incan
  import opened Wrappers
  import opened Desugar

  datatype Keyword =
    | From | Join | LeftJoin | On | Where | GroupBy | Explode | WindowBy | Select | SelectDistinct | OrderBy | Limit
    | Unknown

  function Spelling(c: Clause): string {
    if c.compound == [] then c.keyword else c.keyword + " " + Joined(c.compound, " ")
  }

  function KeywordOf(c: Clause): Keyword {
    var s := Spelling(c);
    if s == "FROM" then From
    else if s == "JOIN" then Join
    else if s == "LEFT JOIN" then LeftJoin
    else if s == "ON" then On
    else if s == "WHERE" then Where
    else if s == "GROUP BY" then GroupBy
    else if s == "EXPLODE" then Explode
    else if s == "WINDOW BY" then WindowBy
    else if s == "SELECT" then Select
    else if s == "SELECT DISTINCT" then SelectDistinct
    else if s == "ORDER BY" then OrderBy
    else if s == "LIMIT" then Limit
    else Unknown
  }

  lemma SpellingIsWords(c: Clause)
    ensures Spelling(c) == Words(c)
  {
    assert ([c.keyword] + c.compound)[1..] == c.compound;
  }

  /** Which words open which clause. */
  lemma KeywordRead(c: Clause)
    ensures KeywordOf(c) == From <==> Words(c) == "FROM"
    ensures KeywordOf(c) == Join <==> Words(c) == "JOIN"
    ensures KeywordOf(c) == LeftJoin <==> Words(c) == "LEFT JOIN"
    ensures KeywordOf(c) == On <==> Words(c) == "ON"
    ensures KeywordOf(c) == Where <==> Words(c) == "WHERE"
    ensures KeywordOf(c) == GroupBy <==> Words(c) == "GROUP BY"
    ensures KeywordOf(c) == Explode <==> Words(c) == "EXPLODE"
    ensures KeywordOf(c) == WindowBy <==> Words(c) == "WINDOW BY"
    ensures KeywordOf(c) == Select <==> Words(c) == "SELECT"
    ensures KeywordOf(c) == SelectDistinct <==> Words(c) == "SELECT DISTINCT"
    ensures KeywordOf(c) == OrderBy <==> Words(c) == "ORDER BY"
    ensures KeywordOf(c) == Limit <==> Words(c) == "LIMIT"
  {
    SpellingIsWords(c);
    assert |"FROM"| == 4 && |"JOIN"| == 4 && "FROM"[0] == 'F' && "JOIN"[0] == 'J';
    assert |"ON"| == 2 && |"EXPLODE"| == 7 && |"SELECT"| == 6 && |"SELECT DISTINCT"| == 15;
    assert |"WHERE"| == 5 && |"LIMIT"| == 5 && "WHERE"[0] == 'W' && "LIMIT"[0] == 'L';
    assert |"GROUP BY"| == 8 && |"ORDER BY"| == 8 && "GROUP BY"[0] == 'G' && "ORDER BY"[0] == 'O';
    assert |"LEFT JOIN"| == 9 && |"WINDOW BY"| == 9 && "LEFT JOIN"[0] == 'L' && "WINDOW BY"[0] == 'W';
  }

  // ----- DISTINCT spelled inside the first item -----

  const PREFIX := "DISTINCT."

  function StripSegments(segments: seq<string>): Result<(seq<string>, bool)> {
    if segments == [] then Ok((segments, false))
    else if segments[0] == "DISTINCT" then
      if segments[1..] == [] || segments[1] == "" then Err(EmptyDistinct) else Ok((segments[1..], true))
    else if PREFIX <= segments[0] then
      if segments[0][|PREFIX|..] == "" then Err(EmptyDistinct)
      else Ok((segments[0 := segments[0][|PREFIX|..]], true))
    else Ok((segments, false))
  }

  /** The first item's expression without its DISTINCT prefix, and whether there was one. */
  function StripExpr(e: Expr): Result<(Expr, bool)> {
    match e
    case ScopedSurface(query, payload) =>
      if query && payload.LeadingDotPath? then
        var stripped :- StripSegments(payload.segments);
        Ok((ScopedSurface(true, LeadingDotPath(stripped.0)), stripped.1))
      else Ok((e, false))
    case CurrentField(field) =>
      if PREFIX <= field then
        if field[|PREFIX|..] == "" then Err(EmptyDistinct) else Ok((CurrentField(field[|PREFIX|..]), true))
      else Ok((e, false))
    case Name(field) =>
      if PREFIX <= field then
        if field[|PREFIX|..] == "" then Err(EmptyDistinct) else Ok((Name(field[|PREFIX|..]), true))
      else Ok((e, false))
    case RelationField(relation, field) =>
      if relation == "DISTINCT" then if field == "" then Err(EmptyDistinct) else Ok((CurrentField(field), true))
      else Ok((e, false))
    case _ => Ok((e, false))
  }

  function StripDistinct(items: seq<Item>): (r: Result<(seq<Item>, bool)>)
    ensures r.Ok? ==> |r.value.0| == |items|
  {
    if items == [] then Ok((items, false))
    else
      var first :- StripExpr(items[0].expr);
      Ok((items[0 := Item(first.0, items[0].alias)], first.1))
  }

  /** Edits the first item in place. */
  method StripDistinctPrefix(items: array<Item>) returns (r: Result<bool>)
    modifies items
    ensures r.Ok? <==> StripDistinct(old(items[..])).Ok?
    ensures r.Ok? ==> StripDistinct(old(items[..])) == Ok((items[..], r.value))
    ensures r.Err? ==> items[..] == old(items[..])
  {
    if items.Length == 0 {
      return Ok(false);
    }
    var stripped :- StripExpr(items[0].expr);
    items[0] := Item(stripped.0, items[0].alias);
    return Ok(stripped.1);
  }

  predicate IsPath(e: Expr) {
    (e.ScopedSurface? && e.query && e.payload.LeadingDotPath?) || e.CurrentField? || e.Name?
  }

  /** The item asks for DISTINCT: a path whose dotted name starts with the prefix, or a field of a relation of that
      name. */
  predicate AsksDistinct(e: Expr) {
    (IsPath(e) && PREFIX <= DefaultScalarName(e)) || (e.RelationField? && e.relation == "DISTINCT")
  }

  /** The flag is set exactly when the item asks for DISTINCT; the path that stays then has the rest of the name, and an
      unflagged item is untouched. */
  lemma StripDistinctExact(e: Expr)
    requires StripExpr(e).Ok?
    ensures var (stripped, flag) := StripExpr(e).value;
            && (flag <==> AsksDistinct(e))
            && (flag ==> DefaultScalarName(e) == PREFIX + DefaultScalarName(stripped) && IsPath(stripped))
            && (!flag ==> stripped == e)
  {
    if e.ScopedSurface? && e.query && e.payload.LeadingDotPath? {
      StripSegmentsExact(e.payload.segments);
    }
  }

  lemma StripSegmentsExact(segments: seq<string>)
    requires StripSegments(segments).Ok?
    ensures var (stripped, flag) := StripSegments(segments).value;
            && (flag <==> PREFIX <= Joined(segments, "."))
            && (flag ==> Joined(segments, ".") == PREFIX + Joined(stripped, "."))
  {
    var name := Joined(segments, ".");
    if segments != [] && segments[0] != "DISTINCT" && !(PREFIX <= segments[0]) {
      assert segments[0] <= name;
      NoPrefix(segments[0], name);
    } else if segments != [] && segments[0] == "DISTINCT" {
      assert name == "DISTINCT" + "." + Joined(segments[1..], ".");
      assert "DISTINCT" + "." == PREFIX;
    } else if segments != [] {
      var stripped := segments[0 := segments[0][|PREFIX|..]];
      assert stripped[1..] == segments[1..];
      assert segments[0] == PREFIX + stripped[0];
    }
  }

  /** A first segment that is neither DISTINCT nor starts with the prefix keeps the whole path from starting with it. */
  lemma NoPrefix(first: string, name: string)
    requires first <= name && (|name| > |first| ==> name[|first|] == '.')
    requires first != "DISTINCT" && !(PREFIX <= first)
    ensures !(PREFIX <= name)
  {
    assert PREFIX[..8] == "DISTINCT";
    if |first| >= 9 {
      assert name[..9] == first[..9];
    } else if |first| == 8 {
      assert first == name[..8];
    } else {
      assert PREFIX[|first|] != '.';
    }
  }

  // ----- one clause -----

  function RequiredExpression(c: Clause): Result<Expr> {
    if c.body.ExpressionBody? then Ok(c.body.expr) else Err(ClauseShape)
  }

  function ItemsOf(c: Clause): Result<seq<Item>> {
    if c.body.ListBody? then Ok(c.body.items) else Err(ClauseShape)
  }

  function ItemExprs(items: seq<Item>): (r: seq<Expr>)
    ensures |r| == |items|
  {
    seq(|items|, k requires 0 <= k < |items| => items[k].expr)
  }

  function LowerExpressionList(c: Clause): Result<seq<Expr>> {
    match c.body
    case ListBody(items) => LowerColumns(ItemExprs(items))
    case ExpressionBody(e) =>
      var lowered :- LowerColumn(e);
      Ok([lowered])
    case _ => Err(ClauseShape)
  }

  function LowerExplode(c: Clause): Result<Expr> {
    var items :- ItemsOf(c);
    if |items| != 1 then Err(ClauseShape)
    else if items[0].alias.None? then Err(NeedsAlias)
    else
      var lowered :- LowerColumn(items[0].expr);
      Ok(HelperCall("explode", [lowered, Str(items[0].alias.value)]))
  }

  /** One window call per field, in order. */
  function WindowCalls(fields: seq<FieldSpec>): Result<seq<Invocation>> {
    if fields == [] then Ok([])
    else
      var n := |fields| - 1;
      var front :- WindowCalls(fields[..n]);
      if fields[n].defaultValue.None? then Err(WindowNeedsCall)
      else
        var application :- LowerColumn(fields[n].defaultValue.value);
        Ok(front + [Invocation("with_window_column", [Str(fields[n].name), application])])
  }

  function ClauseSelect(c: Clause, explicit: bool): Result<seq<Invocation>> {
    var items :- ItemsOf(c);
    if explicit then SelectCalls(items, true)
    else
      var stripped :- StripDistinct(items);
      SelectCalls(stripped.0, stripped.1)
  }

  /** The calls a clause other than FROM, JOIN and ON adds to the chain. */
  function ClauseCalls(c: Clause): Result<seq<Invocation>> {
    match KeywordOf(c)
    case Where =>
      var e :- RequiredExpression(c);
      var lowered :- LowerColumn(e);
      Ok([Invocation("filter", [lowered])])
    case GroupBy =>
      var lowered :- LowerExpressionList(c);
      Ok([Invocation("group_by", [ListOf(lowered)])])
    case Explode =>
      var generator :- LowerExplode(c);
      Ok([Invocation("generate", [generator])])
    case WindowBy => if c.body.FieldsBody? then WindowCalls(c.body.fields) else Err(ClauseShape)
    case Select => ClauseSelect(c, false)
    case SelectDistinct => ClauseSelect(c, true)
    case OrderBy =>
      var lowered :- LowerExpressionList(c);
      Ok([Invocation("order_by", [ListOf(lowered)])])
    case Limit =>
      var e :- RequiredExpression(c);
      Ok([Invocation("limit", [e])])
    case _ => Ok([])
  }

  datatype PendingJoin = PendingJoin(source: Expr, relationName: string, method_: string)

  function StageJoin(c: Clause): Result<PendingJoin> {
    var source :- RequiredExpression(c);
    if !source.Name? then Err(JoinSourceUnnamed)
    else Ok(PendingJoin(source, source.name, if KeywordOf(c) == LeftJoin then "left_join" else "join"))
  }

  function JoinCall(join: PendingJoin, on: Clause): Result<Invocation> {
    var e :- RequiredExpression(on);
    var lowered :- LowerColumn(e);
    Ok(Invocation(join.method_, [join.source, lowered, Str(join.relationName)]))
  }

  // ----- the loop -----

  datatype State = State(current: Expr, sawSelect: bool, pending: Option<PendingJoin>)

  predicate Selects(k: Keyword) {
    k in {Select, SelectDistinct}
  }

  function Advance(st: State, c: Clause): Result<State> {
    var k := KeywordOf(c);
    if k in {From, Unknown} then Ok(st)
    else if k == On then
      if st.pending.None? then Err(OnWithoutJoin)
      else
        var call :- JoinCall(st.pending.value, c);
        Ok(State(MethodCall(st.current, call.method_, call.args), st.sawSelect, None))
    else if st.pending.Some? then Err(JoinWithoutOn)
    else if k in {Join, LeftJoin} then
      var join :- StageJoin(c);
      Ok(st.(pending := Some(join)))
    else
      var calls :- ClauseCalls(c);
      Ok(State(Chain(st.current, calls), st.sawSelect || Selects(k), None))
  }

  function Finish(st: State): Result<Expr> {
    if st.pending.Some? then Err(JoinWithoutOn)
    else if !st.sawSelect then Err(MissingSelect)
    else Ok(st.current)
  }

  function RunBody(st: State, body: seq<BodyItem>): Result<Expr>
    decreases |body|
  {
    if body == [] then Finish(st)
    else if body[0].OtherItem? then RunBody(st, body[1..])
    else
      var next :- Advance(st, body[0].clause);
      RunBody(next, body[1..])
  }

  predicate IsFrom(item: BodyItem) {
    item.ClauseItem? && KeywordOf(item.clause) == From
  }

  function FirstFrom(body: seq<BodyItem>): Result<Clause> {
    if body == [] then Err(MissingClause)
    else if IsFrom(body[0]) then Ok(body[0].clause)
    else FirstFrom(body[1..])
  }

  function LowerQuery(body: seq<BodyItem>): Result<Expr> {
    var from :- FirstFrom(body);
    var source :- RequiredExpression(from);
    RunBody(State(source, false, None), body)
  }

  method FindFrom(body: seq<BodyItem>) returns (r: Result<Clause>)
    ensures r == FirstFrom(body)
  {
    for i := 0 to |body|
      invariant FirstFrom(body) == FirstFrom(body[i..])
    {
      if IsFrom(body[i]) {
        return Ok(body[i].clause);
      }
    }
    return Err(MissingClause);
  }

  method LowerWindowFields(current: Expr, fields: seq<FieldSpec>) returns (r: Result<Expr>)
    ensures r == OnReceiver(current, WindowCalls(fields))
  {
    var result := current;
    for i := 0 to |fields|
      invariant OnReceiver(current, WindowCalls(fields[..i])) == Ok(result)
    {
      assert fields[..i + 1][..i] == fields[..i];
      if fields[i].defaultValue.None? {
        WindowPrefixFails(fields, i, WindowNeedsCall);
        return Err(WindowNeedsCall);
      }
      var application := LowerColumn(fields[i].defaultValue.value);
      if application.Err? {
        WindowPrefixFails(fields, i, application.error);
        return Err(application.error);
      }
      ghost var front := WindowCalls(fields[..i]).value;
      ghost var last := Invocation("with_window_column", [Str(fields[i].name), application.value]);
      ChainAppend(current, front, [last]);
      ChainOne(result, last);
      result := MethodCall(result, "with_window_column", [Str(fields[i].name), application.value]);
    }
    assert fields[..|fields|] == fields;
    return Ok(result);
  }

  lemma {:induction false} WindowPrefixFails(fields: seq<FieldSpec>, i: nat, error: Error)
    requires i < |fields| && WindowCalls(fields[..i]).Ok?
    requires var f := fields[i].defaultValue;
             if f.None? then error == WindowNeedsCall else LowerColumn(f.value) == Err(error)
    ensures WindowCalls(fields) == Err(error)
    decreases |fields|
  {
    var n := |fields| - 1;
    if i < n {
      assert fields[..n][..i] == fields[..i];
      WindowPrefixFails(fields[..n], i, error);
    } else {
      assert fields[..n] == fields[..i];
    }
  }

  /** The clause loop: `current`, the staged join and the SELECT flag are updated clause by clause. */
  method LowerQueryBlock(body: seq<BodyItem>) returns (r: Result<Expr>)
    ensures r.Ok? == LowerQuery(body).Ok?
    ensures r.Ok? ==> r == LowerQuery(body)
  {
    var from := FindFrom(body);
    if from.Err? {
      return Err(from.error);
    }
    var current :- RequiredExpression(from.value);
    var sawSelect := false;
    var pending: Option<PendingJoin> := None;
    for i := 0 to |body|
      invariant LowerQuery(body) == RunBody(State(current, sawSelect, pending), body[i..])
    {
      if body[i].ClauseItem? {
        var c := body[i].clause;
        var k := KeywordOf(c);
        if k == On {
          if pending.None? {
            return Err(OnWithoutJoin);
          }
          var e :- RequiredExpression(c);
          var lowered :- LowerColumn(e);
          current := MethodCall(current, pending.value.method_,
                                [pending.value.source, lowered, Str(pending.value.relationName)]);
          pending := None;
        } else if k !in {From, Unknown} {
          if pending.Some? {
            return Err(JoinWithoutOn);
          }
          if k in {Join, LeftJoin} {
            var join :- StageJoin(c);
            pending := Some(join);
          } else {
            var next := LowerPlainClause(current, c);
            if next.Err? {
              return Err(next.error);
            }
            current := next.value;
            sawSelect := sawSelect || Selects(k);
          }
        }
      }
    }
    return Finish(State(current, sawSelect, pending));
  }

  method LowerSelectClause(current: Expr, c: Clause, explicit: bool) returns (r: Result<Expr>)
    ensures r.Ok? == ClauseSelect(c, explicit).Ok?
    ensures r.Ok? ==> r.value == Chain(current, ClauseSelect(c, explicit).value)
  {
    var items :- ItemsOf(c);
    if explicit {
      r := LowerSelect(current, items, true);
    } else {
      var edited := new Item[|items|](k requires 0 <= k < |items| => items[k]);
      assert edited[..] == items;
      var distinct :- StripDistinctPrefix(edited);
      r := LowerSelect(current, edited[..], distinct);
    }
  }

  method LowerPlainClause(current: Expr, c: Clause) returns (r: Result<Expr>)
    requires KeywordOf(c) !in {From, Unknown, Join, LeftJoin, On}
    ensures r.Ok? == ClauseCalls(c).Ok?
    ensures r.Ok? ==> r.value == Chain(current, ClauseCalls(c).value)
  {
    var k := KeywordOf(c);
    if k == WindowBy {
      if !c.body.FieldsBody? {
        return Err(ClauseShape);
      }
      r := LowerWindowFields(current, c.body.fields);
    } else if Selects(k) {
      r := LowerSelectClause(current, c, k == SelectDistinct);
    } else {
      var calls :- ClauseCalls(c);
      ChainOne(current, calls[0]);
      return Ok(MethodCall(current, calls[0].method_, calls[0].args));
    }
  }
}
