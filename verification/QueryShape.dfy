/** Exactly which query blocks lower, and to which call chain. */
module QueryShape {
  import opened Incan
  import opened Wrappers
  import opened Desugar
  import opened Queries

  /** A recognised clause list is a sequence of JOIN..ON pairs and single clauses. */
  datatype Step = JoinOn(join: Clause, on: Clause) | Single(clause: Clause)

  predicate OpensFrom(item: BodyItem) {
    item.ClauseItem? && Words(item.clause) == "FROM"
  }

  predicate OpensJoin(c: Clause) {
    Words(c) == "JOIN" || Words(c) == "LEFT JOIN"
  }

  predicate OpensOn(c: Clause) {
    Words(c) == "ON"
  }

  predicate OpensSelect(c: Clause) {
    Words(c) == "SELECT" || Words(c) == "SELECT DISTINCT"
  }

  /** A clause the chain is built from: anything recognised but FROM. */
  predicate Acts(c: Clause) {
    || OpensJoin(c) || OpensOn(c) || OpensSelect(c)
    || Words(c) == "WHERE" || Words(c) == "GROUP BY" || Words(c) == "EXPLODE" || Words(c) == "WINDOW BY"
    || Words(c) == "ORDER BY" || Words(c) == "LIMIT"
  }

  lemma ClauseRead(c: Clause)
    ensures IsFrom(ClauseItem(c)) <==> OpensFrom(ClauseItem(c))
    ensures OpensJoin(c) <==> KeywordOf(c) in {Join, LeftJoin}
    ensures OpensOn(c) <==> KeywordOf(c) == On
    ensures OpensSelect(c) <==> Selects(KeywordOf(c))
    ensures Acts(c) <==> KeywordOf(c) !in {From, Unknown}
  {
    KeywordRead(c);
  }

  /** The first clause spelled FROM. */
  function FromClause(body: seq<BodyItem>): Option<Clause> {
    if body == [] then None
    else if OpensFrom(body[0]) then Some(body[0].clause)
    else FromClause(body[1..])
  }

  lemma {:induction false} FromFound(body: seq<BodyItem>)
    ensures FirstFrom(body) == if FromClause(body).Some? then Ok(FromClause(body).value) else Err(MissingClause)
  {
    if body != [] {
      if body[0].ClauseItem? {
        ClauseRead(body[0].clause);
      }
      FromFound(body[1..]);
    }
  }

  function Recognised(body: seq<BodyItem>): (cs: seq<Clause>)
    ensures forall k :: 0 <= k < |cs| ==> Acts(cs[k])
  {
    if body == [] then []
    else if body[0].OtherItem? || !Acts(body[0].clause) then Recognised(body[1..])
    else [body[0].clause] + Recognised(body[1..])
  }

  function Parse(cs: seq<Clause>): Option<seq<Step>>
    decreases |cs|
  {
    if cs == [] then Some([])
    else if OpensOn(cs[0]) then None
    else if OpensJoin(cs[0]) then
      if |cs| < 2 || !OpensOn(cs[1]) then None
      else
        match Parse(cs[2..])
        case None => None
        case Some(rest) => Some([JoinOn(cs[0], cs[1])] + rest)
    else
      match Parse(cs[1..])
      case None => None
      case Some(rest) => Some([Single(cs[0])] + rest)
  }

  function Expand(step: Step): Result<seq<Invocation>> {
    match step
    case Single(c) => ClauseCalls(c)
    case JoinOn(join, on) =>
      var staged :- StageJoin(join);
      var call :- JoinCall(staged, on);
      Ok([call])
  }

  function ExpandAll(steps: seq<Step>): Result<seq<Invocation>> {
    if steps == [] then Ok([])
    else
      var first :- Expand(steps[0]);
      var rest :- ExpandAll(steps[1..]);
      Ok(first + rest)
  }

  predicate SelectStep(step: Step) {
    step.Single? && OpensSelect(step.clause)
  }

  predicate HasSelect(steps: seq<Step>) {
    exists k :: 0 <= k < |steps| && SelectStep(steps[k])
  }

  function RunClauses(st: State, cs: seq<Clause>): Result<Expr>
    decreases |cs|
  {
    if cs == [] then Finish(st)
    else
      var next :- Advance(st, cs[0]);
      RunClauses(next, cs[1..])
  }

  lemma {:induction false} RunRecognised(st: State, body: seq<BodyItem>)
    ensures RunBody(st, body) == RunClauses(st, Recognised(body))
    decreases |body|
  {
    if body == [] {
    } else if body[0].OtherItem? || !Acts(body[0].clause) {
      if body[0].ClauseItem? {
        ClauseRead(body[0].clause);
      }
      RunRecognised(st, body[1..]);
    } else {
      ClauseRead(body[0].clause);
      var next := Advance(st, body[0].clause);
      if next.Ok? {
        RunRecognised(next.value, body[1..]);
      }
      assert Recognised(body)[1..] == Recognised(body[1..]);
    }
  }

  lemma HasSelectCons(step: Step, rest: seq<Step>)
    ensures HasSelect([step] + rest) <==> SelectStep(step) || HasSelect(rest)
  {
    var all := [step] + rest;
    assert all[0] == step && forall k :: 0 <= k < |rest| ==> rest[k] == all[k + 1];
    if HasSelect(rest) {
      var k :| 0 <= k < |rest| && SelectStep(rest[k]);
      assert SelectStep(all[k + 1]);
    }
  }

  /** What a run from a state with no staged join accepts and produces. */
  predicate Produces(st: State, cs: seq<Clause>, r: Result<Expr>) {
    var steps := Parse(cs);
    && (r.Ok? <==> steps.Some? && ExpandAll(steps.value).Ok? && (st.sawSelect || HasSelect(steps.value)))
    && (r.Ok? ==> r.value == Chain(st.current, ExpandAll(steps.value).value))
  }

  lemma {:induction false} RunProduces(st: State, cs: seq<Clause>)
    requires st.pending.None?
    requires forall k :: 0 <= k < |cs| ==> Acts(cs[k])
    ensures Produces(st, cs, RunClauses(st, cs))
    decreases |cs|
  {
    if cs == [] {
    } else if OpensOn(cs[0]) {
      ClauseRead(cs[0]);
    } else if OpensJoin(cs[0]) {
      JoinProduces(st, cs);
    } else {
      SingleProduces(st, cs);
    }
  }

  lemma {:induction false} SingleProduces(st: State, cs: seq<Clause>)
    requires st.pending.None? && cs != [] && !OpensOn(cs[0]) && !OpensJoin(cs[0])
    requires forall k :: 0 <= k < |cs| ==> Acts(cs[k])
    ensures Produces(st, cs, RunClauses(st, cs))
    decreases |cs|, 0
  {
    ClauseRead(cs[0]);
    var next := Advance(st, cs[0]);
    var tail := Parse(cs[1..]);
    if next.Ok? {
      RunProduces(next.value, cs[1..]);
      if tail.Some? {
        ConsProduces(st, next.value, Single(cs[0]), ClauseCalls(cs[0]).value, tail.value);
      }
    } else if tail.Some? {
      assert ([Single(cs[0])] + tail.value)[0] == Single(cs[0]);
    }
  }

  lemma ConsProduces(st: State, next: State, step: Step, calls: seq<Invocation>, rest: seq<Step>)
    requires Expand(step) == Ok(calls) && next.current == Chain(st.current, calls)
    ensures ExpandAll([step] + rest).Ok? <==> ExpandAll(rest).Ok?
    ensures ExpandAll(rest).Ok? ==>
      Chain(st.current, ExpandAll([step] + rest).value) == Chain(next.current, ExpandAll(rest).value)
    ensures HasSelect([step] + rest) <==> SelectStep(step) || HasSelect(rest)
  {
    assert ([step] + rest)[1..] == rest;
    HasSelectCons(step, rest);
    if ExpandAll(rest).Ok? {
      ChainAppend(st.current, calls, ExpandAll(rest).value);
    }
  }

  /** A JOIN and the ON behind it advance a run exactly as the pair expands. */
  lemma PairAdvances(st: State, join: Clause, on: Clause)
    requires st.pending.None? && OpensJoin(join) && OpensOn(on)
    ensures Advance(st, join).Ok? && Advance(Advance(st, join).value, on).Ok? <==> Expand(JoinOn(join, on)).Ok?
    ensures Expand(JoinOn(join, on)).Ok? ==>
      Advance(Advance(st, join).value, on)
        == Ok(State(Chain(st.current, Expand(JoinOn(join, on)).value), st.sawSelect, None))
  {
    ClauseRead(join);
    ClauseRead(on);
    if Expand(JoinOn(join, on)).Ok? {
      ChainOne(st.current, Expand(JoinOn(join, on)).value[0]);
    }
  }

  lemma JoinWaits(st: State, join: Clause, c: Clause)
    requires st.pending.None? && OpensJoin(join) && !OpensOn(c) && Acts(c)
    ensures Advance(st, join).Ok? ==> Advance(Advance(st, join).value, c).Err?
  {
    ClauseRead(join);
    ClauseRead(c);
  }

  lemma JoinPends(st: State, join: Clause)
    requires st.pending.None? && OpensJoin(join)
    ensures Advance(st, join).Ok? ==> Advance(st, join).value.pending.Some?
  {
    ClauseRead(join);
  }

  lemma {:induction false} JoinProduces(st: State, cs: seq<Clause>)
    requires st.pending.None? && cs != [] && OpensJoin(cs[0])
    requires forall k :: 0 <= k < |cs| ==> Acts(cs[k])
    ensures Produces(st, cs, RunClauses(st, cs))
    decreases |cs|, 1
  {
    JoinPends(st, cs[0]);
    if |cs| >= 2 {
      assert cs[1..][0] == cs[1] && cs[1..][1..] == cs[2..];
      if OpensOn(cs[1]) {
        PairAdvances(st, cs[0], cs[1]);
        PairProduces(st, cs);
      } else {
        JoinWaits(st, cs[0], cs[1]);
      }
    }
  }

  lemma {:induction false} PairProduces(st: State, cs: seq<Clause>)
    requires st.pending.None? && |cs| >= 2 && OpensJoin(cs[0]) && OpensOn(cs[1])
    requires forall k :: 0 <= k < |cs| ==> Acts(cs[k])
    ensures Produces(st, cs, RunClauses(st, cs))
    decreases |cs|, 0
  {
    assert cs[1..][0] == cs[1] && cs[1..][1..] == cs[2..];
    PairAdvances(st, cs[0], cs[1]);
    var step, tail := JoinOn(cs[0], cs[1]), Parse(cs[2..]);
    if Expand(step).Ok? {
      var next := State(Chain(st.current, Expand(step).value), st.sawSelect, None);
      RunProduces(next, cs[2..]);
      if tail.Some? {
        ConsProduces(st, next, step, Expand(step).value, tail.value);
      }
    } else if tail.Some? {
      assert ([step] + tail.value)[0] == step;
    }
  }

  /** Main result. A block lowers exactly when its first FROM holds an expression, its recognised clauses pair every
      JOIN with an ON right behind it, one of them selects, and every clause expands. The chain is then the FROM
      expression followed by each clause's calls, in order. */
  lemma AcceptedExactly(body: seq<BodyItem>)
    ensures LowerQuery(body).Ok? <==>
      && FromClause(body).Some? && FromClause(body).value.body.ExpressionBody?
      && Parse(Recognised(body)).Some?
      && HasSelect(Parse(Recognised(body)).value)
      && ExpandAll(Parse(Recognised(body)).value).Ok?
    ensures LowerQuery(body).Ok? ==>
      LowerQuery(body).value
        == Chain(FromClause(body).value.body.expr, ExpandAll(Parse(Recognised(body)).value).value)
  {
    var from := FirstFrom(body);
    FromFound(body);
    if from.Ok? && from.value.body.ExpressionBody? {
      var st := State(from.value.body.expr, false, None);
      RunRecognised(st, body);
      RunProduces(st, Recognised(body));
    }
  }

  // ----- which methods a clause adds -----

  /** The carrier methods of some calls, in order. */
  function Methods(calls: seq<Invocation>): (names: seq<string>)
    ensures |names| == |calls|
  {
    seq(|calls|, k requires 0 <= k < |calls| => calls[k].method_)
  }

  /** A call of one of the six aggregates. */
  predicate Measures(e: Expr) {
    || (e.Call? && e.callee.Name? && e.callee.name in ["sum", "count", "count_distinct", "avg", "min", "max"])
    || (e.ScopedSymbolCall? && e.symbol in ["sum", "count", "count_distinct", "avg", "min", "max"])
  }

  /** A list with an aggregate collects its measures before it selects; DISTINCT groups by the outputs at the end. */
  function SelectMethods(items: seq<Item>, distinct: bool): seq<string> {
    (if exists k :: 0 <= k < |items| && Measures(items[k].expr) then ["agg"] else [])
    + ["select"] + if distinct then ["group_by"] else []
  }

  lemma SelectAdds(items: seq<Item>, distinct: bool)
    requires SelectCalls(items, distinct).Ok?
    ensures Methods(SelectCalls(items, distinct).value) == SelectMethods(items, distinct)
  {
    var calls := SelectCalls(items, distinct).value;
    assert forall k :: 0 <= k < |items| ==> (Measures(items[k].expr) <==> IsAggregate(items[k].expr));
    assert |calls| == (if AnyAggregate(items) then 2 else 1) + if distinct then 1 else 0;
  }

  /** The same for a clause that spells SELECT: a DISTINCT prefix of its first item counts, and is taken off. */
  lemma SelectClauseAdds(c: Clause)
    requires OpensSelect(c) && ClauseCalls(c).Ok?
    ensures c.body.ListBody?
    ensures Words(c) == "SELECT DISTINCT" ==> Methods(ClauseCalls(c).value) == SelectMethods(c.body.items, true)
    ensures Words(c) == "SELECT" ==>
      StripDistinct(c.body.items).Ok?
      && var (items, distinct) := StripDistinct(c.body.items).value;
         Methods(ClauseCalls(c).value) == SelectMethods(items, distinct)
  {
    KeywordRead(c);
    var explicit := KeywordOf(c) == SelectDistinct;
    assert ClauseCalls(c) == ClauseSelect(c, explicit);
    if explicit {
      SelectAdds(c.body.items, true);
    } else {
      SelectAdds(StripDistinct(c.body.items).value.0, StripDistinct(c.body.items).value.1);
    }
  }

  lemma {:induction false} WindowsAdd(fields: seq<FieldSpec>)
    requires WindowCalls(fields).Ok?
    ensures |WindowCalls(fields).value| == |fields|
    ensures forall k :: 0 <= k < |fields| ==> WindowCalls(fields).value[k].method_ == "with_window_column"
    decreases |fields|
  {
    if fields != [] {
      WindowsAdd(fields[..|fields| - 1]);
    }
  }

  lemma WindowClauseAdds(c: Clause)
    requires Words(c) == "WINDOW BY" && ClauseCalls(c).Ok?
    ensures c.body.FieldsBody? && |ClauseCalls(c).value| == |c.body.fields|
    ensures forall k :: 0 <= k < |c.body.fields| ==> ClauseCalls(c).value[k].method_ == "with_window_column"
  {
    KeywordRead(c);
    assert ClauseCalls(c) == WindowCalls(c.body.fields);
    WindowsAdd(c.body.fields);
  }

  /** Main result: the one method behind each of the other spellings. */
  lemma ClauseAdds(c: Clause)
    requires ClauseCalls(c).Ok?
    ensures Words(c) == "WHERE" ==> Methods(ClauseCalls(c).value) == ["filter"]
    ensures Words(c) == "GROUP BY" ==> Methods(ClauseCalls(c).value) == ["group_by"]
    ensures Words(c) == "EXPLODE" ==> Methods(ClauseCalls(c).value) == ["generate"]
    ensures Words(c) == "ORDER BY" ==> Methods(ClauseCalls(c).value) == ["order_by"]
    ensures Words(c) == "LIMIT" ==> Methods(ClauseCalls(c).value) == ["limit"]
  {
    KeywordRead(c);
  }

  lemma JoinAdds(join: Clause, on: Clause)
    requires OpensJoin(join) && OpensOn(on) && Expand(JoinOn(join, on)).Ok?
    ensures Methods(Expand(JoinOn(join, on)).value) == [if Words(join) == "LEFT JOIN" then "left_join" else "join"]
  {
    KeywordRead(join);
  }

  /** FROM, and whatever has no such spelling, adds nothing to the chain. */
  lemma IdleAdds(st: State, c: Clause)
    ensures !Acts(c) ==> Advance(st, c) == Ok(st)
  {
    ClauseRead(c);
  }
}
