/** Columnar tables and the row-structure operators every relational node is made of.

    A node's meaning always splits in two: which input rows (or groups of rows) make up each output row, and which
    value each output cell takes from them. The operators below compute the first part; cells follow by gathering. */
module Tables {

  datatype Value =
    | Null
    | IntValue(i: int)
    | FloatValue(f: real)
    | StrValue(s: string)
    | BoolValue(b: bool)
    | OpaqueValue(id: int)

  type Row = seq<Value>
  type Column = seq<Value>

  datatype RawTable = RawTable(count: nat, cols: seq<Column>) {
    ghost predicate Rectangular() {
      forall c :: 0 <= c < |cols| ==> |cols[c]| == count
    }
  }

  type Table = t: RawTable | t.Rectangular() witness RawTable(0, [])

  /** The operations IncQL leaves to the backend. They are arbitrary functions here: every theorem holds for all. */
  datatype Engine = Engine(
    /** A registered scalar function, by name and options. */
    apply: (string, seq<(string, string)>, Row) -> Value,
    /** An aggregate over the argument rows of one group, given the ordering-key rows. */
    aggregate: (string, bool, seq<Row>, seq<Row>) -> Value,
    /** The tuples a generator emits for one input row. */
    generate: (string, nat, Row) -> seq<Row>,
    /** A window function at one row position, given all argument/partition/sort rows. */
    window: (WindowShape, seq<Row>, nat) -> Value,
    /** The order rows take under their sort keys. */
    order: seq<Row> -> seq<nat>)

  datatype WindowShape = WindowShape(function_: string, arguments: nat, partitions: nat, sorts: nat, frame: string)

  /** Predicates keep a row only on a definite true. */
  predicate Holds(v: Value) {
    v == BoolValue(true)
  }

  // ----- row access -----

  function RowAt(t: Table, j: nat): (r: Row)
    requires j < t.count
    ensures |r| == |t.cols|
  {
    seq(|t.cols|, c requires 0 <= c < |t.cols| => t.cols[c][j])
  }

  /** The rows formed by a list of equally long columns. */
  function Rows(cols: seq<Column>, count: nat): (rows: seq<Row>)
    requires forall c :: 0 <= c < |cols| ==> |cols[c]| == count
    ensures |rows| == count
  {
    seq(count, j requires 0 <= j < count => seq(|cols|, c requires 0 <= c < |cols| => cols[c][j]))
  }

  // ----- selecting and ordering rows -----

  function Gather(t: Table, picks: seq<nat>): (g: Table)
    requires forall k :: 0 <= k < |picks| ==> picks[k] < t.count
    ensures g.count == |picks| && |g.cols| == |t.cols|
  {
    RawTable(|picks|, seq(|t.cols|, c requires 0 <= c < |t.cols| => Pick(t.cols[c], picks)))
  }

  function Pick(col: Column, picks: seq<nat>): (r: Column)
    requires forall k :: 0 <= k < |picks| ==> picks[k] < |col|
    ensures |r| == |picks|
  {
    seq(|picks|, k requires 0 <= k < |picks| => col[picks[k]])
  }

  /** Positions of the set flags, ascending. */
  function Kept(flags: seq<bool>): (picks: seq<nat>)
    ensures forall k :: 0 <= k < |picks| ==> picks[k] < |flags| && flags[picks[k]]
    ensures forall k, l :: 0 <= k < l < |picks| ==> picks[k] < picks[l]
    ensures forall j {:trigger j in picks} :: 0 <= j < |flags| && flags[j] ==> j in picks
  {
    if flags == [] then []
    else
      var n := |flags| - 1;
      var rest := Kept(flags[..n]);
      if flags[n] then rest + [n] else rest
  }

  function Flags(col: Column): seq<bool> {
    seq(|col|, j requires 0 <= j < |col| => Holds(col[j]))
  }

  function Iota(n: nat): (s: seq<nat>)
    ensures |s| == n && forall k :: 0 <= k < n ==> s[k] == k
  {
    seq(n, k => k)
  }

  function Where(t: Table, condition: Column): (r: Table)
    requires |condition| == t.count
    ensures |r.cols| == |t.cols|
  {
    Gather(t, Kept(Flags(condition)))
  }

  function Take(t: Table, n: nat): (r: Table)
    ensures |r.cols| == |t.cols| && r.count == if n < t.count then n else t.count
  {
    Gather(t, Iota(if n < t.count then n else t.count))
  }

  predicate IsPermutation(picks: seq<nat>, n: nat) {
    && |picks| == n
    && (forall k :: 0 <= k < |picks| ==> picks[k] < n)
    && (forall k, l :: 0 <= k < l < |picks| ==> picks[k] != picks[l])
  }

  /** Reorder by the engine's answer; an answer that is no permutation is ignored. */
  function Sorted(eng: Engine, t: Table, keys: seq<Row>): (r: Table)
    ensures |r.cols| == |t.cols| && r.count == t.count
  {
    var picks := eng.order(keys);
    if IsPermutation(picks, t.count) then Gather(t, picks) else t
  }

  // ----- joining -----

  datatype Pair = Pair(left: nat, right: MaybeRow)
  datatype MaybeRow = NoRow | RightRow(index: nat)

  function Matches(i: nat, rights: seq<nat>): (ps: seq<Pair>)
    ensures |ps| == |rights|
  {
    seq(|rights|, k requires 0 <= k < |rights| => Pair(i, RightRow(rights[k])))
  }

  predicate Within(p: Pair, hits: seq<seq<bool>>) {
    p.left < |hits| && (p.right.RightRow? ==> p.right.index < |hits[p.left]|)
  }

  /** Nested-loop pairing: left rows in order, each with its matching right rows; `outer` pads unmatched left rows. */
  function Pairs(hits: seq<seq<bool>>, outer: bool): (ps: seq<Pair>)
    ensures forall k :: 0 <= k < |ps| ==> Within(ps[k], hits)
  {
    if hits == [] then []
    else
      var n := |hits| - 1;
      var rights := Kept(hits[n]);
      var rest := Pairs(hits[..n], outer);
      rest + if rights == [] && outer then [Pair(n, NoRow)] else Matches(n, rights)
  }

  /** A pair is joined exactly when it is a hit; a left row without any stands alone exactly in an outer join. */
  lemma {:induction false} PairsExactly(hits: seq<seq<bool>>, outer: bool, i: nat, j: nat)
    ensures Pair(i, RightRow(j)) in Pairs(hits, outer) <==> i < |hits| && j < |hits[i]| && hits[i][j]
    ensures Pair(i, NoRow) in Pairs(hits, outer) <==> outer && i < |hits| && true !in hits[i]
    decreases |hits|
  {
    if hits != [] {
      var n := |hits| - 1;
      PairsExactly(hits[..n], outer, i, j);
      LastPairs(hits[n], outer, n, i, j);
    }
  }

  lemma LastPairs(row: seq<bool>, outer: bool, n: nat, i: nat, j: nat)
    ensures var rights := Kept(row);
            var ps := if rights == [] && outer then [Pair(n, NoRow)] else Matches(n, rights);
            && (Pair(i, RightRow(j)) in ps <==> i == n && j < |row| && row[j])
            && (Pair(i, NoRow) in ps <==> i == n && outer && true !in row)
  {
    KeptFlag(row, j);
    NoneKept(row);
    MatchesExactly(n, Kept(row), i, j);
  }

  lemma KeptFlag(flags: seq<bool>, j: nat)
    ensures j in Kept(flags) <==> j < |flags| && flags[j]
  {
  }

  lemma {:induction false} NoneKept(flags: seq<bool>)
    ensures Kept(flags) == [] <==> true !in flags
  {
    if Kept(flags) != [] {
      assert flags[Kept(flags)[0]];
    }
    forall j: nat | j < |flags| && flags[j] ensures Kept(flags) != [] {
      KeptFlag(flags, j);
    }
  }

  lemma MatchesExactly(n: nat, rights: seq<nat>, i: nat, j: nat)
    ensures Pair(i, RightRow(j)) in Matches(n, rights) <==> i == n && j in rights
    ensures Pair(i, NoRow) !in Matches(n, rights)
  {
    if j in rights {
      var k :| 0 <= k < |rights| && rights[k] == j;
      assert Matches(n, rights)[k] == Pair(n, RightRow(j));
    }
  }

  /** Left rows in order, each with its hits in order, nothing twice. */
  predicate Before(p: Pair, q: Pair) {
    p.left < q.left || (p.left == q.left && p.right.RightRow? && q.right.RightRow? && p.right.index < q.right.index)
  }

  lemma {:induction false} PairsInOrder(hits: seq<seq<bool>>, outer: bool)
    ensures forall k, l :: 0 <= k < l < |Pairs(hits, outer)| ==> Before(Pairs(hits, outer)[k], Pairs(hits, outer)[l])
    decreases |hits|
  {
    if hits != [] {
      PairsInOrder(hits[..|hits| - 1], outer);
    }
  }

  function PickPadded(col: Column, ps: seq<Pair>): (r: Column)
    requires forall k :: 0 <= k < |ps| && ps[k].right.RightRow? ==> ps[k].right.index < |col|
    ensures |r| == |ps|
  {
    seq(|ps|, k requires 0 <= k < |ps| => if ps[k].right.RightRow? then col[ps[k].right.index] else Null)
  }

  function LeftPicks(ps: seq<Pair>): seq<nat> {
    seq(|ps|, k requires 0 <= k < |ps| => ps[k].left)
  }

  function PadColumns(t: Table, ps: seq<Pair>): (cs: seq<Column>)
    requires forall k :: 0 <= k < |ps| && ps[k].right.RightRow? ==> ps[k].right.index < t.count
    ensures |cs| == |t.cols| && forall c :: 0 <= c < |cs| ==> |cs[c]| == |ps|
  {
    seq(|t.cols|, c requires 0 <= c < |t.cols| => PickPadded(t.cols[c], ps))
  }

  /** `hits[i][j]` says whether left row i meets right row j. */
  function JoinTables(l: Table, r: Table, hits: seq<seq<bool>>, outer: bool): (t: Table)
    requires |hits| == l.count && forall i :: 0 <= i < |hits| ==> |hits[i]| == r.count
    ensures |t.cols| == |l.cols| + |r.cols|
    ensures t.count == |Pairs(hits, outer)|
  {
    var ps := Pairs(hits, outer);
    WithColumns(Gather(l, LeftPicks(ps)), PadColumns(r, ps))
  }

  /** The right half of a joined row. */
  function RightHalf(r: Table, p: Pair): (row: Row)
    requires p.right.RightRow? ==> p.right.index < r.count
    ensures |row| == |r.cols|
  {
    if p.right.RightRow? then RowAt(r, p.right.index) else seq(|r.cols|, _ => Null)
  }

  lemma PaddedCell(r: Table, ps: seq<Pair>, k: nat, c: nat)
    requires forall k :: 0 <= k < |ps| && ps[k].right.RightRow? ==> ps[k].right.index < r.count
    requires k < |ps| && c < |r.cols|
    ensures PadColumns(r, ps)[c][k] == RightHalf(r, ps[k])[c]
  {
    assert PadColumns(r, ps)[c] == PickPadded(r.cols[c], ps);
  }

  lemma LeftCell(l: Table, ps: seq<Pair>, k: nat, c: nat)
    requires forall k :: 0 <= k < |ps| ==> ps[k].left < l.count
    requires k < |ps| && c < |l.cols|
    ensures Gather(l, LeftPicks(ps)).cols[c][k] == l.cols[c][ps[k].left]
  {
    assert Gather(l, LeftPicks(ps)).cols[c] == Pick(l.cols[c], LeftPicks(ps));
  }

  lemma SideBySide(l: Table, r: Table, ps: seq<Pair>, k: nat)
    requires forall k :: 0 <= k < |ps| ==> ps[k].left < l.count
    requires forall k :: 0 <= k < |ps| && ps[k].right.RightRow? ==> ps[k].right.index < r.count
    requires k < |ps|
    ensures RowAt(WithColumns(Gather(l, LeftPicks(ps)), PadColumns(r, ps)), k)
         == RowAt(l, ps[k].left) + RightHalf(r, ps[k])
  {
    var joined := RowAt(WithColumns(Gather(l, LeftPicks(ps)), PadColumns(r, ps)), k);
    var row := RowAt(l, ps[k].left) + RightHalf(r, ps[k]);
    forall c | 0 <= c < |joined| ensures joined[c] == row[c] {
      if c < |l.cols| {
        LeftCell(l, ps, k, c);
      } else {
        PaddedCell(r, ps, k, c - |l.cols|);
      }
    }
  }

  /** A joined row is its left row beside its right row, or beside nulls. */
  lemma JoinedRow(l: Table, r: Table, hits: seq<seq<bool>>, outer: bool, k: nat)
    requires |hits| == l.count && forall i :: 0 <= i < |hits| ==> |hits[i]| == r.count
    requires k < |Pairs(hits, outer)|
    ensures var p := Pairs(hits, outer)[k];
            && p.left < l.count && (p.right.RightRow? ==> p.right.index < r.count)
            && RowAt(JoinTables(l, r, hits, outer), k) == RowAt(l, p.left) + RightHalf(r, p)
  {
    assert forall k :: 0 <= k < |Pairs(hits, outer)| ==> Within(Pairs(hits, outer)[k], hits);
    SideBySide(l, r, Pairs(hits, outer), k);
  }

  // ----- grouping -----

  /** No earlier row has the same key. */
  predicate FirstAt(keys: seq<Row>, j: nat)
    requires j < |keys|
  {
    keys[j] !in keys[..j]
  }

  /** First row of each distinct key, ascending. */
  function Representatives(keys: seq<Row>): (reps: seq<nat>)
    ensures forall g :: 0 <= g < |reps| ==> reps[g] < |keys| && FirstAt(keys, reps[g])
    ensures forall g, h :: 0 <= g < h < |reps| ==> reps[g] < reps[h]
    ensures forall j {:trigger FirstAt(keys, j)} :: 0 <= j < |keys| && FirstAt(keys, j) ==> j in reps
  {
    var first := seq(|keys|, j requires 0 <= j < |keys| => FirstAt(keys, j));
    assert forall j :: 0 <= j < |keys| ==> first[j] == FirstAt(keys, j);
    Kept(first)
  }

  function Members(keys: seq<Row>, rep: nat): (m: seq<nat>)
    requires rep < |keys|
    ensures forall k :: 0 <= k < |m| ==> m[k] < |keys| && keys[m[k]] == keys[rep]
  {
    Kept(seq(|keys|, j requires 0 <= j < |keys| => keys[j] == keys[rep]))
  }

  /** Member rows of every group; without grouping columns all rows form one group, even when there are none. */
  function Groups(keyCols: seq<Column>, count: nat): (groups: seq<seq<nat>>)
    requires forall c :: 0 <= c < |keyCols| ==> |keyCols[c]| == count
    ensures forall g, k :: 0 <= g < |groups| && 0 <= k < |groups[g]| ==> groups[g][k] < count
    ensures |groups| == if keyCols == [] then 1 else |Representatives(Rows(keyCols, count))|
  {
    if keyCols == [] then [Iota(count)]
    else
      var keys := Rows(keyCols, count);
      var reps := Representatives(keys);
      seq(|reps|, g requires 0 <= g < |reps| => Members(keys, reps[g]))
  }

  /** One row per group: its key values. */
  function GroupKeys(keyCols: seq<Column>, count: nat): (t: Table)
    requires forall c :: 0 <= c < |keyCols| ==> |keyCols[c]| == count
    ensures |t.cols| == |keyCols|
    ensures t.count == |Groups(keyCols, count)|
  {
    if keyCols == [] then RawTable(1, [])
    else
      var reps := Representatives(Rows(keyCols, count));
      RawTable(|reps|, seq(|keyCols|, c requires 0 <= c < |keyCols| => Pick(keyCols[c], reps)))
  }

  // ----- generating -----

  datatype Emitted = Emitted(row: nat, tuple: Row)

  /** Every generated tuple with the input row it came from, rows in order. */
  function Emissions(eng: Engine, symbol: string, rowCount: nat, args: seq<Row>): (es: seq<Emitted>)
    ensures forall k :: 0 <= k < |es| ==> es[k].row < |args|
  {
    if args == [] then []
    else
      var n := |args| - 1;
      var tuples := eng.generate(symbol, rowCount, args[n]);
      Emissions(eng, symbol, rowCount, args[..n])
      + seq(|tuples|, k requires 0 <= k < |tuples| => Emitted(n, tuples[k]))
  }

  function EmittedRows(es: seq<Emitted>): seq<nat> {
    seq(|es|, k requires 0 <= k < |es| => es[k].row)
  }

  /** Generated column `c`; a tuple too short for it leaves a null. */
  function EmittedColumn(es: seq<Emitted>, c: nat): (r: Column)
    ensures |r| == |es|
  {
    seq(|es|, k requires 0 <= k < |es| => if c < |es[k].tuple| then es[k].tuple[c] else Null)
  }

  // ----- columns -----

  function WithColumns(t: Table, more: seq<Column>): (r: Table)
    requires forall c :: 0 <= c < |more| ==> |more[c]| == t.count
    ensures r.count == t.count && r.cols == t.cols + more
  {
    RawTable(t.count, t.cols + more)
  }
}
