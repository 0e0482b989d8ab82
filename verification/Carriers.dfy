/** What a relation carrier holds, and the operations query clauses and carrier methods share.

    A carrier is either ordinary rows or rows waiting under grouping keys: `agg` right after `group_by` still reads the
    ungrouped rows, while every other operation sees one row per distinct key. */
module Carriers {
  import opened Names
  import opened Tables
  import Plans

  datatype RawFrame = RawFrame(names: seq<string>, table: Table)

  /** A table with one name per column; a name means its first column. */
  type Frame = f: RawFrame | |f.names| == |f.table.cols| witness RawFrame([], RawTable(0, []))

  datatype RawCarrier =
    | Ordinary(frame: Frame)
    | Grouped(source: Frame, keyNames: seq<string>, keyCols: seq<Column>)
  {
    ghost predicate KeysFit() {
      Grouped? ==>
        |keyNames| == |keyCols| && forall k :: 0 <= k < |keyCols| ==> |keyCols[k]| == source.table.count
    }
  }

  type Carrier = c: RawCarrier | c.KeysFit() witness Ordinary(RawFrame([], RawTable(0, [])))

  // ----- views of a carrier -----

  /** The rows an aggregate reads. */
  function Source(c: Carrier): Frame {
    if c.Ordinary? then c.frame else c.source
  }

  function KeyNames(c: Carrier): seq<string> {
    if c.Ordinary? then [] else c.keyNames
  }

  function KeyCols(c: Carrier): (cols: seq<Column>)
    ensures |cols| == |KeyNames(c)| && forall k :: 0 <= k < |cols| ==> |cols[k]| == Source(c).table.count
  {
    if c.Ordinary? then [] else c.keyCols
  }

  function MembersOf(c: Carrier): (groups: seq<seq<nat>>)
    ensures forall g, k :: 0 <= g < |groups| && 0 <= k < |groups[g]| ==> groups[g][k] < Source(c).table.count
  {
    Groups(KeyCols(c), Source(c).table.count)
  }

  /** One row of key values per group. */
  function Heads(c: Carrier): (f: Frame)
    ensures f.table.count == |MembersOf(c)|
  {
    RawFrame(KeyNames(c), GroupKeys(KeyCols(c), Source(c).table.count))
  }

  /** What every operation other than an aggregate sees. */
  function Flat(c: Carrier): Frame {
    if c.Ordinary? then c.frame else Heads(c)
  }

  function ColumnOf(f: Frame, name: string): (c: Column)
    ensures |c| == f.table.count
  {
    var i := FirstIndex(f.names, name);
    if i >= 0 then f.table.cols[i] else seq(f.table.count, _ => Null)
  }

  // ----- operations -----

  function Filtered(f: Frame, condition: Column): Frame
    requires |condition| == f.table.count
  {
    RawFrame(f.names, Where(f.table, condition))
  }

  function Extended(f: Frame, name: string, col: Column): Frame
    requires |col| == f.table.count
  {
    RawFrame(f.names + [name], WithColumns(f.table, [col]))
  }

  /** Add-or-replace one column. */
  function Bound(f: Frame, name: string, col: Column): (b: Frame)
    requires |col| == f.table.count
    ensures b.table.count == f.table.count
  {
    RawFrame(Insert(f.names, name), Plans.Bind(f.names, f.table, name, col))
  }

  function Exploded(eng: Engine, f: Frame, name: string, values: seq<Row>): Frame
    requires |values| == f.table.count
  {
    var es := Emissions(eng, "explode", 0, values);
    RawFrame(f.names + [name], WithColumns(Gather(f.table, EmittedRows(es)), [EmittedColumn(es, 0)]))
  }

  function OrderedBy(eng: Engine, f: Frame, keys: seq<Row>): Frame {
    RawFrame(f.names, Sorted(eng, f.table, keys))
  }

  function Limited(f: Frame, n: nat): Frame {
    RawFrame(f.names, Take(f.table, n))
  }

  function Joined(l: Frame, r: Frame, relation: string, hits: seq<seq<bool>>, outer: bool): Frame
    requires |hits| == l.table.count && forall i :: 0 <= i < |hits| ==> |hits[i]| == r.table.count
  {
    RawFrame(l.names + Plans.Qualify(r.names, relation), JoinTables(l.table, r.table, hits, outer))
  }

  /** A window column: the engine answers per row, knowing every row's window arguments. */
  function Windowed(eng: Engine, f: Frame, name: string, values: seq<Row>): Frame
    requires |values| == f.table.count
  {
    var shape := WindowShape("", 1, 0, 0, "");
    Extended(f, name, seq(f.table.count, j requires 0 <= j < f.table.count => eng.window(shape, values, j)))
  }

  function PickRows(rows: seq<Row>, picks: seq<nat>): (r: seq<Row>)
    requires forall k :: 0 <= k < |picks| ==> picks[k] < |rows|
    ensures |r| == |picks|
  {
    seq(|picks|, k requires 0 <= k < |picks| => rows[picks[k]])
  }

  /** One aggregate value per group, from the arguments of every source row. */
  function Aggregated(eng: Engine, c: Carrier, symbol: string, distinct: bool, args: seq<Row>): (col: Column)
    requires |args| == Source(c).table.count
    ensures |col| == |MembersOf(c)|
  {
    var groups := MembersOf(c);
    seq(|groups|, g requires 0 <= g < |groups| =>
      eng.aggregate(symbol, distinct, PickRows(args, groups[g]), seq(|groups[g]|, _ => [])))
  }

  // ----- duplicate elimination -----

  predicate FirstSeen(t: Table, j: nat)
    requires j < t.count
  {
    forall i :: 0 <= i < j ==> RowAt(t, i) != RowAt(t, j)
  }

  function FirstFlags(t: Table): (flags: seq<bool>)
    ensures |flags| == t.count && forall j :: 0 <= j < t.count ==> flags[j] == FirstSeen(t, j)
  {
    seq(t.count, j requires 0 <= j < t.count => FirstSeen(t, j))
  }

  /** Keep the first of equal rows. */
  function Dedupe(t: Table): (r: Table)
    ensures |r.cols| == |t.cols|
  {
    Gather(t, Kept(FirstFlags(t)))
  }

  predicate Shows(t: Table, row: Row) {
    exists k :: 0 <= k < t.count && RowAt(t, k) == row
  }

  lemma GatherRow(t: Table, picks: seq<nat>, k: nat)
    requires forall i :: 0 <= i < |picks| ==> picks[i] < t.count
    requires k < |picks|
    ensures RowAt(Gather(t, picks), k) == RowAt(t, picks[k])
  {
  }

  /** What remains has no two equal rows and still shows every row of the input. */
  lemma DedupeExact(t: Table)
    ensures forall k, l :: 0 <= k < l < Dedupe(t).count ==> RowAt(Dedupe(t), k) != RowAt(Dedupe(t), l)
    ensures forall j :: 0 <= j < t.count ==> Shows(Dedupe(t), RowAt(t, j))
  {
    var picks := Kept(FirstFlags(t));
    forall k, l | 0 <= k < l < |picks| ensures RowAt(Dedupe(t), k) != RowAt(Dedupe(t), l) {
      GatherRow(t, picks, k);
      GatherRow(t, picks, l);
      assert FirstSeen(t, picks[l]);
    }
    forall j | 0 <= j < t.count ensures Shows(Dedupe(t), RowAt(t, j)) {
      var first := Earliest(t, j);
      assert FirstFlags(t)[first];
      assert first in picks;
      var k :| 0 <= k < |picks| && picks[k] == first;
      GatherRow(t, picks, k);
    }
  }

  lemma {:induction false} Earliest(t: Table, j: nat) returns (i: nat)
    requires j < t.count
    ensures i <= j && RowAt(t, i) == RowAt(t, j) && FirstSeen(t, i)
    decreases j
  {
    if FirstSeen(t, j) {
      i := j;
    } else {
      var h :| 0 <= h < j && RowAt(t, h) == RowAt(t, j);
      i := Earliest(t, h);
    }
  }
}
