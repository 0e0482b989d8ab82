/** Generator construction (src/generator_builders.incn): the row-major `stack` and the output-column check. */
module Generators {
  import opened Names
  import opened Plans
  import opened Wrappers

  // ----- stack -----

  predicate StackShape(rowCount: int, valueCount: nat, columns: nat) {
    rowCount > 0 && columns > 0 && valueCount == rowCount * columns
  }

  function Concat<T>(rows: seq<seq<T>>): seq<T> {
    if rows == [] then [] else Concat(rows[..|rows| - 1]) + rows[|rows| - 1]
  }

  lemma {:induction false} ConcatLength<T>(rows: seq<seq<T>>, columns: nat)
    requires forall r :: 0 <= r < |rows| ==> |rows[r]| == columns
    ensures |Concat(rows)| == |rows| * columns
    decreases |rows|
  {
    if rows != [] {
      ConcatLength(rows[..|rows| - 1], columns);
    }
  }

  lemma RowInRange(row: nat, rowCount: nat, column: nat, columns: nat)
    requires row < rowCount && column < columns
    ensures row * columns + column < rowCount * columns
  {
    assert row * columns + column < (row + 1) * columns <= rowCount * columns;
  }

  /** The rows of an accepted shape: each has one value per column, every index is in range, and the rows in order are
      exactly the values. */
  method StackRows<T>(rowCount: int, values: seq<T>, columns: nat) returns (rows: Option<seq<seq<T>>>)
    ensures rows.Some? <==> StackShape(rowCount, |values|, columns)
    ensures rows.Some? ==>
      |rows.value| == rowCount
      && (forall r :: 0 <= r < rowCount ==> |rows.value[r]| == columns)
      && Concat(rows.value) == values
  {
    if rowCount <= 0 || columns == 0 || |values| != rowCount * columns {
      return None;
    }
    var built: seq<seq<T>> := [];
    for row := 0 to rowCount
      invariant |built| == row
      invariant forall r :: 0 <= r < row ==> |built[r]| == columns
      invariant row * columns <= |values|
      invariant Concat(built) == values[..row * columns]
    {
      var start := row * columns;
      var cells: seq<T> := [];
      RowInRange(row, rowCount, columns - 1, columns);
      for column := 0 to columns
        invariant cells == values[start..start + column]
      {
        RowInRange(row, rowCount, column, columns);
        cells := cells + [values[start + column]];
      }
      assert (built + [cells])[..row] == built;
      assert values[..start] + values[start..start + columns] == values[..start + columns];
      assert (row + 1) * columns == start + columns;
      built := built + [cells];
    }
    assert values[..|values|] == values;
    return Some(built);
  }

  /** Reading the value list back needs no other information: equal-width rows are determined by their concatenation. */
  lemma {:induction false} StackLossless<T>(a: seq<seq<T>>, b: seq<seq<T>>, columns: nat)
    requires columns > 0 && |a| == |b| && Concat(a) == Concat(b)
    requires forall r :: 0 <= r < |a| ==> |a[r]| == columns
    requires forall r :: 0 <= r < |b| ==> |b[r]| == columns
    ensures a == b
    decreases |a|
  {
    if a != [] {
      var n := |a| - 1;
      ConcatLength(a[..n], columns);
      ConcatLength(b[..n], columns);
      assert Concat(a)[..n * columns] == Concat(a[..n]) && Concat(b)[..n * columns] == Concat(b[..n]);
      assert Concat(a)[n * columns..] == a[n] && Concat(b)[n * columns..] == b[n];
      StackLossless(a[..n], b[..n], columns);
      assert a == a[..n] + [a[n]] && b == b[..n] + [b[n]];
    }
  }

  /** Row r, column c of the stacked rows is value r * columns + c. */
  lemma {:induction false} StackCell<T>(rows: seq<seq<T>>, columns: nat, r: nat, c: nat)
    requires r < |rows| && c < columns
    requires forall k :: 0 <= k < |rows| ==> |rows[k]| == columns
    ensures r * columns + c < |Concat(rows)| && rows[r][c] == Concat(rows)[r * columns + c]
    decreases |rows|
  {
    var n := |rows| - 1;
    ConcatLength(rows[..n], columns);
    ConcatLength(rows, columns);
    RowInRange(r, |rows|, c, columns);
    if r < n {
      StackCell(rows[..n], columns, r, c);
    }
  }

  // ----- output columns -----

  predicate AliasesValid(outputs: seq<string>) {
    outputs != [] && Distinct(outputs) && "" !in outputs
  }

  method ValidateOutputColumns(outputs: seq<string>) returns (ok: bool)
    ensures ok <==> AliasesValid(outputs)
  {
    if |outputs| == 0 {
      return false;
    }
    var seen: seq<string> := [];
    for i := 0 to |outputs|
      invariant seen == outputs[..i] && Distinct(seen) && "" !in seen
    {
      if |outputs[i]| == 0 {
        return false;
      }
      if outputs[i] in seen {
        return false;
      }
      seen := seen + [outputs[i]];
    }
    assert outputs[..|outputs|] == outputs;
    return true;
  }

  /** The input columns (if kept) followed by the generated ones; None is the reported conflict. */
  method GeneratorOutputColumns(input: seq<string>, g: Generator) returns (columns: Option<seq<string>>)
    ensures columns.Some? <==> FreshOutputs(if g.preservesInput then input else [], g.outputColumns)
    ensures columns.Some? ==> columns.value == (if g.preservesInput then input else []) + g.outputColumns
    ensures columns.Some? && Distinct(input) ==> Distinct(columns.value)
  {
    var kept := if g.preservesInput then input else [];
    var output := kept;
    for i := 0 to |g.outputColumns|
      invariant output == kept + g.outputColumns[..i]
      invariant FreshOutputs(kept, g.outputColumns[..i])
    {
      if g.outputColumns[i] in output {
        ConflictRefused(kept, g.outputColumns, i);
        return None;
      }
      FreshExtends(kept, g.outputColumns, i);
      assert g.outputColumns[..i + 1] == g.outputColumns[..i] + [g.outputColumns[i]];
      output := output + [g.outputColumns[i]];
    }
    assert g.outputColumns[..|g.outputColumns|] == g.outputColumns;
    FreshDistinct(kept, g.outputColumns);
    return Some(output);
  }

  lemma FreshDistinct(kept: seq<string>, outputs: seq<string>)
    requires FreshOutputs(kept, outputs)
    ensures Distinct(kept) ==> Distinct(kept + outputs)
  {
    var all := kept + outputs;
    if Distinct(kept) {
      forall i, j | 0 <= i < j < |all| ensures all[i] != all[j] {
        if |kept| <= i {
          assert outputs[..j - |kept|][i - |kept|] == all[i];
        }
      }
    }
  }

  lemma ConflictRefused(kept: seq<string>, outputs: seq<string>, i: nat)
    requires i < |outputs| && outputs[i] in kept + outputs[..i]
    ensures !FreshOutputs(kept, outputs)
  {
  }

  lemma FreshExtends(kept: seq<string>, outputs: seq<string>, i: nat)
    requires i < |outputs| && FreshOutputs(kept, outputs[..i]) && outputs[i] !in kept + outputs[..i]
    ensures FreshOutputs(kept, outputs[..i + 1])
  {
    var longer := outputs[..i + 1];
    forall k | 0 <= k < |longer| ensures longer[k] !in kept && longer[k] !in longer[..k] {
      assert longer[..k] == outputs[..k];
      if k < i {
        assert outputs[..i][k] == outputs[k] && outputs[..i][..k] == outputs[..k];
      }
    }
  }
}
