/** How the rendered rows of utils/rfc_catalog.py read as a table: cells hold what the record says, and stand under
    their headings. */
module CatalogTable {
  import opened CatalogBlock

  // ----- one cell -----

  /** A pipe ends a cell unless a backslash stands right before it. */
  predicate Bare(text: string, k: nat)
    requires k < |text|
  {
    text[k] == '|' && (k == 0 || text[k - 1] != '\\')
  }

  predicate NoBare(text: string) {
    forall k :: 0 <= k < |text| ==> !Bare(text, k)
  }

  predicate NoneBare(cells: seq<string>) {
    forall k :: 0 <= k < |cells| ==> NoBare(cells[k])
  }

  lemma NoneBareLast(cells: seq<string>)
    requires cells != []
    ensures NoneBare(cells) <==> NoneBare(cells[..|cells| - 1]) && NoBare(cells[|cells| - 1])
  {
    var front := cells[..|cells| - 1];
    assert forall k :: 0 <= k < |front| ==> front[k] == cells[k];
  }

  /** Line breaks read as spaces. */
  function Spaced(value: string): (s: string)
    ensures |s| == |value|
  {
    seq(|value|, k requires 0 <= k < |value| => if value[k] == '\n' then ' ' else value[k])
  }

  /** A cell as it is read back: a backslash right before a pipe is dropped. */
  function Read(cell: string): string {
    if cell == "" then ""
    else if |cell| > 1 && cell[0] == '\\' && cell[1] == '|' then ['|'] + Read(cell[2..])
    else [cell[0]] + Read(cell[1..])
  }

  /** Main result: an escaped cell reads back as the value with its line breaks as spaces, and nothing in it can end
      the cell or the line. */
  lemma {:induction false} EscapedReads(value: string)
    ensures Read(EscapeCell(value)) == Spaced(value)
    ensures NoBare(EscapeCell(value)) && '\n' !in EscapeCell(value)
  {
    if value != "" {
      var rest, head := EscapeCell(value[1..]), [if value[0] == '\n' then ' ' else value[0]];
      EscapedReads(value[1..]);
      NeverStartsBare(value[1..]);
      assert Spaced(value) == head + Spaced(value[1..]);
      if value[0] == '|' {
        var cell := "\\|" + rest;
        assert cell[2..] == rest && cell[0] == '\\' && cell[1] == '|';
        forall k | 0 <= k < |cell| ensures !Bare(cell, k) {
          if k >= 2 {
            assert cell[k] == rest[k - 2] && (k > 2 ==> cell[k - 1] == rest[k - 3]) && !Bare(rest, k - 2);
          }
        }
      } else {
        var cell := head + rest;
        assert cell[1..] == rest;
        forall k | 0 <= k < |cell| ensures !Bare(cell, k) {
          if k >= 1 {
            assert cell[k] == rest[k - 1] && (k > 1 ==> cell[k - 1] == rest[k - 2]) && !Bare(rest, k - 1);
          }
        }
      }
    }
  }

  lemma NeverStartsBare(value: string)
    ensures EscapeCell(value) != "" ==> EscapeCell(value)[0] != '|'
  {
  }

  // ----- one row -----

  /** The texts between the bare pipes of a line. */
  function Fields(line: string): (fields: seq<string>)
    ensures |fields| > 0
  {
    if line == "" then [""]
    else
      var n := |line| - 1;
      var front := Fields(line[..n]);
      if Bare(line, n) then front + [""]
      else front[|front| - 1 := front[|front| - 1] + [line[n]]]
  }

  lemma NotBareFront(text: string)
    requires text != "" && NoBare(text)
    ensures NoBare(text[..|text| - 1])
  {
    var front := text[..|text| - 1];
    forall k | 0 <= k < |front| ensures !Bare(front, k) {
      assert !Bare(text, k);
    }
  }

  lemma NotBareBehind(line: string, text: string)
    requires text != "" && NoBare(text)
    ensures !Bare(line + text, |line + text| - 1)
  {
    assert !Bare(text, |text| - 1);
  }

  /** A text that does not split goes into the last field. */
  lemma {:induction false} FieldsExtend(line: string, text: string)
    requires NoBare(text)
    ensures Fields(line + text) == Fields(line)[|Fields(line)| - 1 := Fields(line)[|Fields(line)| - 1] + text]
    decreases |text|
  {
    var fields := Fields(line);
    if text == "" {
      assert line + text == line && fields[|fields| - 1] + text == fields[|fields| - 1];
    } else {
      var n := |text| - 1;
      var all := line + text;
      NotBareFront(text);
      FieldsExtend(line, text[..n]);
      NotBareBehind(line, text);
      assert all[..|all| - 1] == line + text[..n] && all[|all| - 1] == text[n];
      var last := fields[|fields| - 1];
      assert last + text == last + text[..n] + [text[n]];
      assert fields[|fields| - 1 := last + text[..n]][|fields| - 1 := last + text] == fields[|fields| - 1 := last + text];
    }
  }

  /** A pipe behind anything but a backslash opens a new field. */
  lemma FieldsOpen(line: string)
    requires line == "" || line[|line| - 1] != '\\'
    ensures Fields(line + "|") == Fields(line) + [""]
  {
    var all := line + "|";
    assert all[..|all| - 1] == line && Bare(all, |all| - 1);
  }

  /** One more cell is one more field. */
  lemma CellAdds(front: string, cell: string)
    requires NoBare(cell) && (front == "" || front[|front| - 1] != '\\')
    ensures Fields(front + "| " + cell + " ") == Fields(front) + [" " + cell + " "]
  {
    var padded, fields := " " + cell + " ", Fields(front + "|");
    FieldsOpen(front);
    PaddedNotBare(cell);
    FieldsExtend(front + "|", padded);
    assert front + "| " + cell + " " == front + "|" + padded;
    assert fields[|fields| - 1] == "" && "" + padded == padded;
    assert fields[|fields| - 1 := padded] == Fields(front) + [padded];
  }

  lemma CellsEnd(cells: seq<string>)
    requires cells != []
    ensures Cells(cells)[|Cells(cells)| - 1] == ' '
  {
  }

  /** Cells between spaces and pipes are the fields of the line, behind one empty field. */
  lemma {:induction false} CellFields(cells: seq<string>)
    requires NoneBare(cells)
    ensures |Fields(Cells(cells))| == |cells| + 1
    ensures forall k :: 0 <= k < |cells| ==> Fields(Cells(cells))[k + 1] == " " + cells[k] + " "
    decreases |cells|
  {
    if cells != [] {
      var n := |cells| - 1;
      NoneBareLast(cells);
      CellFields(cells[..n]);
      if n > 0 {
        CellsEnd(cells[..n]);
      }
      CellAdds(Cells(cells[..n]), cells[n]);
    }
  }

  lemma PaddedNotBare(cell: string)
    requires NoBare(cell)
    ensures NoBare(" " + cell + " ")
  {
    var text := " " + cell + " ";
    forall k | 0 <= k < |text| ensures !Bare(text, k) {
      if 1 <= k <= |cell| {
        assert text[k] == cell[k - 1] && (k > 1 ==> text[k - 1] == cell[k - 2]) && !Bare(cell, k - 1);
      }
    }
  }

  lemma {:induction false} LineFields(cells: seq<string>)
    requires NoneBare(cells)
    ensures |Fields(Cells(cells) + "|")| == |cells| + 2
    ensures forall k :: 0 <= k < |cells| ==> Fields(Cells(cells) + "|")[k + 1] == " " + cells[k] + " "
  {
    CellFields(cells);
    if cells != [] {
      CellsEnd(cells);
    }
    FieldsOpen(Cells(cells));
  }

  function Titles(withTags: bool): seq<string> {
    ["RFC", "Status"] + (if withTags then ["Tags"] else []) + ["Title"]
  }

  lemma TaggedHeading()
    ensures Heading(true)[0] == Cells(["RFC", "Status", "Tags", "Title"]) + "|"
  {
    assert ["RFC", "Status", "Tags", "Title"][..3] == ["RFC", "Status", "Tags"];
    assert ["RFC", "Status", "Tags"][..2] == ["RFC", "Status"];
    assert ["RFC", "Status"][..1] == ["RFC"] && ["RFC"][..0] == [];
    assert Cells(["RFC"]) == "| RFC ";
    assert Cells(["RFC", "Status"]) == "| RFC | Status ";
    assert Cells(["RFC", "Status", "Tags"]) == "| RFC | Status | Tags ";
  }

  lemma PlainHeading()
    ensures Heading(false)[0] == Cells(["RFC", "Status", "Title"]) + "|"
  {
    assert ["RFC", "Status", "Title"][..2] == ["RFC", "Status"];
    assert ["RFC", "Status"][..1] == ["RFC"] && ["RFC"][..0] == [];
    assert Cells(["RFC"]) == "| RFC ";
    assert Cells(["RFC", "Status"]) == "| RFC | Status ";
  }

  lemma HeadingIsCells(withTags: bool)
    ensures Heading(withTags)[0] == Cells(Titles(withTags)) + "|"
  {
    if withTags {
      TaggedHeading();
      assert Titles(true) == ["RFC", "Status", "Tags", "Title"];
    } else {
      PlainHeading();
      assert Titles(false) == ["RFC", "Status", "Title"];
    }
  }

  /** What the record shows under a title. */
  function Shown(r: Record, title: string): string {
    if title == "RFC" then Link(r)
    else if title == "Status" then EscapeCell(r.status)
    else if title == "Tags" then EscapeCell(Join(r.tags, ", "))
    else EscapeCell(r.title)
  }

  lemma TitlesNotBare(withTags: bool)
    ensures NoneBare(Titles(withTags))
  {
  }

  /** The link is not escaped, so a bare pipe in it would end its cell. */
  lemma RowCellsNotBare(r: Record, withTags: bool)
    requires NoBare(Link(r))
    ensures NoneBare(RowCells(r, withTags))
  {
    EscapedReads(r.status);
    EscapedReads(Join(r.tags, ", "));
    EscapedReads(r.title);
  }

  lemma RowCellsTitled(r: Record, withTags: bool)
    ensures |RowCells(r, withTags)| == |Titles(withTags)|
    ensures forall k :: 0 <= k < |Titles(withTags)| ==> RowCells(r, withTags)[k] == Shown(r, Titles(withTags)[k])
  {
    assert "RFC"[0] == 'R' && "Status"[0] == 'S' && |"Tags"| == 4 && |"Title"| == 5;
  }

  /** Main result: a row has one field per heading, and under each heading stands what the record shows for it. */
  lemma RowUnderHeading(r: Record, withTags: bool)
    requires NoBare(Link(r))
    ensures var row, heading, titles := Fields(Row(r, withTags)), Fields(Heading(withTags)[0]), Titles(withTags);
            && |row| == |heading| == |titles| + 2
            && forall k :: 0 <= k < |titles| ==>
                 heading[k + 1] == " " + titles[k] + " " && row[k + 1] == " " + Shown(r, titles[k]) + " "
  {
    HeadingIsCells(withTags);
    TitlesNotBare(withTags);
    LineFields(Titles(withTags));
    RowCellsNotBare(r, withTags);
    RowCellsTitled(r, withTags);
    LineFields(RowCells(r, withTags));
  }

  // ----- when the columns line up -----

  lemma {:induction false} FieldsAdd(line: string, text: string)
    requires text == "" || text[0] != '|'
    ensures |Fields(line + text)| == |Fields(line)| + |Fields(text)| - 1
    decreases |text|
  {
    if text == "" {
      assert line + text == line;
    } else {
      var n, all := |text| - 1, line + text;
      FieldsAdd(line, text[..n]);
      assert all[..|all| - 1] == line + text[..n];
      assert Bare(all, |all| - 1) <==> Bare(text, n);
    }
  }

  lemma {:induction false} OneField(text: string)
    ensures |Fields(text)| == 1 <==> NoBare(text)
    decreases |text|
  {
    if text != "" {
      var n := |text| - 1;
      OneField(text[..n]);
      assert forall k :: 0 <= k < n ==> (Bare(text, k) <==> Bare(text[..n], k));
    }
  }

  lemma CellCount(front: string, cell: string)
    requires front == "" || front[|front| - 1] != '\\'
    ensures |Fields(front + "| " + cell + " ")| == |Fields(front)| + |Fields(cell)|
  {
    var padded := " " + cell + " ";
    FieldsOpen(front);
    assert front + "| " + cell + " " == front + "|" + padded;
    FieldsAdd(front + "|", padded);
    PaddedCount(cell);
  }

  lemma PaddedCount(cell: string)
    ensures |Fields(" " + cell + " ")| == |Fields(cell)|
  {
    assert Fields(" ") == [" "] by { assert " "[..0] == "" && "" + [' '] == " "; }
    FieldsAdd(" " + cell, " ");
    if cell != "" && cell[0] == '|' {
      assert cell == "|" + cell[1..];
      PipeCount(cell[1..]);
    } else {
      FieldsAdd(" ", cell);
    }
  }

  lemma {:induction false} PipeCount(rest: string)
    ensures |Fields(" " + ("|" + rest))| == |Fields("|" + rest)|
    decreases |rest|
  {
    var line, shifted := "|" + rest, " " + ("|" + rest);
    if rest == "" {
      FieldsOpen(" ");
      FieldsOpen("");
      assert line == "" + "|" && shifted == " " + "|";
      assert Fields(" ") == [" "] by { assert " "[..0] == "" && "" + [' '] == " "; }
    } else {
      var n := |rest| - 1;
      PipeCount(rest[..n]);
      assert line[..|line| - 1] == "|" + rest[..n] && shifted[..|shifted| - 1] == " " + ("|" + rest[..n]);
      assert Bare(line, |line| - 1) <==> Bare(shifted, |shifted| - 1);
    }
  }

  lemma {:induction false} CellsCount(cells: seq<string>)
    ensures |Fields(Cells(cells))| >= |cells| + 1
    ensures |Fields(Cells(cells))| == |cells| + 1 <==> NoneBare(cells)
    decreases |cells|
  {
    if cells != [] {
      var n := |cells| - 1;
      CellsCount(cells[..n]);
      if n > 0 {
        CellsEnd(cells[..n]);
      }
      CellCount(Cells(cells[..n]), cells[n]);
      OneField(cells[n]);
      NoneBareLast(cells);
    }
  }

  /** The columns of a row line up with the headings exactly when the link, which is not escaped, has no bare pipe. */
  lemma LinesUpExactly(r: Record, withTags: bool)
    ensures |Fields(Row(r, withTags))| == |Fields(Heading(withTags)[0])| <==> NoBare(Link(r))
  {
    var cells := RowCells(r, withTags);
    HeadingIsCells(withTags);
    TitlesNotBare(withTags);
    LineFields(Titles(withTags));
    RowCellsTitled(r, withTags);
    CellsCount(cells);
    CellsEnd(cells);
    FieldsOpen(Cells(cells));
    if NoBare(Link(r)) {
      RowCellsNotBare(r, withTags);
    } else {
      assert cells[0] == Link(r);
    }
  }
}
