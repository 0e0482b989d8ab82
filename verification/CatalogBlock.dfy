/** The block utils/rfc_catalog.py renders into the marked region of the RFC index, and when it can be rewritten. The
    JSON payload is a parameter, and the records come in the order of their ids. */
module CatalogBlock {
  import opened CatalogMarkers

  datatype Record = Record(id: string, path: string, status: string, tags: seq<string>, title: string)

  /** A pipe or a line break in a cell would end it. */
  function EscapeCell(value: string): string {
    if value == "" then ""
    else (if value[0] == '|' then "\\|" else if value[0] == '\n' then " " else [value[0]]) + EscapeCell(value[1..])
  }

  /** Angle brackets and ampersands of the payload become JSON escapes. */
  function EscapeTags(payload: string): (r: string)
    ensures '<' !in r
  {
    if payload == "" then ""
    else
      (match payload[0]
       case '<' => "\\u003c"
       case '>' => "\\u003e"
       case '&' => "\\u0026"
       case c => [c]) + EscapeTags(payload[1..])
  }

  function Join(parts: seq<string>, separator: string): string {
    if parts == [] then ""
    else if |parts| == 1 then parts[0]
    else parts[0] + separator + Join(parts[1..], separator)
  }

  // ----- rendering -----

  function Link(r: Record): string {
    "[" + r.id + "](" + r.path + ")"
  }

  function RowCells(r: Record, withTags: bool): seq<string> {
    [Link(r), EscapeCell(r.status)] + (if withTags then [EscapeCell(Join(r.tags, ", "))] else []) +
    [EscapeCell(r.title)]
  }

  /** Every cell stands behind a pipe, between two spaces. */
  function Cells(cells: seq<string>): string {
    if cells == [] then "" else Cells(cells[..|cells| - 1]) + "| " + cells[|cells| - 1] + " "
  }

  function Row(r: Record, withTags: bool): string {
    Cells(RowCells(r, withTags)) + "|"
  }

  function Rows(records: seq<Record>, withTags: bool): (rows: seq<string>)
    ensures |rows| == |records|
  {
    seq(|records|, k requires 0 <= k < |records| => Row(records[k], withTags))
  }

  predicate AnyTags(records: seq<Record>) {
    exists r :: r in records && r.tags != []
  }

  const FALLBACK := "<div" + (" class=\"pp-rfc-fallback\"" + " data-rfc-fallback markdown=\"1\">")

  function Opening(payload: string): seq<string> {
    [BEGIN, "<template data-rfc-catalog>", EscapeTags(payload), "</template>", "", FALLBACK, ""]
  }

  function Heading(withTags: bool): seq<string> {
    if withTags then ["| RFC | Status | Tags | Title |", "| ---: | --- | --- | --- |"]
    else ["| RFC | Status | Title |", "| ---: | --- | --- |"]
  }

  function Block(payload: string, records: seq<Record>): string {
    var withTags := AnyTags(records);
    Join(Opening(payload) + Heading(withTags) + Rows(records, withTags) + ["", "</div>", END], "\n")
  }

  /** The rendering loop: the fixed lines, and one table row per record. */
  method RenderIndexBlock(payload: string, records: seq<Record>) returns (block: string)
    ensures block == Block(payload, records)
  {
    var withTags := AnyTags(records);
    var lines := Opening(payload) + Heading(withTags);
    ghost var start := lines;
    for i := 0 to |records|
      invariant lines == start + Rows(records[..i], withTags)
    {
      lines := lines + [Row(records[i], withTags)];
      assert Rows(records[..i + 1], withTags) == Rows(records[..i], withTags) + [Row(records[i], withTags)];
    }
    assert records[..|records|] == records;
    block := Join(lines + ["", "</div>", END], "\n");
  }

  // ----- where a marker can be -----

  /** The characters markers are made of. */
  predicate MarkerChar(c: char) {
    'A' <= c <= 'Z' || c == ' ' || c == '!' || c == '-' || c == '<' || c == '>'
  }

  /** What the two markers have in common. */
  predicate Spelled(m: string) {
    |m| > 4 && m[0] == '<' && m[1] == '!' && m[|m| - 1] == '>' && forall k :: 0 <= k < |m| ==> MarkerChar(m[k])
  }

  lemma MarkersSpelled()
    ensures Spelled(BEGIN) && Spelled(END)
  {
  }

  lemma NotInMarker(m: string, c: char)
    requires Spelled(m) && !MarkerChar(c)
    ensures c !in m
  {
  }

  lemma WithinMarker(text: string, m: string, k: int, p: int)
    requires OccursAt(text, m, k) && k <= p < k + |m|
    ensures text[p] in m
  {
    assert text[k..k + |m|][p - k] == text[p];
  }

  lemma OccursApart(a: string, c: char, b: string, m: string, k: int)
    requires c !in m && m != []
    ensures OccursAt(a + [c] + b, m, k) <==> OccursAt(a, m, k) || OccursAt(b, m, k - |a| - 1)
  {
    var text := a + [c] + b;
    if OccursAt(text, m, k) {
      if k <= |a| < k + |m| {
        WithinMarker(text, m, k, |a|);
      } else if k < |a| {
        assert text[k..k + |m|] == a[k..k + |m|];
      } else {
        assert text[k..k + |m|] == b[k - |a| - 1..k - |a| - 1 + |m|];
      }
    }
    if OccursAt(a, m, k) {
      assert text[k..k + |m|] == a[k..k + |m|];
    }
    if OccursAt(b, m, k - |a| - 1) {
      assert text[k..k + |m|] == b[k - |a| - 1..k - |a| - 1 + |m|];
    }
  }

  /** A marker sits on one side of a character no marker contains. */
  lemma NoneApart(a: string, c: char, b: string, m: string)
    requires Spelled(m) && !MarkerChar(c)
    ensures NoneFrom(a + [c] + b, m, 0) <==> NoneFrom(a, m, 0) && NoneFrom(b, m, 0)
  {
    NotInMarker(m, c);
    var text := a + [c] + b;
    forall k ensures OccursAt(text, m, k) <==> OccursAt(a, m, k) || OccursAt(b, m, k - |a| - 1) {
      OccursApart(a, c, b, m, k);
    }
    if NoneFrom(text, m, 0) {
      forall k | 0 <= k ensures !OccursAt(b, m, k) {
        assert !OccursAt(text, m, k + |a| + 1);
      }
    }
  }

  /** A space in front or behind belongs to no marker. */
  lemma NonePadded(a: string, m: string)
    requires Spelled(m)
    ensures NoneFrom(" " + a + " ", m, 0) <==> NoneFrom(a, m, 0)
  {
    var text := " " + a + " ";
    forall k ensures OccursAt(text, m, k) <==> OccursAt(a, m, k - 1) {
      PaddedAt(a, m, k);
    }
    if NoneFrom(text, m, 0) {
      forall k | 0 <= k ensures !OccursAt(a, m, k) {
        assert !OccursAt(text, m, k + 1);
      }
    }
  }

  lemma PaddedAt(a: string, m: string, k: int)
    requires Spelled(m)
    ensures OccursAt(" " + a + " ", m, k) <==> OccursAt(a, m, k - 1)
  {
    var text := " " + a + " ";
    if OccursAt(text, m, k) {
      var found := text[k..k + |m|];
      assert text[k] == found[0] && text[k + |m| - 1] == found[|m| - 1];
      assert found == a[k - 1..k - 1 + |m|];
    }
    if OccursAt(a, m, k - 1) {
      assert text[k..k + |m|] == a[k - 1..k - 1 + |m|];
    }
  }

  predicate NeverOpens(text: string) {
    forall k :: 0 <= k < |text| - 1 && text[k] == '<' ==> text[k + 1] != '!'
  }

  /** A text that never has an exclamation mark behind an opening bracket holds no marker. */
  lemma NoneOpens(text: string, m: string)
    requires Spelled(m)
    requires NeverOpens(text)
    ensures NoneFrom(text, m, 0)
  {
    forall k | 0 <= k ensures !OccursAt(text, m, k) {
      if OccursAt(text, m, k) {
        MarkerOpens(text, m, k);
      }
    }
  }

  lemma MarkerOpens(text: string, m: string, k: int)
    requires Spelled(m) && OccursAt(text, m, k)
    ensures 0 <= k < |text| - 1 && text[k] == '<' && text[k + 1] == '!'
  {
    var found := text[k..k + |m|];
    assert text[k] == found[0] && text[k + 1] == found[1];
  }

  // ----- the rendered block -----

  /** Neither marker occurs in the text. */
  ghost predicate Clean(text: string) {
    NoneFrom(text, BEGIN, 0) && NoneFrom(text, END, 0)
  }

  lemma CleanApart(a: string, c: char, b: string)
    requires !MarkerChar(c)
    ensures Clean(a + [c] + b) <==> Clean(a) && Clean(b)
  {
    MarkersSpelled();
    NoneApart(a, c, b, BEGIN);
    NoneApart(a, c, b, END);
  }

  lemma CleanPadded(a: string)
    ensures Clean(" " + a + " ") <==> Clean(a)
  {
    MarkersSpelled();
    NonePadded(a, BEGIN);
    NonePadded(a, END);
  }

  lemma CleanWhenNeverOpens(text: string)
    requires NeverOpens(text)
    ensures Clean(text)
  {
    MarkersSpelled();
    NoneOpens(text, BEGIN);
    NoneOpens(text, END);
  }

  ghost predicate AllClean(lines: seq<string>) {
    forall line :: line in lines ==> Clean(line)
  }

  lemma {:induction false} CleanJoined(lines: seq<string>)
    ensures Clean(Join(lines, "\n")) <==> AllClean(lines)
  {
    if lines == [] {
      CleanWhenNeverOpens("");
    } else if |lines| > 1 {
      CleanJoined(lines[1..]);
      CleanApart(lines[0], '\n', Join(lines[1..], "\n"));
      assert lines == [lines[0]] + lines[1..];
      assert Join(lines, "\n") == lines[0] + ['\n'] + Join(lines[1..], "\n");
    }
  }

  /** A cell behind a pipe, up to the next pipe. */
  lemma CleanCell(front: string, cell: string)
    ensures Clean(front + "| " + cell + " ") <==> Clean(front) && Clean(cell)
  {
    assert front + "| " + cell + " " == front + ['|'] + (" " + cell + " ");
    CleanApart(front, '|', " " + cell + " ");
    CleanPadded(cell);
  }

  lemma {:induction false} CleanCells(cells: seq<string>)
    ensures Clean(Cells(cells)) <==> AllClean(cells)
  {
    if cells == [] {
      CleanWhenNeverOpens("");
    } else {
      var n := |cells| - 1;
      CleanCells(cells[..n]);
      CleanCell(Cells(cells[..n]), cells[n]);
      assert cells == cells[..n] + [cells[n]];
    }
  }

  lemma CleanLink(r: Record)
    ensures Clean(Link(r)) <==> Clean(r.id) && Clean(r.path)
  {
    assert Link(r) == "" + ['['] + (r.id + [']'] + ("" + ['('] + (r.path + [')'] + "")));
    CleanWhenNeverOpens("");
    CleanApart(r.path, ')', "");
    CleanApart("", '(', r.path + [')'] + "");
    CleanApart(r.id, ']', "" + ['('] + (r.path + [')'] + ""));
    CleanApart("", '[', r.id + [']'] + ("" + ['('] + (r.path + [')'] + "")));
  }

  /** No cell of the record's row spells a marker once its line breaks read as spaces. */
  ghost predicate Harmless(r: Record) {
    && Clean(r.id) && Clean(r.path) && Clean(EscapeCell(r.status))
    && Clean(EscapeCell(Join(r.tags, ", "))) && Clean(EscapeCell(r.title))
  }

  lemma CleanRow(r: Record, withTags: bool)
    requires r.tags != [] ==> withTags
    ensures Clean(Row(r, withTags)) <==> Harmless(r)
  {
    var cells := RowCells(r, withTags);
    CleanWhenNeverOpens("");
    CleanCells(cells);
    assert Row(r, withTags) == Cells(cells) + ['|'] + "";
    CleanApart(Cells(cells), '|', "");
    CleanLink(r);
    assert cells[0] in cells && cells[1] in cells && cells[2] in cells && cells[|cells| - 1] in cells;
  }

  // ----- what frames the block -----

  /** Two markers on lines of their own frame what is between them exactly when it holds neither. */
  lemma FramesExactly(begin_: string, body: string, end: string)
    requires Apart(begin_, end) && Spelled(begin_) && Spelled(end)
    ensures Framed(begin_ + ['\n'] + (body + ['\n'] + end), begin_, end) <==>
      NoneFrom(body, begin_, 0) && NoneFrom(body, end, 0)
  {
    var text := begin_ + ['\n'] + (body + ['\n'] + end);
    forall k ensures OccursAt(text, begin_, k) <==> k == 0 || OccursAt(body, begin_, k - |begin_| - 1) {
      BetweenAt(begin_, body, end, begin_, k);
      AtSelf(begin_, end, k);
      AtSelf(end, begin_, k - |begin_| - |body| - 2);
    }
    forall k ensures OccursAt(text, end, k) <==> k == |text| - |end| || OccursAt(body, end, k - |begin_| - 1) {
      BetweenAt(begin_, body, end, end, k);
      AtSelf(begin_, end, k);
      AtSelf(end, begin_, k - |begin_| - |body| - 2);
    }
    NoneShifted(text, body, begin_, |begin_| + 1, 0);
    NoneShifted(text, body, end, |begin_| + 1, |text| - |end|);
  }

  /** Where a marker stands in the framed text. */
  lemma BetweenAt(begin_: string, body: string, end: string, m: string, k: int)
    requires Spelled(m)
    ensures OccursAt(begin_ + ['\n'] + (body + ['\n'] + end), m, k) <==>
      || OccursAt(begin_, m, k)
      || OccursAt(body, m, k - |begin_| - 1)
      || OccursAt(end, m, k - |begin_| - |body| - 2)
  {
    NotInMarker(m, '\n');
    OccursApart(begin_, '\n', body + ['\n'] + end, m, k);
    OccursApart(body, '\n', end, m, k - |begin_| - 1);
  }

  /** A marker holds itself once, and not the other one. */
  lemma AtSelf(m: string, other: string, k: int)
    requires Apart(m, other) || Apart(other, m)
    ensures OccursAt(m, m, k) <==> k == 0
    ensures !OccursAt(m, other, k)
  {
    assert OccursAt(m, m, 0);
    if OccursAt(m, other, k) {
      MarkerChars(m, other, k);
      SamePosition(m, m, other, 0);
    }
  }

  /** One known position, and the positions inside the body. */
  lemma NoneShifted(text: string, body: string, m: string, offset: nat, own: int)
    requires forall k :: OccursAt(text, m, k) <==> k == own || OccursAt(body, m, k - offset)
    requires own < offset || own > offset + |body|
    requires m != []
    ensures Only(text, m, own) <==> NoneFrom(body, m, 0)
  {
    assert OccursAt(text, m, own);
    if Only(text, m, own) {
      forall k | 0 <= k ensures !OccursAt(body, m, k) {
        assert OccursAt(text, m, k + offset) <==> k + offset == own || OccursAt(body, m, k + offset - offset);
      }
    }
  }

  /** The lines between the two marker lines. */
  function Body(payload: string, records: seq<Record>): seq<string> {
    Opening(payload)[1..] + Heading(AnyTags(records)) + Rows(records, AnyTags(records)) + ["", "</div>"]
  }

  lemma {:induction false} JoinLast(lines: seq<string>, last: string)
    requires lines != []
    ensures Join(lines + [last], "\n") == Join(lines, "\n") + ['\n'] + last
  {
    if |lines| == 1 {
      assert (lines + [last])[1..] == [last];
    } else {
      JoinLast(lines[1..], last);
      assert (lines + [last])[1..] == lines[1..] + [last];
      assert Join(lines, "\n") == lines[0] + "\n" + Join(lines[1..], "\n");
      assert lines[0] + "\n" + (Join(lines[1..], "\n") + ['\n'] + last) ==
             lines[0] + "\n" + Join(lines[1..], "\n") + ['\n'] + last;
    }
  }

  lemma JoinEnds(first: string, lines: seq<string>, last: string)
    requires lines != []
    ensures Join([first] + lines + [last], "\n") == first + ['\n'] + (Join(lines, "\n") + ['\n'] + last)
  {
    JoinLast(lines, last);
    assert ([first] + lines + [last])[1..] == lines + [last];
  }

  lemma BlockShape(payload: string, records: seq<Record>)
    ensures Block(payload, records) == BEGIN + ['\n'] + (Join(Body(payload, records), "\n") + ['\n'] + END)
  {
    var withTags, body := AnyTags(records), Body(payload, records);
    assert Opening(payload) + Heading(withTags) + Rows(records, withTags) + ["", "</div>", END] == [BEGIN] + body + [END];
    JoinEnds(BEGIN, body, END);
  }

  /** A line whose only opening bracket starts a tag. */
  lemma TagClean(line: string)
    requires |line| > 1 && line[1] != '!' && '<' !in line[1..]
    ensures Clean(line)
  {
    forall k | 0 < k < |line| ensures line[k] != '<' {
      assert line[k] == line[1..][k - 1];
    }
    CleanWhenNeverOpens(line);
  }

  lemma TagsClean()
    ensures Clean("<template data-rfc-catalog>") && Clean("</template>") && Clean("</div>")
  {
    TagClean("<template data-rfc-catalog>");
    TagClean("</template>");
    TagClean("</div>");
  }

  lemma FallbackClean()
    ensures Clean(FALLBACK)
  {
    var name, attribute := " class=\"pp-rfc-fallback\"", " data-rfc-fallback markdown=\"1\">";
    assert '<' !in name;
    assert '<' !in attribute;
    TagAppend("<div", name + attribute);
  }

  lemma TagAppend(tag: string, attributes: string)
    requires |tag| > 1 && tag[1] != '!' && '<' !in tag[1..] && '<' !in attributes
    ensures Clean(tag + attributes)
  {
    assert (tag + attributes)[1..] == tag[1..] + attributes;
    TagClean(tag + attributes);
  }

  lemma HeadingClean(withTags: bool)
    ensures AllClean(Heading(withTags))
  {
    forall line | line in Heading(withTags) ensures Clean(line) {
      assert '<' !in line;
      CleanWhenNeverOpens(line);
    }
  }

  lemma FixedLinesClean(payload: string)
    ensures AllClean(Opening(payload)[1..]) && AllClean(["", "</div>"])
  {
    TagsClean();
    FallbackClean();
    CleanWhenNeverOpens("");
    CleanWhenNeverOpens(EscapeTags(payload));
  }

  lemma AllCleanAppend(a: seq<string>, b: seq<string>)
    ensures AllClean(a + b) <==> AllClean(a) && AllClean(b)
  {
    assert forall line :: line in a || line in b ==> line in a + b;
  }

  ghost predicate AllHarmless(records: seq<Record>) {
    forall r :: r in records ==> Harmless(r)
  }

  lemma RowsClean(records: seq<Record>, withTags: bool)
    requires forall r :: r in records && r.tags != [] ==> withTags
    ensures AllClean(Rows(records, withTags)) <==> AllHarmless(records)
  {
    var rows := Rows(records, withTags);
    forall k | 0 <= k < |records| ensures Clean(rows[k]) <==> Harmless(records[k]) {
      CleanRow(records[k], withTags);
    }
    if AllClean(rows) {
      forall k | 0 <= k < |records| ensures Harmless(records[k]) {
        assert rows[k] in rows;
      }
    }
  }

  lemma BodyClean(payload: string, records: seq<Record>)
    ensures Clean(Join(Body(payload, records), "\n")) <==> AllHarmless(records)
  {
    var withTags, opening := AnyTags(records), Opening(payload)[1..];
    var heading, rows := Heading(withTags), Rows(records, withTags);
    CleanJoined(Body(payload, records));
    FixedLinesClean(payload);
    HeadingClean(withTags);
    RowsClean(records, withTags);
    AllCleanAppend(opening, heading);
    AllCleanAppend(opening + heading, rows);
    AllCleanAppend(opening + heading + rows, ["", "</div>"]);
  }

  /** The block is framed by its two markers exactly when no cell of its table spells one. */
  lemma BlockFramedExactly(payload: string, records: seq<Record>)
    ensures Framed(Block(payload, records), BEGIN, END) <==> AllHarmless(records)
  {
    MarkersApart();
    MarkersSpelled();
    BlockShape(payload, records);
    BodyClean(payload, records);
    FramesExactly(BEGIN, Join(Body(payload, records), "\n"), END);
  }

  // ----- writing the block again -----

  /** A text with two positions of a marker is not rewritten. */
  lemma TwiceRefused(text: string, begin_: string, end: string, block: string, m: string, i: int, j: int)
    requires Apart(begin_, end) && (m == begin_ || m == end)
    requires OccursAt(text, m, i) && OccursAt(text, m, j) && i != j
    ensures ReplaceBetween(text, begin_, end, block) == Err
  {
    CountOne(text, m, 0);
    assert !SoleFrom(text, m, 0, i) && !SoleFrom(text, m, 0, j);
    forall k ensures !SoleFrom(text, m, 0, k) {
      assert k != i || k != j;
    }
  }

  lemma OccursSpliced(pre: string, block: string, post: string, m: string, k: int)
    requires OccursAt(block, m, k)
    ensures OccursAt(pre + block + post, m, |pre| + k)
  {
    var text := pre + block + post;
    assert text[|pre| + k..|pre| + k + |m|] == block[k..k + |m|];
  }

  lemma TwiceInBlock(
      pre: string, block: string, post: string, begin_: string, end: string, second: string, m: string, i: int, j: int)
    requires Apart(begin_, end) && (m == begin_ || m == end)
    requires OccursAt(block, m, i) && OccursAt(block, m, j) && i != j
    ensures ReplaceBetween(pre + block + post, begin_, end, second) == Err
  {
    OccursSpliced(pre, block, post, m, i);
    OccursSpliced(pre, block, post, m, j);
    TwiceRefused(pre + block + post, begin_, end, second, m, |pre| + i, |pre| + j);
  }

  /** A block that has both markers at its ends but is not framed by them is written once and refused afterwards. */
  lemma UnframedRefused(pre: string, block: string, post: string, begin_: string, end: string, second: string)
    requires Apart(begin_, end) && |begin_| + |end| <= |block|
    requires OccursAt(block, begin_, 0) && OccursAt(block, end, |block| - |end|) && !Framed(block, begin_, end)
    ensures ReplaceBetween(pre + block + post, begin_, end, second) == Err
  {
    if Only(block, begin_, 0) {
      var j :| 0 <= j && j != |block| - |end| && OccursAt(block, end, j);
      TwiceInBlock(pre, block, post, begin_, end, second, end, |block| - |end|, j);
    } else {
      var j :| 0 <= j && j != 0 && OccursAt(block, begin_, j);
      TwiceInBlock(pre, block, post, begin_, end, second, begin_, 0, j);
    }
  }

  /** Writing over a written block, for any two markers. */
  lemma WrittenAgain(text: string, begin_: string, end: string, body: string, second: string)
    requires Apart(begin_, end) && Spelled(begin_) && Spelled(end)
    requires ReplaceBetween(text, begin_, end, begin_ + ['\n'] + (body + ['\n'] + end)).Ok?
    ensures var written := ReplaceBetween(text, begin_, end, begin_ + ['\n'] + (body + ['\n'] + end)).value;
            var clean := NoneFrom(body, begin_, 0) && NoneFrom(body, end, 0);
            && (ReplaceBetween(written, begin_, end, second).Ok? <==> clean)
            && (clean ==> ReplaceBetween(written, begin_, end, second) == ReplaceBetween(text, begin_, end, second))
  {
    var block := begin_ + ['\n'] + (body + ['\n'] + end);
    ReplacesExactly(text, begin_, end, block, 0, 0);
    var b, e :| Replaceable(text, begin_, end, b, e);
    ReplacesExactly(text, begin_, end, block, b, e);
    ReplacesExactly(text, begin_, end, second, b, e);
    FramesExactly(begin_, body, end);
    if Framed(block, begin_, end) {
      OverwritesBetween(text, begin_, end, block, second);
    } else {
      assert block[0..|begin_|] == begin_ && block[|block| - |end|..|block|] == end;
      UnframedRefused(text[..b], block, text[e + |end|..], begin_, end, second);
    }
  }

  /** Main result: once the block of some records has been written into an index, the index can be written again
      exactly when no cell of those records spells a marker; and then the next block replaces it completely. */
  lemma RewritableExactly(readme: string, payload: string, records: seq<Record>, second: string)
    requires ReplaceGeneratedBlock(readme, Block(payload, records)).Ok?
    ensures var written := ReplaceGeneratedBlock(readme, Block(payload, records)).value;
            && (ReplaceGeneratedBlock(written, second).Ok? <==> AllHarmless(records))
            && (AllHarmless(records) ==> ReplaceGeneratedBlock(written, second) == ReplaceGeneratedBlock(readme, second))
  {
    MarkersApart();
    MarkersSpelled();
    BlockShape(payload, records);
    BodyClean(payload, records);
    WrittenAgain(readme, BEGIN, END, Join(Body(payload, records), "\n"), second);
  }

  lemma {:induction false} EscapeKeeps(value: string)
    requires '|' !in value && '\n' !in value
    ensures EscapeCell(value) == value
  {
    if value != "" {
      EscapeKeeps(value[1..]);
      assert value == [value[0]] + value[1..];
    }
  }

  /** An index whose marked region is empty. */
  function EmptyIndex(): string {
    BEGIN + ['\n'] + ("" + ['\n'] + END)
  }

  lemma EmptyReplaceable()
    ensures Replaceable(EmptyIndex(), BEGIN, END, 0, |BEGIN| + 2)
  {
    MarkersApart();
    MarkersSpelled();
    CleanWhenNeverOpens("");
    FramesExactly(BEGIN, "", END);
  }

  lemma EmptyWritten(block: string)
    ensures ReplaceGeneratedBlock(EmptyIndex(), block).Ok?
  {
    MarkersApart();
    EmptyReplaceable();
    ReplacesExactly(EmptyIndex(), BEGIN, END, block, 0, |BEGIN| + 2);
  }

  lemma MarkerTitleHarms(r: Record, k: nat)
    requires OccursAt(r.title, END, k) && '|' !in r.title && '\n' !in r.title
    ensures !Harmless(r)
  {
    EscapeKeeps(r.title);
  }

  /** A title that spells the end marker: an empty index is written once and refused from then on. */
  lemma MarkerTitleRefused(payload: string, r: Record, k: nat, second: string)
    requires OccursAt(r.title, END, k) && '|' !in r.title && '\n' !in r.title
    ensures var written := ReplaceGeneratedBlock(EmptyIndex(), Block(payload, [r]));
            written.Ok? && ReplaceGeneratedBlock(written.value, second) == Err
  {
    EmptyWritten(Block(payload, [r]));
    MarkerTitleHarms(r, k);
    assert r in [r];
    RewritableExactly(EmptyIndex(), payload, [r], second);
  }
}
