/** The marked-region rewrite of utils/rfc_catalog.py, on plain text. */
module CatalogMarkers {

  const BEGIN := "<!-- BEGIN GENERATED RFC CATALOG -->"
  const END := "<!-- END GENERATED RFC CATALOG -->"

  datatype Result<+T> = Ok(value: T) | Err

  predicate OccursAt(text: string, marker: string, i: int) {
    0 <= i && i + |marker| <= |text| && text[i..i + |marker|] == marker
  }

  /** Non-overlapping occurrences from a position on, counted left to right. */
  function Count(text: string, marker: string, from: nat): nat
    requires marker != []
    decreases |text| - from
  {
    if from + |marker| > |text| then 0
    else if OccursAt(text, marker, from) then 1 + Count(text, marker, from + |marker|)
    else Count(text, marker, from + 1)
  }

  /** First occurrence at or after a position, or -1. */
  function Find(text: string, marker: string, from: nat): (i: int)
    ensures i >= 0 ==> from <= i && OccursAt(text, marker, i)
    ensures forall k :: from <= k && (i < 0 || k < i) ==> !OccursAt(text, marker, k)
    decreases |text| - from
  {
    if from + |marker| > |text| then -1
    else if OccursAt(text, marker, from) then from
    else Find(text, marker, from + 1)
  }

  function ReplaceBetween(text: string, begin_: string, end: string, block: string): Result<string>
    requires begin_ != [] && end != []
  {
    if Count(text, begin_, 0) != 1 || Count(text, end, 0) != 1 then Err
    else
      var b := Find(text, begin_, 0);
      if b < 0 then Err
      else
        var e := Find(text, end, b);
        if e < 0 then Err else Ok(text[..b] + block + text[e + |end|..])
  }

  function ReplaceGeneratedBlock(readme: string, block: string): Result<string> {
    ReplaceBetween(readme, BEGIN, END, block)
  }

  // ----- markers cannot overlap -----

  /** A marker opens with '<' and has no other: two occurrences never overlap. */
  predicate IsMarker(m: string) {
    m != [] && m[0] == '<' && forall k :: 0 < k < |m| ==> m[k] != '<'
  }

  predicate Apart(m1: string, m2: string) {
    IsMarker(m1) && IsMarker(m2) && !(m1 <= m2) && !(m2 <= m1)
  }

  lemma MarkersApart()
    ensures Apart(BEGIN, END)
  {
    assert BEGIN[5] == 'B' && END[5] == 'E';
  }

  ghost predicate Only(text: string, m: string, i: int) {
    OccursAt(text, m, i) && forall k :: 0 <= k && k != i ==> !OccursAt(text, m, k)
  }

  ghost predicate NoneFrom(text: string, m: string, from: nat) {
    forall k :: from <= k ==> !OccursAt(text, m, k)
  }

  lemma MarkerChars(text: string, m: string, i: int)
    requires IsMarker(m) && OccursAt(text, m, i)
    ensures text[i] == '<' && forall j :: i < j < i + |m| ==> text[j] != '<'
  {
    var found := text[i..i + |m|];
    forall j | i <= j < i + |m| ensures text[j] == m[j - i] {
      assert found[j - i] == text[j];
    }
  }

  lemma NoOverlap(text: string, m1: string, m2: string, i: int, j: int)
    requires IsMarker(m1) && IsMarker(m2) && OccursAt(text, m1, i) && OccursAt(text, m2, j) && i < j
    ensures i + |m1| <= j
  {
    MarkerChars(text, m1, i);
    MarkerChars(text, m2, j);
  }

  lemma {:induction false} CountZero(text: string, m: string, from: nat)
    requires IsMarker(m)
    ensures Count(text, m, from) == 0 <==> NoneFrom(text, m, from)
    decreases |text| - from
  {
    if from + |m| <= |text| {
      if OccursAt(text, m, from) {
      } else {
        CountZero(text, m, from + 1);
      }
    }
  }

  ghost predicate OnlyFrom(text: string, m: string, from: nat) {
    exists i :: SoleFrom(text, m, from, i)
  }

  ghost predicate SoleFrom(text: string, m: string, from: nat, i: int) {
    from <= i && OccursAt(text, m, i) && forall k :: from <= k && k != i ==> !OccursAt(text, m, k)
  }

  /** The count is one exactly when there is exactly one position. */
  lemma {:induction false} CountOne(text: string, m: string, from: nat)
    requires IsMarker(m)
    ensures Count(text, m, from) == 1 <==> OnlyFrom(text, m, from)
    decreases |text| - from
  {
    if from + |m| <= |text| {
      if OccursAt(text, m, from) {
        CountZero(text, m, from + |m|);
        forall k | from < k < from + |m| ensures !OccursAt(text, m, k) {
          if OccursAt(text, m, k) {
            NoOverlap(text, m, m, from, k);
          }
        }
        if NoneFrom(text, m, from + |m|) {
          assert SoleFrom(text, m, from, from);
        }
      } else {
        CountOne(text, m, from + 1);
        if OnlyFrom(text, m, from) {
          var i :| SoleFrom(text, m, from, i);
          assert SoleFrom(text, m, from + 1, i);
        }
        if OnlyFrom(text, m, from + 1) {
          var i :| SoleFrom(text, m, from + 1, i);
          assert SoleFrom(text, m, from, i);
        }
      }
    }
  }

  // ----- the rewrite -----

  /** A block that begins and ends with its only markers. */
  ghost predicate Framed(block: string, begin_: string, end: string) {
    |begin_| + |end| <= |block| && Only(block, begin_, 0) && Only(block, end, |block| - |end|)
  }

  ghost predicate Replaceable(text: string, begin_: string, end: string, b: int, e: int) {
    0 <= b && b <= e && Only(text, begin_, b) && Only(text, end, e)
  }

  /** The rewrite succeeds exactly on one ordered marker pair, and then splices the block in. */
  lemma ReplacesExactly(text: string, begin_: string, end: string, block: string, b: int, e: int)
    requires Apart(begin_, end)
    ensures Replaceable(text, begin_, end, b, e) ==>
      ReplaceBetween(text, begin_, end, block) == Ok(text[..b] + block + text[e + |end|..])
    ensures ReplaceBetween(text, begin_, end, block).Ok? ==>
      exists i, j :: Replaceable(text, begin_, end, i, j)
  {
    CountOne(text, begin_, 0);
    CountOne(text, end, 0);
    if Replaceable(text, begin_, end, b, e) {
      assert SoleFrom(text, begin_, 0, b) && SoleFrom(text, end, 0, e);
    }
    if ReplaceBetween(text, begin_, end, block).Ok? {
      var i := Find(text, begin_, 0);
      assert Replaceable(text, begin_, end, i, Find(text, end, i));
    }
  }

  /** Where an occurrence in a spliced text sits: in front of the block, inside it, or behind it. */
  lemma OccurrenceSplits(pre: string, block: string, post: string, begin_: string, end: string, m: string, k: int)
    requires Apart(begin_, end) && (m == begin_ || m == end) && Framed(block, begin_, end)
    requires OccursAt(pre + block + post, m, k)
    ensures OccursAt(pre, m, k) || OccursAt(block, m, k - |pre|) || OccursAt(post, m, k - |pre| - |block|)
  {
    NeverCrosses(pre, block, post, begin_, end, m, k);
    assert pre + block + post == pre + (block + post);
    if k + |m| <= |pre| {
      OccursInFront(pre, block + post, m, k);
    } else if k + |m| <= |pre| + |block| {
      OccursInFront(pre + block, post, m, k);
      OccursBehind(pre, block, m, k);
    } else {
      OccursBehind(pre + block, post, m, k);
    }
  }

  lemma OccursInFront(a: string, b: string, m: string, k: int)
    requires OccursAt(a + b, m, k) && k + |m| <= |a|
    ensures OccursAt(a, m, k)
  {
    assert (a + b)[k..k + |m|] == a[k..k + |m|];
  }

  lemma OccursBehind(a: string, b: string, m: string, k: int)
    requires OccursAt(a + b, m, k) && |a| <= k
    ensures OccursAt(b, m, k - |a|)
  {
    assert (a + b)[k..k + |m|] == b[k - |a|..k - |a| + |m|];
  }

  /** The block's own markers sit at its ends in the spliced text. */
  lemma BlockEnds(pre: string, block: string, post: string, begin_: string, end: string)
    requires Framed(block, begin_, end)
    ensures OccursAt(pre + block + post, begin_, |pre|)
    ensures OccursAt(pre + block + post, end, |pre| + |block| - |end|)
  {
    var text, q := pre + block + post, |pre| + |block| - |end|;
    assert text[|pre|..|pre| + |begin_|] == block[0..0 + |begin_|];
    assert text[q..q + |end|] == block[|block| - |end|..|block| - |end| + |end|];
  }

  /** No marker crosses either end of the block. */
  lemma NeverCrosses(pre: string, block: string, post: string, begin_: string, end: string, m: string, k: int)
    requires Apart(begin_, end) && (m == begin_ || m == end) && Framed(block, begin_, end)
    requires OccursAt(pre + block + post, m, k)
    ensures k + |m| <= |pre| || (|pre| <= k && k + |m| <= |pre| + |block|) || |pre| + |block| <= k
  {
    var text, q := pre + block + post, |pre| + |block| - |end|;
    BlockEnds(pre, block, post, begin_, end);
    if k < |pre| {
      NoOverlap(text, m, begin_, k, |pre|);
    } else if k < q {
      NoOverlap(text, m, end, k, q);
    } else if k > q {
      NoOverlap(text, end, m, q, k);
    } else {
      SamePosition(text, m, end, k);
    }
  }

  lemma SamePosition(text: string, m1: string, m2: string, i: int)
    requires OccursAt(text, m1, i) && OccursAt(text, m2, i)
    ensures m1 <= m2 || m2 <= m1
    ensures m1 == m2 || !(|m1| == |m2|)
  {
    if |m1| <= |m2| {
      assert text[i..i + |m2|][..|m1|] == text[i..i + |m1|];
    } else {
      assert text[i..i + |m1|][..|m2|] == text[i..i + |m2|];
    }
  }

  /** Splicing a framed block over the marker pair leaves exactly one pair, at the block's own ends. */
  lemma SpliceKeepsPair(text: string, begin_: string, end: string, block: string, b: int, e: int)
    requires Apart(begin_, end) && Replaceable(text, begin_, end, b, e) && Framed(block, begin_, end)
    ensures Replaceable(text[..b] + block + text[e + |end|..], begin_, end, b, b + |block| - |end|)
  {
    var pre, post := text[..b], text[e + |end|..];
    var r, q := pre + block + post, b + |block| - |end|;
    BlockEnds(pre, block, post, begin_, end);
    forall m, k | (m == begin_ || m == end) && OccursAt(r, m, k)
      ensures k == if m == begin_ then b else q
    {
      OccurrenceSplits(pre, block, post, begin_, end, m, k);
      OutsideIsClean(text, begin_, end, b, e, m, k);
      OutsideIsClean(text, begin_, end, b, e, m, k - b - |block|);
    }
  }

  lemma SliceOfRest(text: string, start: nat, k: nat, n: nat)
    requires start + k + n <= |text|
    ensures text[start..][k..k + n] == text[start + k..start + k + n]
  {
  }

  /** No marker occurs outside the marked region. */
  lemma {:induction false} OutsideIsClean(text: string, begin_: string, end: string, b: int, e: int, m: string, k: int)
    requires Apart(begin_, end) && (m == begin_ || m == end) && Replaceable(text, begin_, end, b, e)
    ensures !OccursAt(text[..b], m, k) && !OccursAt(text[e + |end|..], m, k)
  {
    if OccursAt(text[..b], m, k) {
      assert text[k..k + |m|] == text[..b][k..k + |m|];
      assert OccursAt(text, m, k);
    }
    if OccursAt(text[e + |end|..], m, k) {
      var j := e + |end| + k;
      SliceOfRest(text, e + |end|, k, |m|);
      assert OccursAt(text, m, j);
    }
  }

  lemma OverwritesBetween(text: string, begin_: string, end: string, first: string, second: string)
    requires Apart(begin_, end) && ReplaceBetween(text, begin_, end, first).Ok? && Framed(first, begin_, end)
    ensures var written := ReplaceBetween(text, begin_, end, first).value;
            && ReplaceBetween(written, begin_, end, second) == ReplaceBetween(text, begin_, end, second)
            && (exists i, j :: Replaceable(written, begin_, end, i, j))
  {
    ReplacesExactly(text, begin_, end, first, 0, 0);
    var b, e :| Replaceable(text, begin_, end, b, e);
    ReplacesExactly(text, begin_, end, first, b, e);
    ReplacesExactly(text, begin_, end, second, b, e);
    var pre, post := text[..b], text[e + |end|..];
    var written, q := pre + first + post, b + |first| - |end|;
    SpliceKeepsPair(text, begin_, end, first, b, e);
    ReplacesExactly(written, begin_, end, second, b, q);
    assert written[..b] == pre && written[q + |end|..] == post;
  }

  /** Main result: a rewrite that succeeds with a framed block keeps one ordered marker pair, and a second rewrite
      overwrites the first completely, so writing and then checking the same block finds nothing to do. */
  lemma RewriteOverwrites(readme: string, first: string, second: string)
    requires ReplaceGeneratedBlock(readme, first).Ok? && Framed(first, BEGIN, END)
    ensures var written := ReplaceGeneratedBlock(readme, first).value;
            && ReplaceGeneratedBlock(written, second) == ReplaceGeneratedBlock(readme, second)
            && ReplaceGeneratedBlock(written, first) == Ok(written)
  {
    MarkersApart();
    OverwritesBetween(readme, BEGIN, END, first, second);
    OverwritesBetween(readme, BEGIN, END, first, first);
  }
}
