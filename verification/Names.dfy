/** Ordered lists of names: first-match lookup, match counting, and ordered insertion without repetition.

    Every layer of IncQL resolves a column name by its first match, and builds column lists by adding a name only
    when it is not there yet. */
module Names {

  /** Index of the first occurrence of `name`, or -1. */
  function FirstIndex(names: seq<string>, name: string): (i: int)
    ensures -1 <= i < |names|
    ensures i >= 0 ==> names[i] == name && forall k :: 0 <= k < i ==> names[k] != name
    ensures i < 0 <==> name !in names
  {
    if names == [] then -1
    else if names[0] == name then 0
    else
      var r := FirstIndex(names[1..], name);
      assert names == [names[0]] + names[1..];
      assert forall k :: 1 <= k < |names| ==> names[k] == names[1..][k - 1];
      if r < 0 then -1 else r + 1
  }

  /** The loop the sources repeat for every name lookup: stop at the first match. */
  method IndexOf(names: seq<string>, name: string) returns (index: int)
    ensures index == FirstIndex(names, name)
  {
    for i := 0 to |names|
      invariant forall k :: 0 <= k < i ==> names[k] != name
    {
      if names[i] == name {
        return i;
      }
    }
    return -1;
  }

  lemma FirstIndexIs(names: seq<string>, name: string, i: nat)
    requires i < |names| && names[i] == name
    requires forall k :: 0 <= k < i ==> names[k] != name
    ensures FirstIndex(names, name) == i
  {
    assert names[i] in names;
  }

  /** Appending names never moves a first match. */
  lemma FirstIndexAppend(names: seq<string>, more: seq<string>, name: string)
    ensures name in names ==> FirstIndex(names + more, name) == FirstIndex(names, name)
    ensures name !in names && name in more ==> FirstIndex(names + more, name) == |names| + FirstIndex(more, name)
  {
    var all := names + more;
    if name in names {
      FirstIndexIs(all, name, FirstIndex(names, name));
    } else if name in more {
      FirstIndexIs(all, name, |names| + FirstIndex(more, name));
    }
  }

  /** How many entries carry `name`. */
  function MatchCount(names: seq<string>, name: string): (n: nat)
    ensures n == 0 <==> name !in names
    ensures n == 1 ==> forall k :: 0 <= k < |names| && names[k] == name ==> k == FirstIndex(names, name)
  {
    if names == [] then 0
    else
      var rest := MatchCount(names[1..], name);
      assert names == [names[0]] + names[1..];
      assert forall k :: 1 <= k < |names| ==> names[k] == names[1..][k - 1];
      (if names[0] == name then 1 else 0) + rest
  }

  lemma {:induction false} MatchCountAppend(a: seq<string>, b: seq<string>, name: string)
    ensures MatchCount(a + b, name) == MatchCount(a, name) + MatchCount(b, name)
  {
    if a == [] {
      assert a + b == b;
    } else {
      assert (a + b)[1..] == a[1..] + b;
      MatchCountAppend(a[1..], b, name);
    }
  }

  method CountMatches(names: seq<string>, name: string) returns (count: nat)
    ensures count == MatchCount(names, name)
  {
    count := 0;
    for i := 0 to |names|
      invariant count == MatchCount(names[..i], name)
    {
      assert names[..i + 1] == names[..i] + [names[i]];
      MatchCountAppend(names[..i], [names[i]], name);
      if names[i] == name {
        count := count + 1;
      }
    }
    assert names[..|names|] == names;
  }

  // ----- ordered insertion -----

  /** Add one name unless it is already listed. */
  function Insert(names: seq<string>, name: string): seq<string> {
    if name in names then names else names + [name]
  }

  /** Add names left to right. */
  function InsertAll(names: seq<string>, more: seq<string>): seq<string>
    decreases |more|
  {
    if more == [] then names else InsertAll(Insert(names, more[0]), more[1..])
  }

  predicate Distinct(names: seq<string>) {
    forall i, j :: 0 <= i < j < |names| ==> names[i] != names[j]
  }

  /** The input stays as a prefix, exactly the new names are added, and distinctness survives. */
  lemma {:induction false} InsertAllFacts(names: seq<string>, more: seq<string>)
    ensures names <= InsertAll(names, more)
    ensures forall x :: x in InsertAll(names, more) <==> x in names || x in more
    ensures Distinct(names) ==> Distinct(InsertAll(names, more))
    decreases |more|
  {
    if more != [] {
      InsertAllFacts(Insert(names, more[0]), more[1..]);
      assert more == [more[0]] + more[1..];
    }
  }

  lemma {:induction false} InsertAllAppend(names: seq<string>, a: seq<string>, b: seq<string>)
    ensures InsertAll(names, a + b) == InsertAll(InsertAll(names, a), b)
    decreases |a|
  {
    if a == [] {
      assert a + b == b;
    } else {
      assert (a + b)[1..] == a[1..] + b;
      InsertAllAppend(Insert(names, a[0]), a[1..], b);
    }
  }

  lemma InsertAllOne(names: seq<string>, name: string)
    ensures InsertAll(names, [name]) == Insert(names, name)
  {
    assert InsertAll(names, [name]) == InsertAll(Insert(names, name), []);
  }

  /** The names added are the first occurrences of the new ones, in order. */
  lemma {:induction false} InsertAllOrder(names: seq<string>, more: seq<string>)
    ensures InsertAll(names, more) == names + NewNames(names, more)
    decreases |more|
  {
    if more == [] {
    } else if more[0] in names {
      InsertAllOrder(names, more[1..]);
    } else {
      InsertAllOrder(names + [more[0]], more[1..]);
      assert names + [more[0]] + NewNames(names + [more[0]], more[1..])
          == names + ([more[0]] + NewNames(names + [more[0]], more[1..]));
    }
  }

  /** First occurrences in `more` of names that `seen` lacks. */
  function NewNames(seen: seq<string>, more: seq<string>): seq<string>
    decreases |more|
  {
    if more == [] then []
    else if more[0] in seen then NewNames(seen, more[1..])
    else [more[0]] + NewNames(seen + [more[0]], more[1..])
  }

  /** Rearranging an already listed batch changes nothing. */
  lemma {:induction false} InsertAllKnown(names: seq<string>, more: seq<string>)
    requires forall x :: x in more ==> x in names
    ensures InsertAll(names, more) == names
    decreases |more|
  {
    if more != [] {
      assert more[0] in more;
      InsertAllKnown(names, more[1..]);
    }
  }
}
