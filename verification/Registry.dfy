/** The function registry (src/function_registry.incn): what one registration accepts and does, and what every sequence
    of registrations keeps. */
module Registry {
  import opened Names
  import opened Wrappers

  /** The declaration facts the registry stores and compares but never reads. */
  datatype Facts = Facts(
    category: string, class_: string, lifecycle: string, determinism: string, nulls: string, errors: string,
    modifiers: string, approximation: string, sketch: string, variant: string, substrait: string)

  datatype Spec = Spec(namespace: string, aliases: seq<string>, aliasPolicy: string, facts: Facts)

  datatype Entry = Entry(
    functionRef: string, namespace: string, canonical: string, aliases: seq<string>, aliasPolicy: string, facts: Facts)

  // ----- names and references -----

  predicate ValidName(name: string) {
    name != "" && '.' !in name
  }

  function Ref(namespace: string, canonical: string): string {
    namespace + "." + canonical
  }

  /** A reference splits only one way, because a canonical name has no dot. */
  lemma RefInjective(n1: string, c1: string, n2: string, c2: string)
    requires ValidName(c1) && ValidName(c2)
    ensures Ref(n1, c1) == Ref(n2, c2) <==> n1 == n2 && c1 == c2
  {
    LastDot(n1, c1);
    LastDot(n2, c2);
    var r1, r2 := Ref(n1, c1), Ref(n2, c2);
    if r1 == r2 {
      assert n1 == r1[..|n1|] && n2 == r2[..|n2|];
      assert c1 == r1[|n1| + 1..] && c2 == r2[|n2| + 1..];
    }
  }

  lemma LastDot(namespace: string, canonical: string)
    requires ValidName(canonical)
    ensures var r := Ref(namespace, canonical);
            r[|namespace|] == '.' && forall k :: |namespace| < k < |r| ==> r[k] != '.'
  {
    var r := Ref(namespace, canonical);
    forall k | |namespace| < k < |r| ensures r[k] != '.' {
      assert r[k] == canonical[k - |namespace| - 1];
    }
  }

  /** `name` is a public name of the entry. */
  predicate Claims(e: Entry, namespace: string, name: string) {
    e.namespace == namespace && (e.canonical == name || name in e.aliases)
  }

  /** No public name of the entry is the canonical name or one of the aliases. */
  predicate Clear(e: Entry, canonical: string, aliases: seq<string>) {
    && e.canonical != canonical && e.canonical !in aliases && canonical !in e.aliases
    && forall k :: 0 <= k < |aliases| ==> aliases[k] !in e.aliases
  }

  predicate AliasesFit(canonical: string, aliases: seq<string>) {
    Distinct(aliases) && forall k :: 0 <= k < |aliases| ==> ValidName(aliases[k]) && aliases[k] != canonical
  }

  predicate EntryFits(e: Entry) {
    && e.namespace != "" && ValidName(e.canonical) && e.functionRef == Ref(e.namespace, e.canonical)
    && AliasesFit(e.canonical, e.aliases)
  }

  /** The invariant: sound entries whose public names never meet inside a namespace. */
  predicate Sound(entries: seq<Entry>) {
    && (forall i :: 0 <= i < |entries| ==> EntryFits(entries[i]))
    && (forall i, j :: 0 <= i < j < |entries| && entries[i].namespace == entries[j].namespace ==>
          Clear(entries[i], entries[j].canonical, entries[j].aliases))
  }

  // ----- what a registration does -----

  function NewEntry(canonical: string, spec: Spec): Entry {
    Entry(Ref(spec.namespace, canonical), spec.namespace, canonical, spec.aliases, spec.aliasPolicy, spec.facts)
  }

  function PositionOf(entries: seq<Entry>, namespace: string, canonical: string): (i: int)
    ensures -1 <= i < |entries|
    ensures i >= 0 ==> entries[i].namespace == namespace && entries[i].canonical == canonical
    ensures i < 0 ==> forall k :: 0 <= k < |entries| ==>
      !(entries[k].namespace == namespace && entries[k].canonical == canonical)
  {
    if entries == [] then -1
    else
      var n := |entries| - 1;
      var front := PositionOf(entries[..n], namespace, canonical);
      if front >= 0 then front
      else if entries[n].namespace == namespace && entries[n].canonical == canonical then n
      else
        assert forall k :: 0 <= k < n ==> entries[..n][k] == entries[k];
        -1
  }

  predicate SpecFits(canonical: string, spec: Spec) {
    ValidName(canonical) && spec.namespace != "" && AliasesFit(canonical, spec.aliases)
  }

  predicate NamesFree(entries: seq<Entry>, canonical: string, spec: Spec) {
    forall k :: 0 <= k < |entries| && entries[k].namespace == spec.namespace ==>
      Clear(entries[k], canonical, spec.aliases)
  }

  /** A declaration is accepted when it repeats its own entry unchanged or brings only free names. */
  predicate EntryAccepted(entries: seq<Entry>, canonical: string, spec: Spec) {
    var i := PositionOf(entries, spec.namespace, canonical);
    SpecFits(canonical, spec)
    && if i >= 0 then entries[i] == NewEntry(canonical, spec) else NamesFree(entries, canonical, spec)
  }

  function WithEntry(entries: seq<Entry>, canonical: string, spec: Spec): seq<Entry> {
    if PositionOf(entries, spec.namespace, canonical) >= 0 then entries else entries + [NewEntry(canonical, spec)]
  }

  predicate Taken(entries: seq<Entry>, namespace: string, name: string) {
    exists k :: 0 <= k < |entries| && Claims(entries[k], namespace, name)
  }

  /** An alias is accepted when its target exists, and the name is free or already this entry's alias under the policy
      the entry has now. */
  predicate AliasAccepted(
      entries: seq<Entry>, namespace: string, canonical: string, alias: string, policy: string)
  {
    var i := PositionOf(entries, namespace, canonical);
    namespace != "" && ValidName(canonical) && ValidName(alias) && alias != canonical && i >= 0
    && (!Taken(entries, namespace, alias) || (alias in entries[i].aliases && entries[i].aliasPolicy == policy))
  }

  function WithAlias(entries: seq<Entry>, namespace: string, canonical: string, alias: string, policy: string)
    : seq<Entry>
  {
    var i := PositionOf(entries, namespace, canonical);
    if i < 0 || alias in entries[i].aliases then entries
    else entries[i := entries[i].(aliases := entries[i].aliases + [alias], aliasPolicy := policy)]
  }

  // ----- the class -----

  class FunctionRegistry {
    var entries: seq<Entry>

    predicate Valid()
      reads this
    {
      Sound(entries)
    }

    constructor ()
      ensures Valid() && entries == []
    {
      entries := [];
    }

    /** False stands for a failed assertion; nothing has changed then. */
    method AddEntry(canonical: string, spec: Spec) returns (ok: bool)
      requires Valid()
      modifies this
      ensures Valid()
      ensures ok <==> EntryAccepted(old(entries), canonical, spec)
      ensures entries == if ok then WithEntry(old(entries), canonical, spec) else old(entries)
    {
      if !ValidName(canonical) || spec.namespace == "" {
        return false;
      }
      var seen: seq<string> := [];
      for i := 0 to |spec.aliases|
        invariant seen == spec.aliases[..i] && AliasesFit(canonical, seen)
      {
        var alias := spec.aliases[i];
        if !ValidName(alias) || alias == canonical || alias in seen {
          return false;
        }
        seen := seen + [alias];
      }
      assert spec.aliases[..|spec.aliases|] == spec.aliases;
      var functionRef := Ref(spec.namespace, canonical);
      for i := 0 to |entries|
        invariant entries == old(entries)
        invariant forall k :: 0 <= k < i ==> entries[k].functionRef != functionRef
        invariant forall k :: 0 <= k < i && entries[k].namespace == spec.namespace ==>
          Clear(entries[k], canonical, spec.aliases)
      {
        var e := entries[i];
        RefInjective(e.namespace, e.canonical, spec.namespace, canonical);
        if e.functionRef == functionRef {
          OnlyPosition(entries, i);
          return e == NewEntry(canonical, spec);
        }
        if e.namespace == spec.namespace {
          var clear := Disjoint(e, canonical, spec.aliases);
          if !clear {
            ClashRejected(entries, i, canonical, spec);
            return false;
          }
        }
      }
      assert PositionOf(entries, spec.namespace, canonical) < 0 by {
        forall k | 0 <= k < |entries| ensures !(entries[k].namespace == spec.namespace && entries[k].canonical == canonical) {
          assert EntryFits(entries[k]);
        }
      }
      entries := entries + [NewEntry(canonical, spec)];
      return true;
    }

    /** The nested alias loops against one existing entry. */
    static method Disjoint(e: Entry, canonical: string, aliases: seq<string>) returns (clear: bool)
      ensures clear <==> Clear(e, canonical, aliases)
    {
      if e.canonical == canonical {
        return false;
      }
      for i := 0 to |aliases|
        invariant e.canonical !in aliases[..i]
      {
        if e.canonical == aliases[i] {
          return false;
        }
      }
      for j := 0 to |e.aliases|
        invariant canonical !in e.aliases[..j]
        invariant forall k :: 0 <= k < |aliases| ==> aliases[k] !in e.aliases[..j]
      {
        if e.aliases[j] == canonical {
          return false;
        }
        for i := 0 to |aliases|
          invariant forall k :: 0 <= k < i ==> aliases[k] != e.aliases[j]
        {
          if e.aliases[j] == aliases[i] {
            return false;
          }
        }
      }
      return true;
    }

    method AddAlias(namespace: string, canonical: string, alias: string, policy: string) returns (ok: bool)
      requires Valid()
      modifies this
      ensures Valid()
      ensures ok <==> AliasAccepted(old(entries), namespace, canonical, alias, policy)
      ensures entries == if ok then WithAlias(old(entries), namespace, canonical, alias, policy) else old(entries)
    {
      if namespace == "" || !ValidName(canonical) || !ValidName(alias) || alias == canonical {
        return false;
      }
      for i := 0 to |entries|
        invariant entries == old(entries)
        invariant forall k :: 0 <= k < i ==> !Claims(entries[k], namespace, alias)
      {
        var e := entries[i];
        if e.namespace == namespace && e.canonical == alias {
          CanonicalTaken(entries, i, canonical, alias);
          return false;
        }
        if e.namespace == namespace && alias in e.aliases {
          AliasTaken(entries, i, canonical, alias);
          return e.canonical == canonical && e.aliasPolicy == policy;
        }
      }
      assert !Taken(entries, namespace, alias);
      for i := 0 to |entries|
        invariant entries == old(entries)
        invariant forall k :: 0 <= k < i ==> !(entries[k].namespace == namespace && entries[k].canonical == canonical)
      {
        var e := entries[i];
        if e.namespace == namespace && e.canonical == canonical {
          OnlyPosition(entries, i);
          AliasKeepsSound(entries, i, alias, policy);
          entries := entries[i := e.(aliases := e.aliases + [alias], aliasPolicy := policy)];
          return true;
        }
      }
      return false;
    }

    /** Canonical names first, aliases second; the invariant makes the order irrelevant. */
    method EntryByNamespaceAndName(namespace: string, name: string) returns (found: Option<Entry>)
      requires Valid()
      ensures found.Some? <==> Taken(entries, namespace, name)
      ensures found.Some? ==>
        found.value in entries && forall e :: e in entries && Claims(e, namespace, name) ==> e == found.value
    {
      for i := 0 to |entries|
        invariant forall k :: 0 <= k < i ==> !(entries[k].namespace == namespace && entries[k].canonical == name)
      {
        if entries[i].namespace == namespace && entries[i].canonical == name {
          OneOwner(entries, i, namespace, name);
          return Some(entries[i]);
        }
      }
      for i := 0 to |entries|
        invariant forall k :: 0 <= k < i ==> !Claims(entries[k], namespace, name)
      {
        if entries[i].namespace == namespace && name in entries[i].aliases {
          OneOwner(entries, i, namespace, name);
          return Some(entries[i]);
        }
      }
      return None;
    }

    method FunctionRefs() returns (refs: seq<string>)
      ensures refs == Refs(entries)
    {
      refs := [];
      for i := 0 to |entries|
        invariant refs == Refs(entries)[..i]
      {
        refs := refs + [entries[i].functionRef];
      }
    }
  }

  // ----- why the invariant decides everything -----

  /** Inside a namespace one entry at most owns a name. */
  lemma OneOwner(entries: seq<Entry>, i: nat, namespace: string, name: string)
    requires Sound(entries) && i < |entries| && Claims(entries[i], namespace, name)
    ensures forall k :: 0 <= k < |entries| && Claims(entries[k], namespace, name) ==> k == i
  {
    forall k | 0 <= k < |entries| && k != i ensures !Claims(entries[k], namespace, name) {
      if entries[k].namespace == namespace {
        ClearOfOthers(entries, k, i);
      }
    }
  }

  lemma OnlyPosition(entries: seq<Entry>, i: nat)
    requires Sound(entries) && i < |entries|
    ensures PositionOf(entries, entries[i].namespace, entries[i].canonical) == i
  {
    OneOwner(entries, i, entries[i].namespace, entries[i].canonical);
  }

  /** A clash with any entry rules the declaration out, even if it repeats another one. */
  lemma ClashRejected(entries: seq<Entry>, i: nat, canonical: string, spec: Spec)
    requires Sound(entries) && i < |entries|
    requires entries[i].namespace == spec.namespace && !Clear(entries[i], canonical, spec.aliases)
    requires entries[i].canonical != canonical
    ensures !EntryAccepted(entries, canonical, spec)
  {
    var p := PositionOf(entries, spec.namespace, canonical);
    if p >= 0 {
      ClearOfOthers(entries, i, p);
    }
  }

  lemma ClearOfOthers(entries: seq<Entry>, i: nat, p: nat)
    requires Sound(entries) && i < |entries| && p < |entries| && i != p && entries[i].namespace == entries[p].namespace
    ensures Clear(entries[i], entries[p].canonical, entries[p].aliases)
  {
    if p < i {
      assert Clear(entries[p], entries[i].canonical, entries[i].aliases);
    }
  }

  lemma CanonicalTaken(entries: seq<Entry>, i: nat, canonical: string, alias: string)
    requires Sound(entries) && i < |entries| && entries[i].canonical == alias && alias != canonical
    ensures Taken(entries, entries[i].namespace, alias)
    ensures var p := PositionOf(entries, entries[i].namespace, canonical); p >= 0 ==> alias !in entries[p].aliases
  {
    assert Claims(entries[i], entries[i].namespace, alias);
    OneOwner(entries, i, entries[i].namespace, alias);
  }

  lemma AliasTaken(entries: seq<Entry>, i: nat, canonical: string, alias: string)
    requires Sound(entries) && i < |entries| && alias in entries[i].aliases
    ensures Taken(entries, entries[i].namespace, alias)
    ensures var p := PositionOf(entries, entries[i].namespace, canonical);
            if entries[i].canonical == canonical then p == i else p >= 0 ==> alias !in entries[p].aliases
  {
    assert Claims(entries[i], entries[i].namespace, alias);
    OneOwner(entries, i, entries[i].namespace, alias);
    if entries[i].canonical == canonical {
      OnlyPosition(entries, i);
    }
  }

  lemma AliasKeepsSound(entries: seq<Entry>, i: nat, alias: string, policy: string)
    requires Sound(entries) && i < |entries|
    requires ValidName(alias) && alias != entries[i].canonical && !Taken(entries, entries[i].namespace, alias)
    ensures Sound(entries[i := entries[i].(aliases := entries[i].aliases + [alias], aliasPolicy := policy)])
  {
    var e := entries[i].(aliases := entries[i].aliases + [alias], aliasPolicy := policy);
    var after := entries[i := e];
    forall k | 0 <= k < |entries| && entries[k].namespace == e.namespace
      ensures entries[k].canonical != alias && alias !in entries[k].aliases
    {
      assert !Claims(entries[k], e.namespace, alias);
    }
    assert EntryFits(e) by { assert EntryFits(entries[i]); }
    forall j, k | 0 <= j < k < |after| && after[j].namespace == after[k].namespace
      ensures Clear(after[j], after[k].canonical, after[k].aliases)
    {
      assert Clear(entries[j], entries[k].canonical, entries[k].aliases);
    }
  }

  // ----- whole runs -----

  datatype Op =
    | Declare(canonical: string, spec: Spec)
    | Attach(namespace: string, canonical: string, alias: string, policy: string)

  predicate Accepted(entries: seq<Entry>, op: Op) {
    if op.Declare? then EntryAccepted(entries, op.canonical, op.spec)
    else AliasAccepted(entries, op.namespace, op.canonical, op.alias, op.policy)
  }

  /** A rejected operation stops the program; a run that continues has left the registry alone. */
  function Step(entries: seq<Entry>, op: Op): seq<Entry> {
    if !Accepted(entries, op) then entries
    else if op.Declare? then WithEntry(entries, op.canonical, op.spec)
    else WithAlias(entries, op.namespace, op.canonical, op.alias, op.policy)
  }

  function Run(entries: seq<Entry>, ops: seq<Op>): seq<Entry> {
    if ops == [] then entries
    else Step(Run(entries, ops[..|ops| - 1]), ops[|ops| - 1])
  }

  function Refs(entries: seq<Entry>): (refs: seq<string>)
    ensures |refs| == |entries|
  {
    seq(|entries|, k requires 0 <= k < |entries| => entries[k].functionRef)
  }

  /** What a later registry keeps of an earlier one: every entry stays in place, only its aliases grow, and the alias
      policy changes only when they do. */
  predicate Extends(before: seq<Entry>, after: seq<Entry>) {
    |before| <= |after| && forall i :: 0 <= i < |before| ==> Grows(before[i], after[i])
  }

  predicate Grows(b: Entry, a: Entry) {
    && a == b.(aliases := a.aliases, aliasPolicy := a.aliasPolicy)
    && b.aliases <= a.aliases
    && (|a.aliases| == |b.aliases| ==> a == b)
  }

  lemma StepKeeps(entries: seq<Entry>, op: Op)
    requires Sound(entries)
    ensures Sound(Step(entries, op)) && Extends(entries, Step(entries, op))
  {
    if Accepted(entries, op) {
      if op.Declare? {
        DeclareKeepsSound(entries, op.canonical, op.spec);
      } else {
        var i := PositionOf(entries, op.namespace, op.canonical);
        if op.alias !in entries[i].aliases {
          AliasKeepsSound(entries, i, op.alias, op.policy);
        }
      }
    }
  }

  lemma DeclareKeepsSound(entries: seq<Entry>, canonical: string, spec: Spec)
    requires Sound(entries) && EntryAccepted(entries, canonical, spec)
    ensures Sound(WithEntry(entries, canonical, spec))
  {
  }

  /** Main result: after any sequence of registrations the registry is sound, and it still lists every earlier
      reference, in order. */
  lemma {:induction false} RunKeeps(entries: seq<Entry>, ops: seq<Op>)
    requires Sound(entries)
    ensures Sound(Run(entries, ops)) && Extends(entries, Run(entries, ops))
    ensures Refs(entries) <= Refs(Run(entries, ops))
    decreases |ops|
  {
    if ops != [] {
      var front := Run(entries, ops[..|ops| - 1]);
      RunKeeps(entries, ops[..|ops| - 1]);
      StepKeeps(front, ops[|ops| - 1]);
      forall i | 0 <= i < |entries| ensures Grows(entries[i], Run(entries, ops)[i]) {
        assert Grows(entries[i], front[i]) && Grows(front[i], Run(entries, ops)[i]);
      }
    }
  }

  /** Every public name leads to exactly one entry, and every reference to exactly one entry. */
  lemma Unambiguous(ops: seq<Op>, i: nat, j: nat)
    requires i < |Run([], ops)| && j < |Run([], ops)|
    ensures var es := Run([], ops);
            && (es[i].functionRef == es[j].functionRef <==> i == j)
            && (i != j ==> forall namespace, name :: !(Claims(es[i], namespace, name) && Claims(es[j], namespace, name)))
  {
    var es := Run([], ops);
    RunKeeps([], ops);
    assert EntryFits(es[i]) && EntryFits(es[j]);
    RefInjective(es[i].namespace, es[i].canonical, es[j].namespace, es[j].canonical);
    if i != j {
      forall namespace, name | Claims(es[i], namespace, name) ensures !Claims(es[j], namespace, name) {
        OneOwner(es, i, namespace, name);
      }
      if es[i].functionRef == es[j].functionRef {
        OnlyPosition(es, i);
        OnlyPosition(es, j);
      }
    }
  }

  /** A declaration accepted once is accepted again after any further registrations exactly when no alias has been
      attached to its entry since; accepted again, it changes nothing. */
  lemma RepeatExactly(entries: seq<Entry>, canonical: string, spec: Spec, ops: seq<Op>)
    requires Sound(entries) && EntryAccepted(entries, canonical, spec)
    ensures var first := WithEntry(entries, canonical, spec);
            var i := PositionOf(first, spec.namespace, canonical);
            var later := Run(first, ops);
            && 0 <= i < |later|
            && (EntryAccepted(later, canonical, spec) <==> |later[i].aliases| == |spec.aliases|)
            && (EntryAccepted(later, canonical, spec) ==> WithEntry(later, canonical, spec) == later)
  {
    var first := WithEntry(entries, canonical, spec);
    DeclareKeepsSound(entries, canonical, spec);
    DeclaredEntry(entries, canonical, spec);
    RunKeeps(first, ops);
    var i, later := PositionOf(first, spec.namespace, canonical), Run(first, ops);
    assert Grows(first[i], later[i]);
    OnlyPosition(later, i);
  }

  /** After an accepted declaration its entry is exactly the declared one. */
  lemma DeclaredEntry(entries: seq<Entry>, canonical: string, spec: Spec)
    requires Sound(entries) && EntryAccepted(entries, canonical, spec)
    ensures var first := WithEntry(entries, canonical, spec);
            var i := PositionOf(first, spec.namespace, canonical);
            i >= 0 && first[i] == NewEntry(canonical, spec)
  {
    if PositionOf(entries, spec.namespace, canonical) < 0 {
      DeclareKeepsSound(entries, canonical, spec);
      OnlyPosition(WithEntry(entries, canonical, spec), |entries|);
    }
  }

  /** An alias accepted once is accepted again exactly while its policy is still the entry's latest: attaching another
      alias under another policy makes the repeat fail. */
  lemma AliasRepeatExactly(
      entries: seq<Entry>, namespace: string, canonical: string, alias: string, policy: string, ops: seq<Op>)
    requires Sound(entries) && AliasAccepted(entries, namespace, canonical, alias, policy)
    ensures var first := WithAlias(entries, namespace, canonical, alias, policy);
            var i := PositionOf(entries, namespace, canonical);
            var later := Run(first, ops);
            && 0 <= i < |later|
            && (AliasAccepted(later, namespace, canonical, alias, policy) <==> later[i].aliasPolicy == policy)
  {
    var op := Attach(namespace, canonical, alias, policy);
    var first := WithAlias(entries, namespace, canonical, alias, policy);
    var i := PositionOf(entries, namespace, canonical);
    StepKeeps(entries, op);
    assert first == Step(entries, op);
    RunKeeps(first, ops);
    var later := Run(first, ops);
    assert alias in first[i].aliases;
    assert Grows(first[i], later[i]);
    assert alias in later[i].aliases by {
      var k :| 0 <= k < |first[i].aliases| && first[i].aliases[k] == alias;
      assert later[i].aliases[k] == alias;
    }
    OnlyPosition(later, i);
    assert Claims(later[i], namespace, alias);
  }
}
