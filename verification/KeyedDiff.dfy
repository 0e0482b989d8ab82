/** The one algorithm behind every family of src/plan_diff.incn: look items up by key, compare signatures, report
    removals and changes in before-order, then additions in after-order. */
module KeyedDiff {
  import opened Names
  import opened Wrappers

  datatype Family =
    | ArtifactCompatibility | OutputField | OutputSchema | PlanNode | LineageFamily | MetadataAttachment
    | GovernedAttribute | PolicyCheckpoint | AdapterRequirement | CoverageRecord | QualityAssertion
    | QualityObservation | ExecutionObservation | BundleSection | UnsupportedEvidence | EvidenceReference

  datatype Kind = Added | Removed | Changed | Renamed | Unchanged | Unknown
  datatype Compatibility = Compatible | PotentiallyBreaking | Breaking | UnknownCompatibility
  datatype Confidence = Exact | Conservative | UnknownConfidence

  datatype Target = Target(id: string, kind: string, name: string)

  datatype Record = Record(
    family: Family, kind: Kind, compatibility: Compatibility, confidence: Confidence, name: string,
    target: Option<Target>, beforeId: Option<string>, afterId: Option<string>,
    beforeValue: string, afterValue: string, reason: string, refs: seq<string>)

  /** How one family names, compares and reports its items. */
  datatype Reporter<!T> = Reporter(
    key: T -> string,
    signature: T -> string,
    removed: T -> Record,
    added: T -> Record,
    changed: (T, T) -> Record)

  // ----- lookup -----

  function FirstMatch<T>(r: Reporter<T>, items: seq<T>, k: string): (m: Option<T>)
    ensures m.Some? ==> r.key(m.value) == k && exists i :: 0 <= i < |items| && items[i] == m.value
    ensures m.None? ==> forall i :: 0 <= i < |items| ==> r.key(items[i]) != k
  {
    if items == [] then None
    else
      var n := |items| - 1;
      var front := FirstMatch(r, items[..n], k);
      assert items == items[..n] + [items[n]];
      if front.Some? then front else if r.key(items[n]) == k then Some(items[n]) else None
  }

  function LastMatch<T>(r: Reporter<T>, items: seq<T>, k: string): (m: Option<T>)
    ensures m.Some? <==> FirstMatch(r, items, k).Some?
    ensures m.Some? ==> r.key(m.value) == k
  {
    if items == [] then None
    else
      var n := |items| - 1;
      if r.key(items[n]) == k then Some(items[n]) else LastMatch(r, items[..n], k)
  }

  lemma {:induction false} FirstMatchStays<T>(r: Reporter<T>, items: seq<T>, i: nat, k: string)
    requires i <= |items| && FirstMatch(r, items[..i], k).Some?
    ensures FirstMatch(r, items, k) == FirstMatch(r, items[..i], k)
    decreases |items|
  {
    var n := |items| - 1;
    if i == |items| {
      assert items[..i] == items;
    } else {
      assert items[..n][..i] == items[..i];
      FirstMatchStays(r, items[..n], i, k);
    }
  }

  method FindByKey<T>(r: Reporter<T>, items: seq<T>, k: string) returns (m: Option<T>)
    ensures m == FirstMatch(r, items, k)
  {
    for i := 0 to |items|
      invariant FirstMatch(r, items[..i], k).None?
    {
      assert items[..i + 1][..i] == items[..i];
      if r.key(items[i]) == k {
        FirstMatchStays(r, items, i + 1, k);
        return Some(items[i]);
      }
    }
    assert items[..|items|] == items;
    return None;
  }

  // ----- the two passes -----

  function ReportBefore<T>(r: Reporter<T>, before: T, after: seq<T>): seq<Record> {
    match FirstMatch(r, after, r.key(before))
    case None => [r.removed(before)]
    case Some(a) => if r.signature(before) != r.signature(a) then [r.changed(before, a)] else []
  }

  function FirstPass<T>(r: Reporter<T>, before: seq<T>, after: seq<T>): seq<Record> {
    if before == [] then []
    else
      var n := |before| - 1;
      FirstPass(r, before[..n], after) + ReportBefore(r, before[n], after)
  }

  function ReportAfter<T>(r: Reporter<T>, before: seq<T>, after: T): seq<Record> {
    if FirstMatch(r, before, r.key(after)).None? then [r.added(after)] else []
  }

  function SecondPass<T>(r: Reporter<T>, before: seq<T>, after: seq<T>): seq<Record> {
    if after == [] then []
    else
      var n := |after| - 1;
      SecondPass(r, before, after[..n]) + ReportAfter(r, before, after[n])
  }

  function Diff<T>(r: Reporter<T>, before: seq<T>, after: seq<T>): seq<Record> {
    FirstPass(r, before, after) + SecondPass(r, before, after)
  }

  method CompareLists<T>(r: Reporter<T>, before: seq<T>, after: seq<T>) returns (records: seq<Record>)
    ensures records == Diff(r, before, after)
  {
    records := [];
    for i := 0 to |before|
      invariant records == FirstPass(r, before[..i], after)
    {
      assert before[..i + 1][..i] == before[..i];
      var found := FindByKey(r, after, r.key(before[i]));
      if found.None? {
        records := records + [r.removed(before[i])];
      } else if r.signature(before[i]) != r.signature(found.value) {
        records := records + [r.changed(before[i], found.value)];
      }
    }
    assert before[..|before|] == before;
    ghost var first := records;
    for j := 0 to |after|
      invariant records == first + SecondPass(r, before, after[..j])
    {
      assert after[..j + 1][..j] == after[..j];
      var found := FindByKey(r, before, r.key(after[j]));
      if found.None? {
        records := records + [r.added(after[j])];
      }
    }
    assert after[..|after|] == after;
  }

  // ----- replaying records -----

  type Facts = map<string, string>

  function Replayed(facts: Facts, rec: Record): Facts {
    if rec.kind == Removed then facts - {rec.name}
    else if rec.kind == Added || rec.kind == Changed then facts[rec.name := rec.afterValue]
    else facts
  }

  function Replay(facts: Facts, records: seq<Record>): Facts {
    if records == [] then facts
    else
      var n := |records| - 1;
      Replayed(Replay(facts, records[..n]), records[n])
  }

  lemma {:induction false} ReplayAppend(facts: Facts, a: seq<Record>, b: seq<Record>)
    ensures Replay(facts, a + b) == Replay(Replay(facts, a), b)
    decreases |b|
  {
    if b == [] {
      assert a + b == a;
    } else {
      assert (a + b)[..|a + b| - 1] == a + b[..|b| - 1];
      ReplayAppend(facts, a, b[..|b| - 1]);
    }
  }

  function At(facts: Facts, k: string): Option<string> {
    if k in facts then Some(facts[k]) else None
  }

  function FirstSignature<T>(r: Reporter<T>, items: seq<T>, k: string): Option<string> {
    var m := FirstMatch(r, items, k);
    if m.Some? then Some(r.signature(m.value)) else None
  }

  function KeySet<T>(r: Reporter<T>, items: seq<T>): (s: set<string>)
    ensures forall k :: k in s <==> FirstMatch(r, items, k).Some?
  {
    set i | 0 <= i < |items| :: r.key(items[i])
  }

  /** Name-to-signature map of a list; lookups take the first match. */
  function FactsOf<T>(r: Reporter<T>, items: seq<T>): (facts: Facts)
    ensures forall k :: At(facts, k) == FirstSignature(r, items, k)
  {
    map k | k in KeySet(r, items) :: FirstSignature(r, items, k).value
  }

  /** Records carry the right kind and key, and a change carries both signatures. */
  ghost predicate Named<T(!new)>(r: Reporter<T>) {
    && (forall x {:trigger r.removed(x)} :: r.removed(x).kind == Removed && r.removed(x).name == r.key(x))
    && (forall x {:trigger r.added(x)} :: r.added(x).kind == Added && r.added(x).name == r.key(x))
    && (forall x, y {:trigger r.changed(x, y)} ::
          var c := r.changed(x, y);
          c.kind == Changed && c.name == r.key(x)
          && c.beforeValue == r.signature(x) && c.afterValue == r.signature(y))
  }

  /** Additions and removals carry the signature too. */
  ghost predicate Valued<T(!new)>(r: Reporter<T>) {
    && Named(r)
    && (forall x {:trigger r.removed(x)} ::
          r.removed(x).beforeValue == r.signature(x) && r.removed(x).afterValue == "")
    && (forall x {:trigger r.added(x)} :: r.added(x).beforeValue == "" && r.added(x).afterValue == r.signature(x))
  }

  /** Some item with this key differs from what the other list has for it. */
  predicate Differs<T>(r: Reporter<T>, before: seq<T>, after: seq<T>, k: string) {
    exists i :: 0 <= i < |before| && r.key(before[i]) == k
             && FirstSignature(r, after, k) != Some(r.signature(before[i]))
  }

  lemma {:induction false} FirstPassAt<T(!new)>(r: Reporter<T>, before: seq<T>, after: seq<T>, facts: Facts, k: string)
    requires Named(r)
    ensures At(Replay(facts, FirstPass(r, before, after)), k)
         == if Differs(r, before, after, k) then FirstSignature(r, after, k) else At(facts, k)
    decreases |before|
  {
    if before != [] {
      var n := |before| - 1;
      var b := before[n];
      FirstPassAt(r, before[..n], after, facts, k);
      var front, last := FirstPass(r, before[..n], after), ReportBefore(r, b, after);
      ReplayAppend(facts, front, last);
      DiffersLast(r, before, after, k);
      ReportBeforeAt(r, b, after, Replay(facts, front), k);
    }
  }

  lemma ReplayOne(facts: Facts, rec: Record)
    ensures Replay(facts, [rec]) == Replayed(facts, rec)
  {
    assert [rec][..0] == [];
  }

  lemma ReportBeforeAt<T(!new)>(r: Reporter<T>, b: T, after: seq<T>, facts: Facts, k: string)
    requires Named(r)
    ensures At(Replay(facts, ReportBefore(r, b, after)), k)
         == if r.key(b) == k && FirstSignature(r, after, k) != Some(r.signature(b)) then FirstSignature(r, after, k)
            else At(facts, k)
  {
    var found := FirstMatch(r, after, r.key(b));
    if found.None? {
      ReplayOne(facts, r.removed(b));
    } else if r.signature(b) != r.signature(found.value) {
      ReplayOne(facts, r.changed(b, found.value));
    }
  }

  lemma ReportAfterAt<T(!new)>(r: Reporter<T>, before: seq<T>, a: T, facts: Facts, k: string)
    requires Named(r)
    ensures At(Replay(facts, ReportAfter(r, before, a)), k)
         == if r.key(a) == k && FirstMatch(r, before, k).None? then Some(r.added(a).afterValue) else At(facts, k)
  {
    if FirstMatch(r, before, r.key(a)).None? {
      ReplayOne(facts, r.added(a));
    }
  }

  lemma DiffersLast<T>(r: Reporter<T>, before: seq<T>, after: seq<T>, k: string)
    requires before != []
    ensures var n := |before| - 1;
            Differs(r, before, after, k)
            <==> Differs(r, before[..n], after, k)
                 || (r.key(before[n]) == k && FirstSignature(r, after, k) != Some(r.signature(before[n])))
  {
    var n := |before| - 1;
    if Differs(r, before[..n], after, k) {
      var i :| 0 <= i < n && r.key(before[..n][i]) == k && FirstSignature(r, after, k) != Some(r.signature(before[..n][i]));
      assert r.key(before[i]) == k;
    }
    if Differs(r, before, after, k) {
      var i :| 0 <= i < |before| && r.key(before[i]) == k && FirstSignature(r, after, k) != Some(r.signature(before[i]));
      assert i < n ==> before[..n][i] == before[i];
    }
  }

  lemma {:induction false} SecondPassAt<T(!new)>(r: Reporter<T>, before: seq<T>, after: seq<T>, facts: Facts, k: string)
    requires Named(r)
    ensures At(Replay(facts, SecondPass(r, before, after)), k)
         == if FirstMatch(r, before, k).Some? || LastMatch(r, after, k).None? then At(facts, k)
            else Some(r.added(LastMatch(r, after, k).value).afterValue)
    decreases |after|
  {
    if after != [] {
      var n := |after| - 1;
      SecondPassAt(r, before, after[..n], facts, k);
      var front, last := SecondPass(r, before, after[..n]), ReportAfter(r, before, after[n]);
      ReplayAppend(facts, front, last);
      ReportAfterAt(r, before, after[n], Replay(facts, front), k);
    }
  }

  /** What replaying a diff on the before facts yields, key by key: the after signature wherever the key was there
      before, and otherwise whatever the record of the last addition shows. */
  lemma ReplayedAt<T(!new)>(r: Reporter<T>, before: seq<T>, after: seq<T>, k: string)
    requires Named(r)
    ensures At(Replay(FactsOf(r, before), Diff(r, before, after)), k)
         == if FirstMatch(r, before, k).Some? || FirstMatch(r, after, k).None? then FirstSignature(r, after, k)
            else Some(r.added(LastMatch(r, after, k).value).afterValue)
  {
    var facts, first := FactsOf(r, before), FirstPass(r, before, after);
    ReplayAppend(facts, first, SecondPass(r, before, after));
    FirstPassAt(r, before, after, facts, k);
    SecondPassAt(r, before, after, Replay(facts, first), k);
    if !Differs(r, before, after, k) && FirstMatch(r, before, k).Some? {
      var b := FirstMatch(r, before, k).value;
      var i :| 0 <= i < |before| && before[i] == b;
      assert r.key(before[i]) == k;
    }
  }

  /** Every name new in `after` shows one signature, whichever occurrence is asked. */
  predicate AddedOnceOver<T>(r: Reporter<T>, before: seq<T>, after: seq<T>) {
    forall k :: k in KeySet(r, after) - KeySet(r, before) ==>
      FirstSignature(r, after, k) == Some(r.signature(LastMatch(r, after, k).value))
  }

  /** Main result: replaying the records of a diff on the before artifact gives the after artifact's facts, exactly
      when no newly added name shows two signatures. */
  lemma ReplayExact<T(!new)>(r: Reporter<T>, before: seq<T>, after: seq<T>)
    requires Valued(r)
    ensures Replay(FactsOf(r, before), Diff(r, before, after)) == FactsOf(r, after) <==> AddedOnceOver(r, before, after)
  {
    var result, goal := Replay(FactsOf(r, before), Diff(r, before, after)), FactsOf(r, after);
    forall k ensures At(result, k) == At(goal, k)
                 <==> !(k in KeySet(r, after) - KeySet(r, before))
                      || FirstSignature(r, after, k) == Some(r.signature(LastMatch(r, after, k).value))
    {
      ReplayedAt(r, before, after, k);
    }
    SameFacts(result, goal);
  }

  lemma SameFacts(a: Facts, b: Facts)
    ensures a == b <==> forall k :: At(a, k) == At(b, k)
  {
    if forall k :: At(a, k) == At(b, k) {
      forall k ensures k in a <==> k in b {
        assert At(a, k) == At(b, k);
      }
      forall k | k in a ensures a[k] == b[k] {
        assert At(a, k) == At(b, k);
      }
    }
  }

  /** Pairwise-distinct keys are enough. */
  lemma DistinctKeysReplay<T(!new)>(r: Reporter<T>, before: seq<T>, after: seq<T>)
    requires Valued(r) && DistinctKeys(r, after)
    ensures Replay(FactsOf(r, before), Diff(r, before, after)) == FactsOf(r, after)
  {
    forall k | k in KeySet(r, after) ensures FirstMatch(r, after, k) == LastMatch(r, after, k) {
      OnlyMatch(r, after, k);
    }
    ReplayExact(r, before, after);
  }

  predicate DistinctKeys<T>(r: Reporter<T>, items: seq<T>) {
    forall i, j :: 0 <= i < j < |items| ==> r.key(items[i]) != r.key(items[j])
  }

  lemma {:induction false} OnlyMatch<T>(r: Reporter<T>, items: seq<T>, k: string)
    requires DistinctKeys(r, items)
    ensures FirstMatch(r, items, k) == LastMatch(r, items, k)
    decreases |items|
  {
    if items != [] {
      var n := |items| - 1;
      OnlyMatch(r, items[..n], k);
      if FirstMatch(r, items[..n], k).Some? {
        var i :| 0 <= i < n && items[..n][i] == FirstMatch(r, items[..n], k).value;
        assert r.key(items[i]) != r.key(items[n]);
      }
    }
  }

  // ----- emptiness -----

  predicate Kept<T>(r: Reporter<T>, before: seq<T>, after: seq<T>) {
    forall i :: 0 <= i < |before| ==> FirstSignature(r, after, r.key(before[i])) == Some(r.signature(before[i]))
  }

  predicate Known<T>(r: Reporter<T>, before: seq<T>, after: seq<T>) {
    forall j :: 0 <= j < |after| ==> FirstMatch(r, before, r.key(after[j])).Some?
  }

  lemma {:induction false} FirstPassEmpty<T>(r: Reporter<T>, before: seq<T>, after: seq<T>)
    ensures FirstPass(r, before, after) == [] <==> Kept(r, before, after)
    decreases |before|
  {
    if before != [] {
      var n := |before| - 1;
      FirstPassEmpty(r, before[..n], after);
      assert forall i :: 0 <= i < n ==> before[..n][i] == before[i];
    }
  }

  lemma {:induction false} SecondPassEmpty<T>(r: Reporter<T>, before: seq<T>, after: seq<T>)
    ensures SecondPass(r, before, after) == [] <==> Known(r, before, after)
    decreases |after|
  {
    if after != [] {
      var n := |after| - 1;
      SecondPassEmpty(r, before, after[..n]);
      assert forall i :: 0 <= i < n ==> after[..n][i] == after[i];
    }
  }

  /** No record exactly when every before item shows the signature the after list has for its key, and every after key
      was there before. */
  lemma EmptyExactly<T>(r: Reporter<T>, before: seq<T>, after: seq<T>)
    ensures Diff(r, before, after) == [] <==> Kept(r, before, after) && Known(r, before, after)
  {
    FirstPassEmpty(r, before, after);
    SecondPassEmpty(r, before, after);
  }

  /** A list compared with itself is silent exactly when equal keys show equal signatures. */
  lemma SelfDiff<T>(r: Reporter<T>, items: seq<T>)
    ensures Diff(r, items, items) == []
      <==> forall i, j :: 0 <= i < |items| && 0 <= j < |items| && r.key(items[i]) == r.key(items[j])
             ==> r.signature(items[i]) == r.signature(items[j])
  {
    EmptyExactly(r, items, items);
    if Kept(r, items, items) {
      forall i, j | 0 <= i < |items| && 0 <= j < |items| && r.key(items[i]) == r.key(items[j])
        ensures r.signature(items[i]) == r.signature(items[j])
      {
        assert FirstSignature(r, items, r.key(items[i])) == Some(r.signature(items[j]));
      }
    }
  }

  /** Under distinct before-keys, an empty diff means equal facts. */
  lemma EmptyMeansSameFacts<T>(r: Reporter<T>, before: seq<T>, after: seq<T>)
    requires DistinctKeys(r, before)
    ensures Diff(r, before, after) == [] <==> FactsOf(r, before) == FactsOf(r, after)
  {
    EmptyExactly(r, before, after);
    SameFacts(FactsOf(r, before), FactsOf(r, after));
    if Kept(r, before, after) && Known(r, before, after) {
      forall k ensures FirstSignature(r, before, k) == FirstSignature(r, after, k) {
        KeptSignature(r, before, after, k);
      }
    }
    if FactsOf(r, before) == FactsOf(r, after) {
      SameFactsKept(r, before, after);
    }
  }

  lemma KeptSignature<T>(r: Reporter<T>, before: seq<T>, after: seq<T>, k: string)
    requires Kept(r, before, after) && Known(r, before, after)
    ensures FirstSignature(r, before, k) == FirstSignature(r, after, k)
  {
    if FirstMatch(r, before, k).Some? {
      var i :| 0 <= i < |before| && before[i] == FirstMatch(r, before, k).value;
      assert FirstSignature(r, after, r.key(before[i])) == Some(r.signature(before[i]));
    }
  }

  lemma SameFactsKept<T>(r: Reporter<T>, before: seq<T>, after: seq<T>)
    requires DistinctKeys(r, before) && forall k :: FirstSignature(r, before, k) == FirstSignature(r, after, k)
    ensures Kept(r, before, after) && Known(r, before, after)
  {
    forall i | 0 <= i < |before| ensures FirstSignature(r, after, r.key(before[i])) == Some(r.signature(before[i])) {
      FirstIsSelf(r, before, i);
      assert FirstSignature(r, before, r.key(before[i])) == FirstSignature(r, after, r.key(before[i]));
    }
    forall j | 0 <= j < |after| ensures FirstMatch(r, before, r.key(after[j])).Some? {
      assert FirstSignature(r, before, r.key(after[j])) == FirstSignature(r, after, r.key(after[j]));
    }
  }

  lemma FirstIsSelf<T>(r: Reporter<T>, items: seq<T>, i: nat)
    requires DistinctKeys(r, items) && i < |items|
    ensures FirstMatch(r, items, r.key(items[i])) == Some(items[i])
  {
    var m := FirstMatch(r, items, r.key(items[i]));
    var j :| 0 <= j < |items| && items[j] == m.value;
    assert r.key(items[j]) == r.key(items[i]);
  }

  // ----- symmetry -----

  /** What a record says about the two artifacts, without wording and ids. */
  datatype Core = Core(family: Family, kind: Kind, name: string, beforeValue: string, afterValue: string)

  function CoreOf(rec: Record): Core {
    Core(rec.family, rec.kind, rec.name, rec.beforeValue, rec.afterValue)
  }

  /** Added and removed exchanged, before and after exchanged; a rename is named after both. */
  function Mirrored(c: Core): Core {
    Core(c.family,
         if c.kind == Added then Removed else if c.kind == Removed then Added else c.kind,
         if c.kind == Renamed then c.afterValue + "->" + c.beforeValue else c.name,
         c.afterValue, c.beforeValue)
  }

  function CoreList(records: seq<Record>): (cores: seq<Core>)
    ensures |cores| == |records|
  {
    seq(|records|, k requires 0 <= k < |records| => CoreOf(records[k]))
  }

  function MirroredList(records: seq<Record>): (cores: seq<Core>)
    ensures |cores| == |records|
  {
    seq(|records|, k requires 0 <= k < |records| => Mirrored(CoreOf(records[k])))
  }

  function Cores(records: seq<Record>): multiset<Core> {
    multiset(CoreList(records))
  }

  function MirroredCores(records: seq<Record>): multiset<Core> {
    multiset(MirroredList(records))
  }

  lemma CoresAppend(a: seq<Record>, b: seq<Record>)
    ensures Cores(a + b) == Cores(a) + Cores(b)
    ensures MirroredCores(a + b) == MirroredCores(a) + MirroredCores(b)
  {
    assert CoreList(a + b) == CoreList(a) + CoreList(b);
    assert MirroredList(a + b) == MirroredList(a) + MirroredList(b);
  }

  lemma OneCore(rec: Record)
    ensures Cores([rec]) == multiset{CoreOf(rec)}
    ensures MirroredCores([rec]) == multiset{Mirrored(CoreOf(rec))}
  {
    assert CoreList([rec]) == [CoreOf(rec)] && MirroredList([rec]) == [Mirrored(CoreOf(rec))];
  }

  /** Two record lists are mirror images, up to order. */
  ghost predicate MirrorImages(a: seq<Record>, b: seq<Record>) {
    Cores(a) == MirroredCores(b)
  }

  lemma ImagesAppend(a: seq<Record>, b: seq<Record>, c: seq<Record>, d: seq<Record>)
    requires MirrorImages(a, b) && MirrorImages(c, d)
    ensures MirrorImages(a + c, b + d)
  {
    CoresAppend(a, c);
    CoresAppend(b, d);
  }

  lemma ImagesOne(a: Record, b: Record)
    requires CoreOf(a) == Mirrored(CoreOf(b))
    ensures MirrorImages([a], [b])
  {
    OneCore(a);
    OneCore(b);
  }

  /** The reporter of the swapped comparison: what one calls added the other calls removed, and a changed pair is
      reported under its key with both signatures. */
  ghost predicate Mirrors<T(!new)>(r: Reporter<T>, s: Reporter<T>, family: Family) {
    && (forall x {:trigger r.key(x)} {:trigger s.key(x)} :: s.key(x) == r.key(x))
    && (forall x {:trigger r.signature(x)} {:trigger s.signature(x)} :: s.signature(x) == r.signature(x))
    && (forall x {:trigger s.removed(x)} {:trigger r.added(x)} ::
          CoreOf(s.removed(x)) == Mirrored(CoreOf(r.added(x))))
    && (forall x {:trigger s.added(x)} {:trigger r.removed(x)} ::
          CoreOf(s.added(x)) == Mirrored(CoreOf(r.removed(x))))
    && ReportsPairs(r, family) && ReportsPairs(s, family)
  }

  ghost predicate ReportsPairs<T(!new)>(r: Reporter<T>, family: Family) {
    forall x, y {:trigger r.changed(x, y)} ::
      CoreOf(r.changed(x, y)) == Core(family, Changed, r.key(x), r.signature(x), r.signature(y))
  }

  // ----- removals and additions -----

  function RemovalOf<T>(r: Reporter<T>, before: T, after: seq<T>): seq<Record> {
    if FirstMatch(r, after, r.key(before)).None? then [r.removed(before)] else []
  }

  function ChangeOf<T>(r: Reporter<T>, before: T, after: seq<T>): seq<Record> {
    match FirstMatch(r, after, r.key(before))
    case None => []
    case Some(a) => if r.signature(before) != r.signature(a) then [r.changed(before, a)] else []
  }

  function Removals<T>(r: Reporter<T>, before: seq<T>, after: seq<T>): seq<Record> {
    if before == [] then []
    else Removals(r, before[..|before| - 1], after) + RemovalOf(r, before[|before| - 1], after)
  }

  function Changes<T>(r: Reporter<T>, before: seq<T>, after: seq<T>): seq<Record> {
    if before == [] then []
    else Changes(r, before[..|before| - 1], after) + ChangeOf(r, before[|before| - 1], after)
  }

  /** The first pass is its removals and its changes, up to order. */
  lemma {:induction false} FirstPassParts<T>(r: Reporter<T>, before: seq<T>, after: seq<T>)
    ensures Cores(FirstPass(r, before, after)) == Cores(Removals(r, before, after)) + Cores(Changes(r, before, after))
    ensures MirroredCores(FirstPass(r, before, after))
         == MirroredCores(Removals(r, before, after)) + MirroredCores(Changes(r, before, after))
    decreases |before|
  {
    if before != [] {
      var n := |before| - 1;
      FirstPassParts(r, before[..n], after);
      assert ReportBefore(r, before[n], after) == RemovalOf(r, before[n], after) + ChangeOf(r, before[n], after);
      PartsAppend(FirstPass(r, before[..n], after), Removals(r, before[..n], after), Changes(r, before[..n], after),
                  RemovalOf(r, before[n], after), ChangeOf(r, before[n], after));
    }
  }

  lemma PartsAppend(whole: seq<Record>, a: seq<Record>, b: seq<Record>, c: seq<Record>, d: seq<Record>)
    requires Cores(whole) == Cores(a) + Cores(b) && MirroredCores(whole) == MirroredCores(a) + MirroredCores(b)
    ensures Cores(whole + (c + d)) == Cores(a + c) + Cores(b + d)
    ensures MirroredCores(whole + (c + d)) == MirroredCores(a + c) + MirroredCores(b + d)
  {
    CoresAppend(whole, c + d);
    CoresAppend(c, d);
    CoresAppend(a, c);
    CoresAppend(b, d);
    Regroup(Cores(a), Cores(b), Cores(c), Cores(d));
    Regroup(MirroredCores(a), MirroredCores(b), MirroredCores(c), MirroredCores(d));
  }

  lemma Regroup(a: multiset<Core>, b: multiset<Core>, c: multiset<Core>, d: multiset<Core>)
    ensures (a + b) + (c + d) == (a + c) + (b + d)
  {
  }

  lemma {:induction false} SameMatch<T(!new)>(r: Reporter<T>, s: Reporter<T>, family: Family, items: seq<T>, k: string)
    requires Mirrors(r, s, family)
    ensures FirstMatch(s, items, k) == FirstMatch(r, items, k)
    decreases |items|
  {
    if items != [] {
      SameMatch(r, s, family, items[..|items| - 1], k);
      assert s.key(items[|items| - 1]) == r.key(items[|items| - 1]);
    }
  }

  /** What the swapped comparison removes is what the comparison adds. */
  lemma {:induction false} RemovalsMirror<T(!new)>(
      r: Reporter<T>, s: Reporter<T>, family: Family, before: seq<T>, after: seq<T>)
    requires Mirrors(r, s, family)
    ensures MirrorImages(Removals(s, after, before), SecondPass(r, before, after))
    decreases |after|
  {
    if after != [] {
      var n := |after| - 1;
      RemovalsMirror(r, s, family, before, after[..n]);
      assert s.key(after[n]) == r.key(after[n]);
      SameMatch(r, s, family, before, r.key(after[n]));
      if FirstMatch(r, before, r.key(after[n])).None? {
        ImagesOne(s.removed(after[n]), r.added(after[n]));
      }
      ImagesAppend(Removals(s, after[..n], before), SecondPass(r, before, after[..n]),
                   RemovalOf(s, after[n], before), ReportAfter(r, before, after[n]));
    }
  }

  /** What the swapped comparison adds is what the comparison removes. */
  lemma {:induction false} AdditionsMirror<T(!new)>(
      r: Reporter<T>, s: Reporter<T>, family: Family, before: seq<T>, after: seq<T>)
    requires Mirrors(r, s, family)
    ensures MirrorImages(SecondPass(s, after, before), Removals(r, before, after))
    decreases |before|
  {
    if before != [] {
      var n := |before| - 1;
      AdditionsMirror(r, s, family, before[..n], after);
      assert s.key(before[n]) == r.key(before[n]);
      SameMatch(r, s, family, after, r.key(before[n]));
      if FirstMatch(r, after, r.key(before[n])).None? {
        ImagesOne(s.added(before[n]), r.removed(before[n]));
      }
      ImagesAppend(SecondPass(s, after, before[..n]), Removals(r, before[..n], after),
                   ReportAfter(s, after, before[n]), RemovalOf(r, before[n], after));
    }
  }

  // ----- changes -----

  /** How many items show this signature under this key. */
  function Shows<T>(r: Reporter<T>, items: seq<T>, k: string, v: string): (n: nat)
    ensures n > 0 <==> exists i :: 0 <= i < |items| && r.key(items[i]) == k && r.signature(items[i]) == v
  {
    if items == [] then 0
    else
      var n := |items| - 1;
      assert items == items[..n] + [items[n]];
      Shows(r, items[..n], k, v) + if r.key(items[n]) == k && r.signature(items[n]) == v then 1 else 0
  }

  lemma ChangeCount<T(!new)>(r: Reporter<T>, family: Family, b: T, after: seq<T>, c: Core)
    requires ReportsPairs(r, family)
    ensures Cores(ChangeOf(r, b, after))[c]
         == if r.key(b) == c.name && r.signature(b) == c.beforeValue && c.family == family && c.kind == Changed
               && c.beforeValue != c.afterValue && FirstSignature(r, after, c.name) == Some(c.afterValue)
            then 1 else 0
  {
    var found := FirstMatch(r, after, r.key(b));
    if found.Some? && r.signature(b) != r.signature(found.value) {
      OneCore(r.changed(b, found.value));
    }
  }

  /** Every item is compared with the first item of its key on the other side. */
  function ChangeTally<T>(r: Reporter<T>, before: seq<T>, after: seq<T>, k: string, v: string, w: string): nat {
    if v != w && FirstSignature(r, after, k) == Some(w) then Shows(r, before, k, v) else 0
  }

  lemma {:induction false} ChangesCount<T(!new)>(
      r: Reporter<T>, family: Family, before: seq<T>, after: seq<T>, c: Core)
    requires ReportsPairs(r, family)
    ensures Cores(Changes(r, before, after))[c]
         == if c.family == family && c.kind == Changed
            then ChangeTally(r, before, after, c.name, c.beforeValue, c.afterValue) else 0
    decreases |before|
  {
    if before != [] {
      var n := |before| - 1;
      ChangesCount(r, family, before[..n], after, c);
      CoresAppend(Changes(r, before[..n], after), ChangeOf(r, before[n], after));
      ChangeCount(r, family, before[n], after, c);
    }
  }

  lemma {:induction false} MirroredCount(records: seq<Record>, c: Core)
    requires forall k :: 0 <= k < |records| ==> records[k].kind == Changed
    ensures MirroredCores(records)[c] == if c.kind == Changed then Cores(records)[Mirrored(c)] else 0
    decreases |records|
  {
    if records != [] {
      var front, last := records[..|records| - 1], records[|records| - 1];
      assert records == front + [last];
      MirroredCount(front, c);
      CoresAppend(front, [last]);
      OneCore(last);
    }
  }

  lemma {:induction false} ChangesChange<T(!new)>(r: Reporter<T>, family: Family, before: seq<T>, after: seq<T>)
    requires ReportsPairs(r, family)
    ensures forall k :: 0 <= k < |Changes(r, before, after)| ==> Changes(r, before, after)[k].kind == Changed
    decreases |before|
  {
    if before != [] {
      ChangesChange(r, family, before[..|before| - 1], after);
      var found := FirstMatch(r, after, r.key(before[|before| - 1]));
      if found.Some? {
        assert CoreOf(r.changed(before[|before| - 1], found.value)).kind == Changed;
      }
    }
  }

  lemma SameSignature<T(!new)>(
      r: Reporter<T>, s: Reporter<T>, family: Family, items: seq<T>, k: string)
    requires Mirrors(r, s, family)
    ensures FirstSignature(s, items, k) == FirstSignature(r, items, k)
  {
    SameMatch(r, s, family, items, k);
    var found := FirstMatch(r, items, k);
    if found.Some? {
      assert s.signature(found.value) == r.signature(found.value);
    }
  }

  lemma {:induction false} SameShows<T(!new)>(
      r: Reporter<T>, s: Reporter<T>, family: Family, items: seq<T>, k: string, v: string)
    requires Mirrors(r, s, family)
    ensures Shows(s, items, k, v) == Shows(r, items, k, v)
  {
    if items != [] {
      var n := |items| - 1;
      SameShows(r, s, family, items[..n], k, v);
      assert s.key(items[n]) == r.key(items[n]) && s.signature(items[n]) == r.signature(items[n]);
    }
  }

  /** The two comparisons report a pair of values under a key equally often. */
  predicate TalliesMatch<T>(r: Reporter<T>, before: seq<T>, after: seq<T>, k: string, v: string, w: string) {
    ChangeTally(r, after, before, k, w, v) == ChangeTally(r, before, after, k, v, w)
  }

  ghost predicate AllTalliesMatch<T(!new)>(r: Reporter<T>, before: seq<T>, after: seq<T>) {
    forall k, v, w :: TalliesMatch(r, before, after, k, v, w)
  }

  /** Changes mirror exactly when both comparisons report every pair of values equally often. */
  lemma ChangesMirrorExactly<T(!new)>(
      r: Reporter<T>, s: Reporter<T>, family: Family, before: seq<T>, after: seq<T>)
    requires Mirrors(r, s, family)
    ensures MirrorImages(Changes(s, after, before), Changes(r, before, after)) <==> AllTalliesMatch(r, before, after)
  {
    var left, right := Cores(Changes(s, after, before)), MirroredCores(Changes(r, before, after));
    if AllTalliesMatch(r, before, after) {
      forall c ensures left[c] == right[c] {
        assert TalliesMatch(r, before, after, c.name, c.afterValue, c.beforeValue);
        ChangeCounts(r, s, family, before, after, c);
      }
    }
    if left == right {
      forall k, v, w ensures TalliesMatch(r, before, after, k, v, w) {
        ChangeCounts(r, s, family, before, after, Core(family, Changed, k, w, v));
      }
    }
  }

  lemma ChangeCounts<T(!new)>(
      r: Reporter<T>, s: Reporter<T>, family: Family, before: seq<T>, after: seq<T>, c: Core)
    requires Mirrors(r, s, family)
    ensures var left, right := Cores(Changes(s, after, before))[c], MirroredCores(Changes(r, before, after))[c];
            if c.family == family && c.kind == Changed
            then left == ChangeTally(r, after, before, c.name, c.beforeValue, c.afterValue)
                 && right == ChangeTally(r, before, after, c.name, c.afterValue, c.beforeValue)
            else left == 0 && right == 0
  {
    ChangesChange(r, family, before, after);
    MirroredCount(Changes(r, before, after), c);
    ChangesCount(s, family, after, before, c);
    ChangesCount(r, family, before, after, Mirrored(c));
    SameSignature(r, s, family, before, c.name);
    SameShows(r, s, family, after, c.name, c.beforeValue);
  }

  // ----- the exact condition -----

  /** Under one key: both sides show no third signature besides the first ones, and if these differ, equally many
      items show them. */
  predicate Balanced<T>(r: Reporter<T>, before: seq<T>, after: seq<T>, k: string) {
    var v, w := FirstSignature(r, before, k), FirstSignature(r, after, k);
    v.Some? && w.Some? ==>
      && OnlyShow(r, before, k, v.value, w.value) && OnlyShow(r, after, k, v.value, w.value)
      && (v != w ==> Shows(r, before, k, v.value) == Shows(r, after, k, w.value))
  }

  predicate OnlyShow<T>(r: Reporter<T>, items: seq<T>, k: string, v: string, w: string) {
    forall i :: 0 <= i < |items| && r.key(items[i]) == k ==> r.signature(items[i]) in {v, w}
  }

  /** Every key of the left list; other keys have nothing to balance. */
  predicate AllBalanced<T>(r: Reporter<T>, before: seq<T>, after: seq<T>) {
    forall i :: 0 <= i < |before| ==> Balanced(r, before, after, r.key(before[i]))
  }

  lemma BalancedMatches<T(!new)>(r: Reporter<T>, before: seq<T>, after: seq<T>, k: string, v: string, w: string)
    requires Balanced(r, before, after, k)
    ensures TalliesMatch(r, before, after, k, v, w)
  {
    var first, second := FirstMatch(r, before, k), FirstMatch(r, after, k);
  }

  lemma MatchesBalanced<T(!new)>(r: Reporter<T>, before: seq<T>, after: seq<T>, k: string)
    requires AllTalliesMatch(r, before, after)
    ensures Balanced(r, before, after, k)
  {
    var v, w := FirstSignature(r, before, k), FirstSignature(r, after, k);
    if v.Some? && w.Some? {
      assert TalliesMatch(r, before, after, k, v.value, w.value);
      forall i | 0 <= i < |before| && r.key(before[i]) == k ensures r.signature(before[i]) in {v.value, w.value} {
        assert TalliesMatch(r, before, after, k, r.signature(before[i]), w.value);
      }
      forall i | 0 <= i < |after| && r.key(after[i]) == k ensures r.signature(after[i]) in {v.value, w.value} {
        assert TalliesMatch(r, before, after, k, v.value, r.signature(after[i]));
      }
    }
  }

  lemma BalancedExactly<T(!new)>(r: Reporter<T>, before: seq<T>, after: seq<T>)
    ensures AllTalliesMatch(r, before, after) <==> AllBalanced(r, before, after)
  {
    if AllBalanced(r, before, after) {
      forall k, v, w ensures TalliesMatch(r, before, after, k, v, w) {
        if i :| 0 <= i < |before| && r.key(before[i]) == k {
          assert Balanced(r, before, after, r.key(before[i]));
        } else {
          assert FirstMatch(r, before, k).None?;
        }
        BalancedMatches(r, before, after, k, v, w);
      }
    }
    if AllTalliesMatch(r, before, after) {
      forall i | 0 <= i < |before| ensures Balanced(r, before, after, r.key(before[i])) {
        MatchesBalanced(r, before, after, r.key(before[i]));
      }
    }
  }

  /** The key says everything the signature does. */
  ghost predicate KeyDecides<T(!new)>(r: Reporter<T>) {
    forall x, y {:trigger r.signature(x), r.signature(y)} :: r.key(x) == r.key(y) ==> r.signature(x) == r.signature(y)
  }

  lemma KeyDecidesBalances<T(!new)>(r: Reporter<T>, before: seq<T>, after: seq<T>)
    requires KeyDecides(r)
    ensures AllBalanced(r, before, after)
  {
    forall i | 0 <= i < |before| ensures Balanced(r, before, after, r.key(before[i])) {
      var v, w := FirstMatch(r, before, r.key(before[i])), FirstMatch(r, after, r.key(before[i]));
      if v.Some? && w.Some? {
        assert r.signature(v.value) == r.signature(w.value);
      }
    }
  }

  lemma {:induction false} ShowsOnce<T>(r: Reporter<T>, items: seq<T>, k: string, v: string)
    requires DistinctKeys(r, items) && FirstSignature(r, items, k) == Some(v)
    ensures Shows(r, items, k, v) == 1 && OnlyShow(r, items, k, v, v)
    decreases |items|
  {
    var n := |items| - 1;
    assert items == items[..n] + [items[n]];
    if FirstMatch(r, items[..n], k).Some? {
      ShowsOnce(r, items[..n], k, v);
      var i :| 0 <= i < n && items[..n][i] == FirstMatch(r, items[..n], k).value;
      assert r.key(items[i]) != r.key(items[n]);
    } else {
      assert Shows(r, items[..n], k, v) == 0;
    }
  }

  lemma DistinctBalances<T(!new)>(r: Reporter<T>, before: seq<T>, after: seq<T>)
    requires DistinctKeys(r, before) && DistinctKeys(r, after)
    ensures AllBalanced(r, before, after)
  {
    forall i | 0 <= i < |before| ensures Balanced(r, before, after, r.key(before[i])) {
      var k := r.key(before[i]);
      var v, w := FirstSignature(r, before, k), FirstSignature(r, after, k);
      if v.Some? && w.Some? {
        ShowsOnce(r, before, k, v.value);
        ShowsOnce(r, after, k, w.value);
      }
    }
  }

  /** Main result: swapping the artifacts yields the same records, mirrored, up to order, exactly when every shared key
      is balanced. */
  lemma DiffSymmetricExactly<T(!new)>(r: Reporter<T>, s: Reporter<T>, family: Family, before: seq<T>, after: seq<T>)
    requires Mirrors(r, s, family)
    ensures MirrorImages(Diff(s, after, before), Diff(r, before, after)) <==> AllBalanced(r, before, after)
  {
    FirstPassParts(r, before, after);
    FirstPassParts(s, after, before);
    RemovalsMirror(r, s, family, before, after);
    AdditionsMirror(r, s, family, before, after);
    ChangesMirrorExactly(r, s, family, before, after);
    BalancedExactly(r, before, after);
    CoresAppend(FirstPass(s, after, before), SecondPass(s, after, before));
    CoresAppend(FirstPass(r, before, after), SecondPass(r, before, after));
    Exchange(Cores(Removals(s, after, before)), Cores(Changes(s, after, before)), Cores(SecondPass(s, after, before)),
             MirroredCores(Changes(r, before, after)));
  }

  /** Equal outer parts cancel. */
  lemma Exchange(a: multiset<Core>, b: multiset<Core>, c: multiset<Core>, d: multiset<Core>)
    ensures a + b + c == c + d + a <==> b == d
  {
    if a + b + c == c + d + a {
      forall x ensures b[x] == d[x] {
        assert (a + b + c)[x] == a[x] + b[x] + c[x] && (c + d + a)[x] == c[x] + d[x] + a[x];
      }
    }
  }

  /** Distinct keys, or keys that show one signature, are balanced. */
  lemma DiffSymmetric<T(!new)>(r: Reporter<T>, s: Reporter<T>, family: Family, before: seq<T>, after: seq<T>)
    requires Mirrors(r, s, family)
    requires (DistinctKeys(r, before) && DistinctKeys(r, after)) || KeyDecides(r)
    ensures MirrorImages(Diff(s, after, before), Diff(r, before, after))
  {
    if DistinctKeys(r, before) && DistinctKeys(r, after) {
      DistinctBalances(r, before, after);
    } else {
      KeyDecidesBalances(r, before, after);
    }
    DiffSymmetricExactly(r, s, family, before, after);
  }

  /** An item repeated under one key breaks the symmetry: [x, y] against [x] reports y as changed, [x] against [x, y]
      reports nothing. */
  lemma RepeatedKeyAsymmetric<T(!new)>(r: Reporter<T>, s: Reporter<T>, family: Family, x: T, y: T)
    requires Mirrors(r, s, family) && r.key(x) == r.key(y) && r.signature(x) != r.signature(y)
    ensures Diff(r, [x, y], [x]) == [r.changed(y, x)] && Diff(s, [x], [x, y]) == []
    ensures !MirrorImages(Diff(s, [x], [x, y]), Diff(r, [x, y], [x]))
  {
    FirstOfPair(r, x, y);
    FirstOfPair(s, x, y);
    assert s.key(x) == r.key(x) && s.key(y) == r.key(y);
    assert s.signature(x) == r.signature(x) && s.signature(y) == r.signature(y);
    assert [x, y][..1] == [x] && [x][..0] == [];
    assert FirstPass(r, [x], [x]) == [] && FirstPass(r, [x, y], [x]) == [r.changed(y, x)];
    assert SecondPass(r, [x, y], [x]) == [];
    assert FirstPass(s, [x], [x, y]) == [];
    assert ReportAfter(s, [x], x) == [] && ReportAfter(s, [x], y) == [];
    assert SecondPass(s, [x], [x]) == SecondPass(s, [x], []) + [];
    assert SecondPass(s, [x], [x, y]) == SecondPass(s, [x], [x]) + [];
    OneCore(r.changed(y, x));
  }

  lemma FirstOfPair<T>(r: Reporter<T>, x: T, y: T)
    requires r.key(x) == r.key(y)
    ensures FirstMatch(r, [x], r.key(x)) == Some(x) && FirstMatch(r, [x, y], r.key(x)) == Some(x)
  {
    assert [x][..0] == [] && [x, y][..1] == [x];
  }

  // ----- several families side by side -----

  predicate Among(records: seq<Record>, families: set<Family>) {
    forall k :: 0 <= k < |records| ==> records[k].family in families
  }

  ghost predicate ReportsAmong<T(!new)>(r: Reporter<T>, families: set<Family>) {
    && (forall x {:trigger r.removed(x)} :: r.removed(x).family in families)
    && (forall x {:trigger r.added(x)} :: r.added(x).family in families)
    && (forall x, y {:trigger r.changed(x, y)} :: r.changed(x, y).family in families)
  }

  lemma {:induction false} FirstPassAmong<T(!new)>(
      r: Reporter<T>, before: seq<T>, after: seq<T>, families: set<Family>)
    requires ReportsAmong(r, families)
    ensures Among(FirstPass(r, before, after), families)
    decreases |before|
  {
    if before != [] {
      FirstPassAmong(r, before[..|before| - 1], after, families);
    }
  }

  lemma {:induction false} DiffAmong<T(!new)>(r: Reporter<T>, before: seq<T>, after: seq<T>, families: set<Family>)
    requires ReportsAmong(r, families)
    ensures Among(Diff(r, before, after), families)
  {
    FirstPassAmong(r, before, after, families);
    SecondPassAmong(r, before, after, families);
  }

  lemma {:induction false} SecondPassAmong<T(!new)>(
      r: Reporter<T>, before: seq<T>, after: seq<T>, families: set<Family>)
    requires ReportsAmong(r, families)
    ensures Among(SecondPass(r, before, after), families)
    decreases |after|
  {
    if after != [] {
      SecondPassAmong(r, before, after[..|after| - 1], families);
    }
  }

  lemma AmongCount(records: seq<Record>, families: set<Family>, c: Core)
    requires Among(records, families) && c.family !in families
    ensures Cores(records)[c] == 0 && MirroredCores(records)[c] == 0
  {
  }

  /** Lists of different families mirror together exactly when each mirrors by itself. */
  lemma ImagesSplit(
      a: seq<Record>, b: seq<Record>, c: seq<Record>, d: seq<Record>, families: set<Family>, others: set<Family>)
    requires Among(a, families) && Among(b, families) && Among(c, others) && Among(d, others) && families !! others
    ensures MirrorImages(a + c, b + d) <==> MirrorImages(a, b) && MirrorImages(c, d)
  {
    CoresAppend(a, c);
    CoresAppend(b, d);
    if MirrorImages(a + c, b + d) {
      forall x ensures Cores(a)[x] == MirroredCores(b)[x] && Cores(c)[x] == MirroredCores(d)[x] {
        assert Cores(a + c)[x] == Cores(a)[x] + Cores(c)[x];
        assert MirroredCores(b + d)[x] == MirroredCores(b)[x] + MirroredCores(d)[x];
        if x.family in families {
          AmongCount(c, others, x);
          AmongCount(d, others, x);
        } else {
          AmongCount(a, families, x);
          AmongCount(b, families, x);
        }
      }
    }
  }

  /** A part that always mirrors can be left out. */
  lemma ImagesCancel(a: seq<Record>, b: seq<Record>, c: seq<Record>, d: seq<Record>)
    ensures MirrorImages(c, d) ==> (MirrorImages(a + c, b + d) <==> MirrorImages(a, b))
    ensures MirrorImages(a, b) ==> (MirrorImages(a + c, b + d) <==> MirrorImages(c, d))
  {
    CoresAppend(a, c);
    CoresAppend(b, d);
    if MirrorImages(a + c, b + d) {
      forall x ensures Cores(a)[x] + Cores(c)[x] == MirroredCores(b)[x] + MirroredCores(d)[x] {
        assert Cores(a + c)[x] == MirroredCores(b + d)[x];
      }
    }
  }
}
