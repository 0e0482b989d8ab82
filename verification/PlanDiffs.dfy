/** The evidence families of src/plan_diff.incn as instances of the keyed diff, the families that are not keyed, and the
    diff of two plan inspections. */
module PlanDiffs {
  import opened Names
  import opened KeyedDiff
  import opened Wrappers
  import Plans

  // ----- families -----

  datatype OutputColumn = OutputColumn(name: string, kind: Option<string>, nullable: bool)

  function ColumnShape(c: OutputColumn): string {
    (if c.kind.Some? then c.kind.value else "unknown") + ":nullable=" + if c.nullable then "true" else "false"
  }

  function ColumnSignature(c: OutputColumn): string {
    c.name + ":" + ColumnShape(c)
  }

  /** One type, as far as a diff can show: an absent kind reads as the kind "unknown". */
  predicate SameType(a: OutputColumn, b: OutputColumn) {
    && a.nullable == b.nullable
    && (a.kind == b.kind
        || (a.kind.None? && b.kind == Some("unknown"))
        || (b.kind.None? && a.kind == Some("unknown")))
  }

  /** Columns of one name show one signature exactly when they have one kind and one nullability. */
  lemma ColumnsTold(a: OutputColumn, b: OutputColumn)
    ensures ColumnShape(a) == ColumnShape(b) <==> SameType(a, b)
    ensures a.name == b.name ==> (ColumnSignature(a) == ColumnSignature(b) <==> SameType(a, b))
  {
    var x := if a.kind.Some? then a.kind.value else "unknown";
    var y := if b.kind.Some? then b.kind.value else "unknown";
    NullabilityTold(x, y, a.nullable, b.nullable);
    if a.name == b.name {
      BehindPrefix(a.name, ":", ColumnShape(a), ColumnShape(b));
    }
  }

  lemma BehindPrefix(prefix: string, mark: string, a: string, b: string)
    ensures prefix + mark + a == prefix + mark + b <==> a == b
  {
    assert (prefix + mark + a)[|prefix| + |mark|..] == a && (prefix + mark + b)[|prefix| + |mark|..] == b;
  }

  lemma BeforeSuffix(a: string, b: string, suffix: string)
    ensures a + suffix == b + suffix <==> a == b
  {
    if a + suffix == b + suffix {
      assert (a + suffix)[..|a|] == a && (b + suffix)[..|b|] == b;
    }
  }

  /** A mark that neither front holds, or neither back holds, tells fronts and backs apart. */
  lemma CutAt(a: string, b: string, c: string, d: string, mark: char)
    requires (mark !in a && mark !in c) || (mark !in b && mark !in d)
    ensures a + [mark] + b == c + [mark] + d <==> a == c && b == d
  {
    var s, t := a + [mark] + b, c + [mark] + d;
    if s == t {
      assert s[|a|] == mark && t[|c|] == mark;
      assert forall k :: 0 <= k < |c| ==> t[k] in c;
      assert forall k :: 0 <= k < |a| ==> s[k] in a;
      assert forall k :: |a| < k < |s| ==> s[k] in b;
      assert forall k :: |c| < k < |t| ==> t[k] in d;
      assert |a| == |c|;
      assert s[..|a|] == a && t[..|a|] == c && s[|a| + 1..] == b && t[|a| + 1..] == d;
    }
  }

  lemma NullabilityTold(x: string, y: string, a: bool, b: bool)
    ensures x + ":nullable=" + (if a then "true" else "false") == y + ":nullable=" + (if b then "true" else "false")
      <==> x == y && a == b
  {
    var s, t := x + ":nullable=" + (if a then "true" else "false"), y + ":nullable=" + (if b then "true" else "false");
    assert s[|s| - 2] == if a then 'u' else 's';
    assert t[|t| - 2] == if b then 'u' else 's';
    if a == b {
      BeforeSuffix(x + ":nullable=", y + ":nullable=", if a then "true" else "false");
      BeforeSuffix(x, y, ":nullable=");
    }
  }

  function TargetNamed(fields: seq<Target>, name: string): Option<Target> {
    if fields == [] then None
    else if fields[0].name == name then Some(fields[0])
    else TargetNamed(fields[1..], name)
  }

  /** The field's target id, or its display name when it has none. */
  function TargetId(fields: seq<Target>, name: string): string {
    var t := TargetNamed(fields, name);
    if t.Some? then t.value.id else name
  }

  function OutputReporter(beforeFields: seq<Target>, afterFields: seq<Target>): Reporter<OutputColumn> {
    Reporter(
      (c: OutputColumn) => c.name,
      ColumnSignature,
      (c: OutputColumn) =>
        Record(OutputField, Removed, Breaking, Exact, c.name, TargetNamed(beforeFields, c.name),
               Some(TargetId(beforeFields, c.name)), None, ColumnSignature(c), "", "output field was removed", []),
      (c: OutputColumn) =>
        Record(OutputField, Added, PotentiallyBreaking, Exact, c.name, TargetNamed(afterFields, c.name),
               None, Some(TargetId(afterFields, c.name)), "", ColumnSignature(c), "output field was added", []),
      (b: OutputColumn, a: OutputColumn) =>
        Record(OutputSchema, Changed, Breaking, Exact, b.name, TargetNamed(afterFields, b.name),
               Some(TargetId(beforeFields, b.name)), Some(TargetId(afterFields, b.name)),
               ColumnSignature(b), ColumnSignature(a), "output field schema changed", []))
  }

  datatype Requirement = Requirement(
    target: Target, capability: string, guarantee: string, reason: string, refs: seq<string>)

  function RequirementKey(q: Requirement): string {
    q.target.kind + ":" + q.target.name + ":" + q.capability
  }

  function RequirementSignature(q: Requirement): string {
    RequirementKey(q) + ":" + q.guarantee + ":" + q.reason
  }

  /** Requirements are about one thing exactly when they name one target and one capability, kind and capability coming
      from vocabularies without colons. */
  lemma RequirementKeysTold(p: Requirement, q: Requirement)
    requires ':' !in p.target.kind && ':' !in q.target.kind && ':' !in p.capability && ':' !in q.capability
    ensures RequirementKey(p) == RequirementKey(q)
        <==> p.target.kind == q.target.kind && p.target.name == q.target.name && p.capability == q.capability
  {
    CutAt(p.target.kind + ":" + p.target.name, p.capability, q.target.kind + ":" + q.target.name, q.capability, ':');
    CutAt(p.target.kind, p.target.name, q.target.kind, q.target.name, ':');
  }

  /** Requirements of one key show one signature exactly when guarantee and reason read alike; a guarantee without a
      colon is then the same, and so is the reason. */
  lemma RequirementsTold(p: Requirement, q: Requirement)
    requires RequirementKey(p) == RequirementKey(q)
    ensures RequirementSignature(p) == RequirementSignature(q)
        <==> p.guarantee + ":" + p.reason == q.guarantee + ":" + q.reason
    ensures ':' !in p.guarantee && ':' !in q.guarantee ==>
      (RequirementSignature(p) == RequirementSignature(q) <==> p.guarantee == q.guarantee && p.reason == q.reason)
  {
    var key := RequirementKey(p);
    BehindPrefix(key, ":", p.guarantee + ":" + p.reason, q.guarantee + ":" + q.reason);
    assert RequirementSignature(p) == key + ":" + (p.guarantee + ":" + p.reason);
    assert RequirementSignature(q) == key + ":" + (q.guarantee + ":" + q.reason);
    if ':' !in p.guarantee && ':' !in q.guarantee {
      CutAt(p.guarantee, p.reason, q.guarantee, q.reason, ':');
    }
  }

  function RequirementReporter(): Reporter<Requirement> {
    Reporter(
      RequirementKey,
      RequirementSignature,
      (q: Requirement) =>
        Record(AdapterRequirement, Removed, PotentiallyBreaking, Conservative, RequirementKey(q), Some(q.target),
               Some(q.target.id), None, RequirementSignature(q), "", "adapter requirement was removed", q.refs),
      (q: Requirement) =>
        Record(AdapterRequirement, Added, PotentiallyBreaking, Conservative, RequirementKey(q), Some(q.target),
               None, Some(q.target.id), "", RequirementSignature(q), "adapter requirement was added", q.refs),
      (b: Requirement, a: Requirement) =>
        Record(AdapterRequirement, Changed, PotentiallyBreaking, Conservative, RequirementKey(b), Some(a.target),
               Some(b.target.id), Some(a.target.id), RequirementSignature(b), RequirementSignature(a),
               "adapter requirement changed", MergedRefs(b.refs, a.refs)))
  }

  /** First-seen union of evidence references. */
  function MergedRefs(left: seq<string>, right: seq<string>): seq<string> {
    InsertAll(InsertAll([], left), right)
  }

  method MergeRefs(left: seq<string>, right: seq<string>) returns (refs: seq<string>)
    ensures refs == MergedRefs(left, right)
    ensures Distinct(refs) && forall x :: x in refs <==> x in left || x in right
  {
    refs := [];
    for i := 0 to |left|
      invariant refs == InsertAll([], left[..i])
    {
      assert left[..i + 1] == left[..i] + [left[i]];
      InsertAllAppend([], left[..i], [left[i]]);
      InsertAllOne(refs, left[i]);
      if left[i] !in refs {
        refs := refs + [left[i]];
      }
    }
    assert left[..|left|] == left;
    ghost var first := refs;
    for j := 0 to |right|
      invariant refs == InsertAll(first, right[..j])
    {
      assert right[..j + 1] == right[..j] + [right[j]];
      InsertAllAppend(first, right[..j], [right[j]]);
      InsertAllOne(refs, right[j]);
      if right[j] !in refs {
        refs := refs + [right[j]];
      }
    }
    assert right[..|right|] == right;
    InsertAllFacts([], left);
    InsertAllFacts(first, right);
  }

  datatype LineageFact = LineageFact(
    source: Target, destination: Target, relationship: string, transformation: string, confidence: string,
    refs: seq<string>)

  function LineageSignature(e: LineageFact): string {
    e.source.kind + ":" + e.source.name + "->" + e.destination.kind + ":" + e.destination.name + ":" + e.relationship
    + ":" + e.transformation + ":" + e.confidence
  }

  /** Kinds, relationships, transformations and confidences come from vocabularies without colons. */
  predicate PlainFact(e: LineageFact) {
    && ':' !in e.source.kind && ':' !in e.destination.kind
    && ':' !in e.relationship && ':' !in e.transformation && ':' !in e.confidence
  }

  /** The two names with the destination kind between them, as a signature shows them. */
  function Ends(e: LineageFact): string {
    e.source.name + "->" + e.destination.kind + ":" + e.destination.name
  }

  lemma SignatureParts(e: LineageFact)
    ensures LineageSignature(e)
         == e.source.kind + ":" + (Ends(e) + ":" + e.relationship + ":" + e.transformation + ":" + e.confidence)
  {
  }

  /** Edges show one signature exactly when they have one source kind, relationship, transformation and confidence, and
      their ends read alike. */
  lemma LineageTold(e: LineageFact, f: LineageFact)
    requires PlainFact(e) && PlainFact(f)
    ensures LineageSignature(e) == LineageSignature(f)
        <==> e.source.kind == f.source.kind && Ends(e) == Ends(f) && e.relationship == f.relationship
             && e.transformation == f.transformation && e.confidence == f.confidence
  {
    SignatureParts(e);
    SignatureParts(f);
    var x, y := Ends(e) + ":" + e.relationship, Ends(f) + ":" + f.relationship;
    CutAt(Ends(e), e.relationship, Ends(f), f.relationship, ':');
    CutAt(x, e.transformation, y, f.transformation, ':');
    CutAt(x + ":" + e.transformation, e.confidence, y + ":" + f.transformation, f.confidence, ':');
    CutAt(e.source.kind, x + ":" + e.transformation + ":" + e.confidence,
          f.source.kind, y + ":" + f.transformation + ":" + f.confidence, ':');
  }

  /** Without an arrow head in the source names, ends that read alike are alike. */
  lemma EndsTold(e: LineageFact, f: LineageFact)
    requires PlainFact(e) && PlainFact(f) && '>' !in e.source.name && '>' !in f.source.name
    ensures Ends(e) == Ends(f)
        <==> e.source.name == f.source.name && e.destination.kind == f.destination.kind
             && e.destination.name == f.destination.name
  {
    var x, y := e.destination.kind + ":" + e.destination.name, f.destination.kind + ":" + f.destination.name;
    assert "->" == "-" + ">";
    assert Ends(e) == (e.source.name + "-") + ">" + x && Ends(f) == (f.source.name + "-") + ">" + y;
    CutAt(e.source.name + "-", x, f.source.name + "-", y, '>');
    BeforeSuffix(e.source.name, f.source.name, "-");
    CutAt(e.destination.kind, e.destination.name, f.destination.kind, f.destination.name, ':');
  }

  /** With one, different edges can show one signature: a -> k:b as a source name reads like the next arrow. */
  lemma ArrowCollides(kind: string, a: string, b: string, c: string)
    ensures var e := LineageFact(Target("", kind, a + "->" + kind + ":" + b), Target("", kind, c), "", "", "", []);
            var f := LineageFact(Target("", kind, a), Target("", kind, b + "->" + kind + ":" + c), "", "", "", []);
            LineageSignature(e) == LineageSignature(f) && e.source.name != f.source.name
  {
    var s, t := a + "->" + kind + ":" + b, b + "->" + kind + ":" + c;
    assert s + "->" + kind + ":" + c == a + "->" + kind + ":" + t;
    var e := LineageFact(Target("", kind, s), Target("", kind, c), "", "", "", []);
    var f := LineageFact(Target("", kind, a), Target("", kind, t), "", "", "", []);
    assert Ends(e) == Ends(f);
    SignatureParts(e);
    SignatureParts(f);
    assert |s| > |a|;
  }

  /** Lineage is compared as a set: the signature is the key. Records show the shorter edge name. */
  function LineageReporter(): Reporter<LineageFact> {
    Reporter(
      LineageSignature,
      LineageSignature,
      (e: LineageFact) =>
        Record(LineageFamily, Removed, PotentiallyBreaking, Conservative, e.source.name + "->" + e.destination.name,
               Some(e.destination), Some(e.destination.id), None, LineageSignature(e), "",
               "lineage edge was removed", e.refs),
      (e: LineageFact) =>
        Record(LineageFamily, Added, PotentiallyBreaking, Conservative, e.source.name + "->" + e.destination.name,
               Some(e.destination), None, Some(e.destination.id), "", LineageSignature(e),
               "lineage edge was added", e.refs),
      (b: LineageFact, a: LineageFact) =>
        Record(LineageFamily, Changed, PotentiallyBreaking, Conservative, LineageSignature(b), Some(a.destination),
               None, None, LineageSignature(b), LineageSignature(a), "", []))
  }

  /** The remaining keyed families: metadata, governed attributes, checkpoints, coverage, observations, sections,
      unsupported evidence. Their added and removed records show the key, not the signature. */
  datatype Evidence = Evidence(key: string, signature: string, target: Option<Target>, refs: seq<string>)

  function EvidenceCompatibility(family: Family, kind: Kind): Compatibility {
    if family in {ArtifactCompatibility, CoverageRecord, QualityAssertion, QualityObservation, ExecutionObservation,
                  BundleSection, EvidenceReference, UnsupportedEvidence}
    then UnknownCompatibility
    else if kind == Removed then PotentiallyBreaking
    else UnknownCompatibility
  }

  function ChangeReason(family: Family): string {
    match family
    case MetadataAttachment => "metadata attachment changed"
    case GovernedAttribute => "governed attribute changed"
    case PolicyCheckpoint => "policy checkpoint changed"
    case CoverageRecord => "coverage record changed"
    case QualityObservation => "quality observation changed"
    case ExecutionObservation => "execution observation changed"
    case BundleSection => "bundle evidence section changed"
    case UnsupportedEvidence => "unsupported evidence reason changed"
    case _ => ""
  }

  function IdOf(t: Option<Target>): Option<string> {
    if t.Some? then Some(t.value.id) else None
  }

  function RemovedEvidence(family: Family, e: Evidence): Record {
    Record(family, Removed, EvidenceCompatibility(family, Removed), Conservative, e.key, e.target,
           IdOf(e.target), None, e.key, "", "evidence record was removed", e.refs)
  }

  function AddedEvidence(family: Family, e: Evidence): Record {
    Record(family, Added, EvidenceCompatibility(family, Added), Conservative, e.key, e.target,
           None, IdOf(e.target), "", e.key, "evidence record was added", e.refs)
  }

  function ChangedEvidence(family: Family, b: Evidence, a: Evidence): Record {
    Record(family, Changed, EvidenceCompatibility(family, Changed), Conservative, b.key, a.target,
           IdOf(a.target), IdOf(a.target), b.signature, a.signature, ChangeReason(family),
           MergedRefs(b.refs, a.refs))
  }

  function EvidenceReporter(family: Family): Reporter<Evidence> {
    Reporter(
      (e: Evidence) => e.key,
      (e: Evidence) => e.signature,
      (e: Evidence) => RemovedEvidence(family, e),
      (e: Evidence) => AddedEvidence(family, e),
      (b: Evidence, a: Evidence) => ChangedEvidence(family, b, a))
  }

  lemma ReportersValued(beforeFields: seq<Target>, afterFields: seq<Target>)
    ensures Valued(OutputReporter(beforeFields, afterFields))
    ensures Valued(RequirementReporter())
  {
  }

  /** An evidence family keeps every key, and every signature of a key that was there before; an added key comes back
      with the key itself in place of its signature. */
  lemma EvidenceReplay(family: Family, before: seq<Evidence>, after: seq<Evidence>, k: string)
    ensures var r := EvidenceReporter(family);
            At(Replay(FactsOf(r, before), Diff(r, before, after)), k)
              == if FirstMatch(r, before, k).None? && FirstMatch(r, after, k).Some? then Some(k)
                 else FirstSignature(r, after, k)
  {
    ReplayedAt(EvidenceReporter(family), before, after, k);
  }

  // ----- lineage as a set -----

  function Signatures(edges: seq<LineageFact>): set<string> {
    set i | 0 <= i < |edges| :: LineageSignature(edges[i])
  }

  function Shown(records: seq<Record>, kind: Kind): set<string> {
    set i | 0 <= i < |records| && records[i].kind == kind ::
      if kind == Added then records[i].afterValue else records[i].beforeValue
  }

  lemma ShownAppend(a: seq<Record>, b: seq<Record>, kind: Kind)
    ensures Shown(a + b, kind) == Shown(a, kind) + Shown(b, kind)
  {
    forall x | x in Shown(a, kind) + Shown(b, kind) ensures x in Shown(a + b, kind) {
      if x in Shown(a, kind) {
        var i :| 0 <= i < |a| && a[i].kind == kind && x == if kind == Added then a[i].afterValue else a[i].beforeValue;
        assert (a + b)[i] == a[i];
      } else {
        var i :| 0 <= i < |b| && b[i].kind == kind && x == if kind == Added then b[i].afterValue else b[i].beforeValue;
        assert (a + b)[|a| + i] == b[i];
      }
    }
    forall x | x in Shown(a + b, kind) ensures x in Shown(a, kind) + Shown(b, kind) {
      var i :| 0 <= i < |a + b| && (a + b)[i].kind == kind
               && x == if kind == Added then (a + b)[i].afterValue else (a + b)[i].beforeValue;
      assert i < |a| ==> a[i] == (a + b)[i];
      assert i >= |a| ==> b[i - |a|] == (a + b)[i];
    }
  }

  lemma ShownOne(rec: Record, kind: Kind)
    ensures Shown([rec], kind)
         == if rec.kind == kind then {if kind == Added then rec.afterValue else rec.beforeValue} else {}
  {
    assert [rec][0] == rec;
  }

  lemma {:induction false} LineageFirstPass(before: seq<LineageFact>, after: seq<LineageFact>)
    ensures Shown(FirstPass(LineageReporter(), before, after), Removed) == Signatures(before) - Signatures(after)
    ensures Shown(FirstPass(LineageReporter(), before, after), Added) == {}
    decreases |before|
  {
    if before != [] {
      var r, n := LineageReporter(), |before| - 1;
      var front, last := FirstPass(r, before[..n], after), ReportBefore(r, before[n], after);
      LineageFirstPass(before[..n], after);
      ShownAppend(front, last, Removed);
      ShownAppend(front, last, Added);
      SignaturesLast(before);
      if last != [] {
        ShownOne(r.removed(before[n]), Removed);
        ShownOne(r.removed(before[n]), Added);
      }
    }
  }

  lemma SignaturesLast(edges: seq<LineageFact>)
    requires edges != []
    ensures Signatures(edges) == Signatures(edges[..|edges| - 1]) + {LineageSignature(edges[|edges| - 1])}
  {
    var front := edges[..|edges| - 1];
    assert forall i :: 0 <= i < |front| ==> front[i] == edges[i];
    assert forall x :: x in Signatures(front) ==> x in Signatures(edges);
  }

  lemma {:induction false} LineageSecondPass(before: seq<LineageFact>, after: seq<LineageFact>)
    ensures Shown(SecondPass(LineageReporter(), before, after), Added) == Signatures(after) - Signatures(before)
    ensures Shown(SecondPass(LineageReporter(), before, after), Removed) == {}
    decreases |after|
  {
    if after != [] {
      var r, n := LineageReporter(), |after| - 1;
      var front, last := SecondPass(r, before, after[..n]), ReportAfter(r, before, after[n]);
      LineageSecondPass(before, after[..n]);
      ShownAppend(front, last, Removed);
      ShownAppend(front, last, Added);
      SignaturesLast(after);
      if last != [] {
        ShownOne(r.added(after[n]), Removed);
        ShownOne(r.added(after[n]), Added);
      }
    }
  }

  /** Replaying lineage records on the before signatures gives the after signatures. */
  lemma LineageReplay(before: seq<LineageFact>, after: seq<LineageFact>)
    ensures var records := Diff(LineageReporter(), before, after);
            Signatures(before) - Shown(records, Removed) + Shown(records, Added) == Signatures(after)
  {
    var r := LineageReporter();
    LineageFirstPass(before, after);
    LineageSecondPass(before, after);
    ShownAppend(FirstPass(r, before, after), SecondPass(r, before, after), Removed);
    ShownAppend(FirstPass(r, before, after), SecondPass(r, before, after), Added);
  }

  // ----- output schema -----

  function RenamedField(
      beforeFields: seq<Target>, afterFields: seq<Target>, b: OutputColumn, a: OutputColumn): Record
  {
    Record(OutputField, Renamed, Breaking, Conservative, b.name + "->" + a.name, TargetNamed(afterFields, a.name),
           Some(TargetId(beforeFields, b.name)), Some(TargetId(afterFields, a.name)), b.name, a.name,
           "output field name changed at the same ordinal", [])
  }

  predicate LooksRenamed(b: OutputColumn, a: OutputColumn) {
    b.name != a.name && ColumnShape(b) == ColumnShape(a)
  }

  function Min(a: nat, b: nat): nat {
    if a < b then a else b
  }

  function Renames(
      beforeFields: seq<Target>, afterFields: seq<Target>, before: seq<OutputColumn>, after: seq<OutputColumn>, n: nat)
    : seq<Record>
    requires n <= |before| && n <= |after|
  {
    if n == 0 then []
    else
      Renames(beforeFields, afterFields, before, after, n - 1)
      + if LooksRenamed(before[n - 1], after[n - 1])
        then [RenamedField(beforeFields, afterFields, before[n - 1], after[n - 1])] else []
  }

  function OutputRecords(
      beforeFields: seq<Target>, afterFields: seq<Target>, before: seq<OutputColumn>, after: seq<OutputColumn>)
    : seq<Record>
  {
    Renames(beforeFields, afterFields, before, after, Min(|before|, |after|))
    + Diff(OutputReporter(beforeFields, afterFields), before, after)
  }

  method CompareOutputs(
      beforeFields: seq<Target>, afterFields: seq<Target>, before: seq<OutputColumn>, after: seq<OutputColumn>)
    returns (records: seq<Record>)
    ensures records == OutputRecords(beforeFields, afterFields, before, after)
  {
    records := [];
    for i := 0 to Min(|before|, |after|)
      invariant records == Renames(beforeFields, afterFields, before, after, i)
    {
      if LooksRenamed(before[i], after[i]) {
        records := records + [RenamedField(beforeFields, afterFields, before[i], after[i])];
      }
    }
    var keyed := CompareLists(OutputReporter(beforeFields, afterFields), before, after);
    records := records + keyed;
  }

  lemma {:induction false} RenamesInert(
      beforeFields: seq<Target>, afterFields: seq<Target>, before: seq<OutputColumn>, after: seq<OutputColumn>, n: nat,
      facts: Facts)
    requires n <= |before| && n <= |after|
    ensures Replay(facts, Renames(beforeFields, afterFields, before, after, n)) == facts
  {
    if n > 0 {
      RenamesInert(beforeFields, afterFields, before, after, n - 1, facts);
      var front := Renames(beforeFields, afterFields, before, after, n - 1);
      var rec := RenamedField(beforeFields, afterFields, before[n - 1], after[n - 1]);
      ReplayAppend(facts, front, [rec]);
      ReplayOne(facts, rec);
      assert front + [] == front;
    }
  }

  lemma {:induction false} RenamesSilent(
      beforeFields: seq<Target>, afterFields: seq<Target>, before: seq<OutputColumn>, after: seq<OutputColumn>, n: nat)
    requires n <= |before| && n <= |after|
    ensures Renames(beforeFields, afterFields, before, after, n) == []
      <==> forall i :: 0 <= i < n ==> !LooksRenamed(before[i], after[i])
  {
    if n > 0 {
      RenamesSilent(beforeFields, afterFields, before, after, n - 1);
    }
  }

  /** Replaying output records rebuilds the after schema; rename records do not disturb it. */
  lemma OutputReplay(
      beforeFields: seq<Target>, afterFields: seq<Target>, before: seq<OutputColumn>, after: seq<OutputColumn>)
    requires DistinctKeys(OutputReporter(beforeFields, afterFields), after)
    ensures var r := OutputReporter(beforeFields, afterFields);
            Replay(FactsOf(r, before), OutputRecords(beforeFields, afterFields, before, after)) == FactsOf(r, after)
  {
    var r, n := OutputReporter(beforeFields, afterFields), Min(|before|, |after|);
    ReportersValued(beforeFields, afterFields);
    RenamesInert(beforeFields, afterFields, before, after, n, FactsOf(r, before));
    ReplayAppend(FactsOf(r, before), Renames(beforeFields, afterFields, before, after, n), Diff(r, before, after));
    DistinctKeysReplay(r, before, after);
  }

  /** The first column of a name. */
  function ColumnNamed(columns: seq<OutputColumn>, name: string): (c: Option<OutputColumn>)
    ensures c.Some? <==> exists i :: 0 <= i < |columns| && columns[i].name == name
  {
    if columns == [] then None
    else if columns[0].name == name then Some(columns[0])
    else
      var rest := ColumnNamed(columns[1..], name);
      assert rest.Some? ==> exists i :: 1 <= i < |columns| && columns[i].name == name by {
        if rest.Some? {
          var i :| 0 <= i < |columns[1..]| && columns[1..][i].name == name;
          assert columns[i + 1].name == name;
        }
      }
      assert forall i :: 1 <= i < |columns| ==> columns[i] == columns[1..][i - 1];
      rest
  }

  lemma {:induction false} ColumnMatches(
      beforeFields: seq<Target>, afterFields: seq<Target>, columns: seq<OutputColumn>, name: string)
    ensures FirstMatch(OutputReporter(beforeFields, afterFields), columns, name) == ColumnNamed(columns, name)
    decreases |columns|
  {
    var r := OutputReporter(beforeFields, afterFields);
    if columns != [] {
      var n := |columns| - 1;
      ColumnMatches(beforeFields, afterFields, columns[..n], name);
      ColumnNamedLast(columns, name);
    }
  }

  /** The same names, each with one kind and nullability. */
  ghost predicate SameSchema(before: seq<OutputColumn>, after: seq<OutputColumn>) {
    forall name {:trigger ColumnNamed(before, name)} :: SameColumn(ColumnNamed(before, name), ColumnNamed(after, name))
  }

  /** What the facts of two schemas tell apart. */
  lemma OutputFactsTold(
      beforeFields: seq<Target>, afterFields: seq<Target>, before: seq<OutputColumn>, after: seq<OutputColumn>)
    ensures FactsOf(OutputReporter(beforeFields, afterFields), before)
         == FactsOf(OutputReporter(beforeFields, afterFields), after)
        <==> SameSchema(before, after)
  {
    var r := OutputReporter(beforeFields, afterFields);
    if SameSchema(before, after) {
      forall name ensures At(FactsOf(r, before), name) == At(FactsOf(r, after), name) {
        FactTold(beforeFields, afterFields, before, after, name);
      }
      SameFacts(FactsOf(r, before), FactsOf(r, after));
    } else {
      var name :| !SameColumn(ColumnNamed(before, name), ColumnNamed(after, name));
      FactTold(beforeFields, afterFields, before, after, name);
    }
  }

  lemma FactTold(
      beforeFields: seq<Target>, afterFields: seq<Target>, before: seq<OutputColumn>, after: seq<OutputColumn>,
      name: string)
    ensures At(FactsOf(OutputReporter(beforeFields, afterFields), before), name)
         == At(FactsOf(OutputReporter(beforeFields, afterFields), after), name)
        <==> SameColumn(ColumnNamed(before, name), ColumnNamed(after, name))
  {
    ColumnMatches(beforeFields, afterFields, before, name);
    ColumnMatches(beforeFields, afterFields, after, name);
    if ColumnNamed(before, name).Some? && ColumnNamed(after, name).Some? {
      ColumnsTold(ColumnNamed(before, name).value, ColumnNamed(after, name).value);
    }
  }

  predicate SameColumn(b: Option<OutputColumn>, a: Option<OutputColumn>) {
    b.Some? == a.Some? && (b.Some? ==> SameType(b.value, a.value))
  }

  lemma {:induction false} ColumnNamedLast(columns: seq<OutputColumn>, name: string)
    requires columns != []
    ensures var n := |columns| - 1;
            ColumnNamed(columns, name)
              == if ColumnNamed(columns[..n], name).Some? then ColumnNamed(columns[..n], name)
                 else if columns[n].name == name then Some(columns[n]) else None
    decreases |columns|
  {
    var n := |columns| - 1;
    if n > 0 && columns[0].name != name {
      ColumnNamedLast(columns[1..], name);
      assert columns[1..][..n - 1] == columns[..n][1..];
    }
  }

  /** The other schema has a column of this name, and the first one has this type. */
  predicate HasColumn(columns: seq<OutputColumn>, c: OutputColumn) {
    ColumnNamed(columns, c.name).Some? && SameType(c, ColumnNamed(columns, c.name).value)
  }

  /** Two schemas compare as equal exactly when every column before is there after with its kind and nullability, every
      name after was there before, and no position holds different names of one type: order is invisible wherever the
      types differ. */
  lemma OutputSilentExactly(
      beforeFields: seq<Target>, afterFields: seq<Target>, before: seq<OutputColumn>, after: seq<OutputColumn>)
    ensures OutputRecords(beforeFields, afterFields, before, after) == []
      <==> && (forall i :: 0 <= i < |before| ==> HasColumn(after, before[i]))
           && (forall j :: 0 <= j < |after| ==> ColumnNamed(before, after[j].name).Some?)
           && (forall i :: 0 <= i < Min(|before|, |after|) ==>
                 before[i].name == after[i].name || !SameType(before[i], after[i]))
  {
    var r := OutputReporter(beforeFields, afterFields);
    RenamesSilent(beforeFields, afterFields, before, after, Min(|before|, |after|));
    forall i | 0 <= i < Min(|before|, |after|)
      ensures LooksRenamed(before[i], after[i]) <==> before[i].name != after[i].name && SameType(before[i], after[i])
    {
      ColumnsTold(before[i], after[i]);
    }
    EmptyExactly(r, before, after);
    OutputsKept(beforeFields, afterFields, before, after);
  }

  lemma OutputsKept(
      beforeFields: seq<Target>, afterFields: seq<Target>, before: seq<OutputColumn>, after: seq<OutputColumn>)
    ensures var r := OutputReporter(beforeFields, afterFields);
            && (Kept(r, before, after) <==> forall i :: 0 <= i < |before| ==> HasColumn(after, before[i]))
            && (Known(r, before, after) <==> forall j :: 0 <= j < |after| ==> ColumnNamed(before, after[j].name).Some?)
  {
    var r := OutputReporter(beforeFields, afterFields);
    forall i | 0 <= i < |before|
      ensures FirstSignature(r, after, r.key(before[i])) == Some(r.signature(before[i])) <==> HasColumn(after, before[i])
    {
      ColumnMatches(beforeFields, afterFields, after, before[i].name);
      if ColumnNamed(after, before[i].name).Some? {
        ColumnsTold(before[i], ColumnNamed(after, before[i].name).value);
      }
    }
    forall j | 0 <= j < |after|
      ensures FirstMatch(r, before, r.key(after[j])).Some? <==> ColumnNamed(before, after[j].name).Some?
    {
      ColumnMatches(beforeFields, afterFields, before, after[j].name);
    }
  }

  /** A changed column is seen: same name, other kind or other nullability. */
  lemma ChangeSeen(beforeFields: seq<Target>, afterFields: seq<Target>, b: OutputColumn, a: OutputColumn)
    requires b.name == a.name
    ensures OutputRecords(beforeFields, afterFields, [b], [a]) == [] <==> SameType(b, a)
  {
    OutputSilentExactly(beforeFields, afterFields, [b], [a]);
    assert ColumnNamed([a], b.name) == Some(a) && ColumnNamed([b], a.name) == Some(b);
  }

  /** Swapping two columns leaves no trace exactly when they differ in kind or nullability. */
  lemma SwapUnseen(beforeFields: seq<Target>, afterFields: seq<Target>, a: OutputColumn, b: OutputColumn)
    requires a.name != b.name
    ensures OutputRecords(beforeFields, afterFields, [a, b], [b, a]) == [] <==> !SameType(a, b)
  {
    OutputSilentExactly(beforeFields, afterFields, [a, b], [b, a]);
    assert [a, b][1..] == [b] && [b, a][1..] == [a];
    assert ColumnNamed([b, a], a.name) == Some(a) && ColumnNamed([b, a], b.name) == Some(b);
    assert ColumnNamed([a, b], a.name) == Some(a) && ColumnNamed([a, b], b.name) == Some(b);
    assert [a, b][0] == a && [b, a][0] == b && [a, b][1] == b && [b, a][1] == a;
  }

  // ----- plan nodes, by ordinal -----

  datatype PlanNode = PlanNode(kind: string, target: Target)

  function ChangedNode(prefix: string, i: nat, b: PlanNode, a: PlanNode): Record {
    Record(Family.PlanNode, Changed, PotentiallyBreaking, Conservative, prefix + ":" + Plans.Digits(i),
           Some(a.target), Some(b.target.id), Some(a.target.id), b.kind, a.kind,
           "plan node kind changed at the same ordinal", [])
  }

  function RemovedNode(prefix: string, i: nat, b: PlanNode): Record {
    Record(Family.PlanNode, Removed, PotentiallyBreaking, Conservative,
           prefix + ":" + Plans.Digits(i) + ":" + b.kind, Some(b.target), Some(b.target.id), None, b.kind, "",
           "plan node was removed", [])
  }

  function AddedNode(prefix: string, i: nat, a: PlanNode): Record {
    Record(Family.PlanNode, Added, PotentiallyBreaking, Conservative,
           prefix + ":" + Plans.Digits(i) + ":" + a.kind, Some(a.target), None, Some(a.target.id), "", a.kind,
           "plan node was added", [])
  }

  /** The record of ordinal i: at most one per position of the longer list. */
  function NodeRecord(prefix: string, before: seq<PlanNode>, after: seq<PlanNode>, i: nat): seq<Record> {
    if i < |before| && i < |after| then
      if before[i].kind != after[i].kind then [ChangedNode(prefix, i, before[i], after[i])] else []
    else if i < |before| then [RemovedNode(prefix, i, before[i])]
    else if i < |after| then [AddedNode(prefix, i, after[i])]
    else []
  }

  function NodeRecords(prefix: string, before: seq<PlanNode>, after: seq<PlanNode>, n: nat): seq<Record> {
    if n == 0 then [] else NodeRecords(prefix, before, after, n - 1) + NodeRecord(prefix, before, after, n - 1)
  }

  function Max(a: nat, b: nat): nat {
    if a < b then b else a
  }

  method CompareNodes(prefix: string, before: seq<PlanNode>, after: seq<PlanNode>) returns (records: seq<Record>)
    ensures records == NodeRecords(prefix, before, after, Max(|before|, |after|))
  {
    records := [];
    var limit := Min(|before|, |after|);
    for i := 0 to limit
      invariant records == NodeRecords(prefix, before, after, i)
    {
      if before[i].kind != after[i].kind {
        records := records + [ChangedNode(prefix, i, before[i], after[i])];
      }
    }
    if |before| > |after| {
      for i := limit to |before|
        invariant records == NodeRecords(prefix, before, after, i)
      {
        records := records + [RemovedNode(prefix, i, before[i])];
      }
    }
    if |after| > |before| {
      for i := limit to |after|
        invariant records == NodeRecords(prefix, before, after, i)
      {
        records := records + [AddedNode(prefix, i, after[i])];
      }
    }
  }

  /** Nodes compare as equal exactly when the kind sequences are equal. */
  lemma {:induction false} NodesSilentExactly(prefix: string, before: seq<PlanNode>, after: seq<PlanNode>, n: nat)
    requires n <= Max(|before|, |after|)
    ensures NodeRecords(prefix, before, after, n) == []
      <==> n <= Min(|before|, |after|) && forall i :: 0 <= i < n ==> before[i].kind == after[i].kind
  {
    if n > 0 {
      NodesSilentExactly(prefix, before, after, n - 1);
    }
  }

  // ----- whole plan inspections -----

  datatype Inspection = Inspection(
    schemaVersion: string, outputs: seq<OutputColumn>, fields: seq<Target>,
    authored: seq<PlanNode>, rewritten: seq<PlanNode>, lineage: seq<LineageFact>,
    attachments: seq<Evidence>, attributes: seq<Evidence>, checkpoints: seq<Evidence>,
    requirements: seq<Requirement>, unsupported: seq<Evidence>)

  function VersionRecord(before: Inspection, after: Inspection): Record {
    Record(ArtifactCompatibility, Unknown, UnknownCompatibility, UnknownConfidence, "inspection_schema_version",
           None, None, None, before.schemaVersion, after.schemaVersion,
           "inspection schema versions differ; local impact is unknown", [])
  }

  function PlanRecords(before: Inspection, after: Inspection): seq<Record> {
    if before.schemaVersion != after.schemaVersion then [VersionRecord(before, after)]
    else StructureRecords(before, after) + EvidenceRecords(before, after)
  }

  function StructureRecords(before: Inspection, after: Inspection): seq<Record> {
    OutputRecords(before.fields, after.fields, before.outputs, after.outputs)
    + NodeRecords("authored", before.authored, after.authored, Max(|before.authored|, |after.authored|))
    + NodeRecords("rewritten", before.rewritten, after.rewritten, Max(|before.rewritten|, |after.rewritten|))
    + Diff(LineageReporter(), before.lineage, after.lineage)
  }

  function EvidenceRecords(before: Inspection, after: Inspection): seq<Record> {
    Diff(EvidenceReporter(MetadataAttachment), before.attachments, after.attachments)
    + Diff(EvidenceReporter(GovernedAttribute), before.attributes, after.attributes)
    + Diff(EvidenceReporter(PolicyCheckpoint), before.checkpoints, after.checkpoints)
    + Diff(RequirementReporter(), before.requirements, after.requirements)
    + Diff(EvidenceReporter(UnsupportedEvidence), before.unsupported, after.unsupported)
  }

  method DiffPlans(before: Inspection, after: Inspection) returns (records: seq<Record>)
    ensures records == PlanRecords(before, after)
  {
    if before.schemaVersion != after.schemaVersion {
      return [VersionRecord(before, after)];
    }
    var outputs := CompareOutputs(before.fields, after.fields, before.outputs, after.outputs);
    var authored := CompareNodes("authored", before.authored, after.authored);
    var rewritten := CompareNodes("rewritten", before.rewritten, after.rewritten);
    var lineage := CompareLists(LineageReporter(), before.lineage, after.lineage);
    var attachments := CompareLists(EvidenceReporter(MetadataAttachment), before.attachments, after.attachments);
    var attributes := CompareLists(EvidenceReporter(GovernedAttribute), before.attributes, after.attributes);
    var checkpoints := CompareLists(EvidenceReporter(PolicyCheckpoint), before.checkpoints, after.checkpoints);
    var requirements := CompareLists(RequirementReporter(), before.requirements, after.requirements);
    var unsupported := CompareLists(EvidenceReporter(UnsupportedEvidence), before.unsupported, after.unsupported);
    records := (outputs + authored + rewritten + lineage)
               + (attachments + attributes + checkpoints + requirements + unsupported);
  }

  predicate Consistent<T>(r: Reporter<T>, items: seq<T>) {
    forall i, j :: 0 <= i < |items| && 0 <= j < |items| && r.key(items[i]) == r.key(items[j])
      ==> r.signature(items[i]) == r.signature(items[j])
  }

  predicate ConsistentEvidence(a: Inspection) {
    && Consistent(EvidenceReporter(MetadataAttachment), a.attachments)
    && Consistent(EvidenceReporter(GovernedAttribute), a.attributes)
    && Consistent(EvidenceReporter(PolicyCheckpoint), a.checkpoints)
    && Consistent(RequirementReporter(), a.requirements)
    && Consistent(EvidenceReporter(UnsupportedEvidence), a.unsupported)
  }

  lemma SelfStructure(a: Inspection)
    ensures StructureRecords(a, a) == [] <==> Consistent(OutputReporter(a.fields, a.fields), a.outputs)
  {
    RenamesSilent(a.fields, a.fields, a.outputs, a.outputs, |a.outputs|);
    SelfDiff(OutputReporter(a.fields, a.fields), a.outputs);
    NodesSilentExactly("authored", a.authored, a.authored, |a.authored|);
    NodesSilentExactly("rewritten", a.rewritten, a.rewritten, |a.rewritten|);
    SelfDiff(LineageReporter(), a.lineage);
  }

  lemma SelfFamily<T>(r: Reporter<T>, items: seq<T>)
    ensures Diff(r, items, items) == [] <==> Consistent(r, items)
  {
    SelfDiff(r, items);
  }

  lemma FiveParts(a: seq<Record>, b: seq<Record>, c: seq<Record>, d: seq<Record>, e: seq<Record>)
    ensures a + b + c + d + e == [] <==> a == [] && b == [] && c == [] && d == [] && e == []
    ensures NoUnchanged(a) && NoUnchanged(b) && NoUnchanged(c) && NoUnchanged(d) && NoUnchanged(e)
      ==> NoUnchanged(a + b + c + d + e)
  {
  }

  lemma EvidenceParts(before: Inspection, after: Inspection)
    ensures var m := Diff(EvidenceReporter(MetadataAttachment), before.attachments, after.attachments);
            var g := Diff(EvidenceReporter(GovernedAttribute), before.attributes, after.attributes);
            var p := Diff(EvidenceReporter(PolicyCheckpoint), before.checkpoints, after.checkpoints);
            var q := Diff(RequirementReporter(), before.requirements, after.requirements);
            var u := Diff(EvidenceReporter(UnsupportedEvidence), before.unsupported, after.unsupported);
            && (EvidenceRecords(before, after) == [] <==> m == [] && g == [] && p == [] && q == [] && u == [])
            && (NoUnchanged(m) && NoUnchanged(g) && NoUnchanged(p) && NoUnchanged(q) && NoUnchanged(u)
                ==> NoUnchanged(EvidenceRecords(before, after)))
  {
    FiveParts(
      Diff(EvidenceReporter(MetadataAttachment), before.attachments, after.attachments),
      Diff(EvidenceReporter(GovernedAttribute), before.attributes, after.attributes),
      Diff(EvidenceReporter(PolicyCheckpoint), before.checkpoints, after.checkpoints),
      Diff(RequirementReporter(), before.requirements, after.requirements),
      Diff(EvidenceReporter(UnsupportedEvidence), before.unsupported, after.unsupported));
  }

  lemma SelfEvidence(a: Inspection)
    ensures EvidenceRecords(a, a) == [] <==> ConsistentEvidence(a)
  {
    EvidenceParts(a, a);
    SelfFamily(EvidenceReporter(MetadataAttachment), a.attachments);
    SelfFamily(EvidenceReporter(GovernedAttribute), a.attributes);
    SelfFamily(EvidenceReporter(PolicyCheckpoint), a.checkpoints);
    SelfFamily(RequirementReporter(), a.requirements);
    SelfFamily(EvidenceReporter(UnsupportedEvidence), a.unsupported);
  }

  /** An inspection compared with itself is silent exactly when none of its keyed lists shows one key with two
      signatures. */
  lemma SelfPlanDiff(a: Inspection)
    ensures PlanRecords(a, a) == []
      <==> (Consistent(OutputReporter(a.fields, a.fields), a.outputs) && ConsistentEvidence(a))
  {
    SelfStructure(a);
    SelfEvidence(a);
  }

  // ----- swapping the inspections -----

  lemma OutputReportersMirror(beforeFields: seq<Target>, afterFields: seq<Target>)
    ensures Mirrors(OutputReporter(beforeFields, afterFields), OutputReporter(afterFields, beforeFields), OutputSchema)
  {
  }

  lemma RequirementReporterMirrors()
    ensures Mirrors(RequirementReporter(), RequirementReporter(), AdapterRequirement)
  {
  }

  lemma LineageReporterMirrors()
    ensures Mirrors(LineageReporter(), LineageReporter(), LineageFamily)
    ensures KeyDecides(LineageReporter())
  {
  }

  lemma EvidenceReporterMirrors(family: Family)
    ensures Mirrors(EvidenceReporter(family), EvidenceReporter(family), family)
  {
    forall e: Evidence
      ensures CoreOf(RemovedEvidence(family, e)) == Mirrored(CoreOf(AddedEvidence(family, e)))
      ensures CoreOf(AddedEvidence(family, e)) == Mirrored(CoreOf(RemovedEvidence(family, e)))
    {
      EvidenceCores(family, e);
    }
    forall b: Evidence, a: Evidence
      ensures CoreOf(ChangedEvidence(family, b, a)) == Core(family, Changed, b.key, b.signature, a.signature)
    {
      ChangedEvidenceCore(family, b, a);
    }
  }

  lemma EvidenceCores(family: Family, e: Evidence)
    ensures CoreOf(RemovedEvidence(family, e)) == Mirrored(CoreOf(AddedEvidence(family, e)))
    ensures CoreOf(AddedEvidence(family, e)) == Mirrored(CoreOf(RemovedEvidence(family, e)))
  {
  }

  lemma ChangedEvidenceCore(family: Family, b: Evidence, a: Evidence)
    ensures CoreOf(ChangedEvidence(family, b, a)) == Core(family, Changed, b.key, b.signature, a.signature)
  {
  }

  lemma {:induction false} RenamesMirror(
      beforeFields: seq<Target>, afterFields: seq<Target>, before: seq<OutputColumn>, after: seq<OutputColumn>, n: nat)
    requires n <= |before| && n <= |after|
    ensures MirrorImages(Renames(afterFields, beforeFields, after, before, n),
                         Renames(beforeFields, afterFields, before, after, n))
  {
    if n > 0 {
      var b, a := before[n - 1], after[n - 1];
      RenamesMirror(beforeFields, afterFields, before, after, n - 1);
      if LooksRenamed(b, a) {
        ImagesOne(RenamedField(afterFields, beforeFields, a, b), RenamedField(beforeFields, afterFields, b, a));
        ImagesAppend(Renames(afterFields, beforeFields, after, before, n - 1),
                     Renames(beforeFields, afterFields, before, after, n - 1),
                     [RenamedField(afterFields, beforeFields, a, b)], [RenamedField(beforeFields, afterFields, b, a)]);
      } else {
        assert Renames(afterFields, beforeFields, after, before, n)
            == Renames(afterFields, beforeFields, after, before, n - 1);
        assert Renames(beforeFields, afterFields, before, after, n)
            == Renames(beforeFields, afterFields, before, after, n - 1);
      }
    }
  }

  /** Schemas, renames included: exactly when the output names are balanced. */
  lemma OutputsMirror(
      beforeFields: seq<Target>, afterFields: seq<Target>, before: seq<OutputColumn>, after: seq<OutputColumn>)
    ensures MirrorImages(OutputRecords(afterFields, beforeFields, after, before),
                         OutputRecords(beforeFields, afterFields, before, after))
        <==> AllBalanced(OutputReporter(beforeFields, afterFields), before, after)
  {
    var r, s := OutputReporter(beforeFields, afterFields), OutputReporter(afterFields, beforeFields);
    OutputReportersMirror(beforeFields, afterFields);
    RenamesMirror(beforeFields, afterFields, before, after, Min(|before|, |after|));
    DiffSymmetricExactly(r, s, OutputSchema, before, after);
    ImagesCancel(Renames(afterFields, beforeFields, after, before, Min(|after|, |before|)),
                 Renames(beforeFields, afterFields, before, after, Min(|before|, |after|)),
                 Diff(s, after, before), Diff(r, before, after));
  }

  lemma NodeMirror(prefix: string, before: seq<PlanNode>, after: seq<PlanNode>, i: nat)
    ensures MirrorImages(NodeRecord(prefix, after, before, i), NodeRecord(prefix, before, after, i))
  {
    if i < |before| && i < |after| {
      ImagesOne(ChangedNode(prefix, i, after[i], before[i]), ChangedNode(prefix, i, before[i], after[i]));
    } else if i < |before| {
      ImagesOne(AddedNode(prefix, i, before[i]), RemovedNode(prefix, i, before[i]));
    } else if i < |after| {
      ImagesOne(RemovedNode(prefix, i, after[i]), AddedNode(prefix, i, after[i]));
    }
  }

  /** Plan nodes, by ordinal. */
  lemma {:induction false} NodesMirror(prefix: string, before: seq<PlanNode>, after: seq<PlanNode>, n: nat)
    ensures MirrorImages(NodeRecords(prefix, after, before, n), NodeRecords(prefix, before, after, n))
  {
    if n == 0 {
      assert NodeRecords(prefix, after, before, 0) == [] && NodeRecords(prefix, before, after, 0) == [];
    } else {
      NodesMirror(prefix, before, after, n - 1);
      NodesExtend(prefix, before, after, n);
    }
  }

  lemma NodesExtend(prefix: string, before: seq<PlanNode>, after: seq<PlanNode>, n: nat)
    requires n > 0
    requires MirrorImages(NodeRecords(prefix, after, before, n - 1), NodeRecords(prefix, before, after, n - 1))
    ensures MirrorImages(NodeRecords(prefix, after, before, n), NodeRecords(prefix, before, after, n))
  {
    NodeMirror(prefix, before, after, n - 1);
    ImagesAppend(NodeRecords(prefix, after, before, n - 1), NodeRecords(prefix, before, after, n - 1),
                 NodeRecord(prefix, after, before, n - 1), NodeRecord(prefix, before, after, n - 1));
  }

  /** Lineage, repeated edges included: the signature is the key, so nothing is ever reported as changed. */
  lemma LineageMirror(before: seq<LineageFact>, after: seq<LineageFact>)
    ensures MirrorImages(Diff(LineageReporter(), after, before), Diff(LineageReporter(), before, after))
  {
    LineageReporterMirrors();
    DiffSymmetric(LineageReporter(), LineageReporter(), LineageFamily, before, after);
  }

  lemma EvidenceMirror(family: Family, before: seq<Evidence>, after: seq<Evidence>)
    ensures MirrorImages(Diff(EvidenceReporter(family), after, before), Diff(EvidenceReporter(family), before, after))
        <==> AllBalanced(EvidenceReporter(family), before, after)
    ensures Among(Diff(EvidenceReporter(family), before, after), {family})
  {
    EvidenceReporterMirrors(family);
    DiffSymmetricExactly(EvidenceReporter(family), EvidenceReporter(family), family, before, after);
    DiffAmong(EvidenceReporter(family), before, after, {family});
  }

  lemma RequirementsMirror(before: seq<Requirement>, after: seq<Requirement>)
    ensures MirrorImages(Diff(RequirementReporter(), after, before), Diff(RequirementReporter(), before, after))
        <==> AllBalanced(RequirementReporter(), before, after)
    ensures Among(Diff(RequirementReporter(), before, after), {AdapterRequirement})
  {
    RequirementReporterMirrors();
    DiffSymmetricExactly(RequirementReporter(), RequirementReporter(), AdapterRequirement, before, after);
    DiffAmong(RequirementReporter(), before, after, {AdapterRequirement});
  }

  lemma StructureMirror(before: Inspection, after: Inspection)
    ensures MirrorImages(StructureRecords(after, before), StructureRecords(before, after))
        <==> AllBalanced(OutputReporter(before.fields, after.fields), before.outputs, after.outputs)
  {
    var n, m := Max(|before.authored|, |after.authored|), Max(|before.rewritten|, |after.rewritten|);
    OutputsMirror(before.fields, after.fields, before.outputs, after.outputs);
    NodesMirror("authored", before.authored, after.authored, n);
    NodesMirror("rewritten", before.rewritten, after.rewritten, m);
    LineageMirror(before.lineage, after.lineage);
    ThreeCancel(
      OutputRecords(after.fields, before.fields, after.outputs, before.outputs),
      OutputRecords(before.fields, after.fields, before.outputs, after.outputs),
      NodeRecords("authored", after.authored, before.authored, n),
      NodeRecords("authored", before.authored, after.authored, n),
      NodeRecords("rewritten", after.rewritten, before.rewritten, m),
      NodeRecords("rewritten", before.rewritten, after.rewritten, m),
      Diff(LineageReporter(), after.lineage, before.lineage), Diff(LineageReporter(), before.lineage, after.lineage));
  }

  lemma ThreeCancel(a1: seq<Record>, a2: seq<Record>, b1: seq<Record>, b2: seq<Record>,
                    c1: seq<Record>, c2: seq<Record>, d1: seq<Record>, d2: seq<Record>)
    requires MirrorImages(b1, b2) && MirrorImages(c1, c2) && MirrorImages(d1, d2)
    ensures MirrorImages(a1 + b1 + c1 + d1, a2 + b2 + c2 + d2) <==> MirrorImages(a1, a2)
  {
    ImagesCancel(a1, a2, b1, b2);
    ImagesCancel(a1 + b1, a2 + b2, c1, c2);
    ImagesCancel(a1 + b1 + c1, a2 + b2 + c2, d1, d2);
  }

  /** Every keyed evidence list is balanced. */
  predicate EvidenceBalanced(before: Inspection, after: Inspection) {
    && AllBalanced(EvidenceReporter(MetadataAttachment), before.attachments, after.attachments)
    && AllBalanced(EvidenceReporter(GovernedAttribute), before.attributes, after.attributes)
    && AllBalanced(EvidenceReporter(PolicyCheckpoint), before.checkpoints, after.checkpoints)
    && AllBalanced(RequirementReporter(), before.requirements, after.requirements)
    && AllBalanced(EvidenceReporter(UnsupportedEvidence), before.unsupported, after.unsupported)
  }

  const EVIDENCE: set<Family> :=
    {MetadataAttachment, GovernedAttribute, PolicyCheckpoint, AdapterRequirement, UnsupportedEvidence}

  lemma EvidencesMirror(before: Inspection, after: Inspection)
    ensures MirrorImages(EvidenceRecords(after, before), EvidenceRecords(before, after)) <==> EvidenceBalanced(before, after)
    ensures Among(EvidenceRecords(before, after), EVIDENCE) && Among(EvidenceRecords(after, before), EVIDENCE)
  {
    var m, g, p, u := EvidenceReporter(MetadataAttachment), EvidenceReporter(GovernedAttribute),
                      EvidenceReporter(PolicyCheckpoint), EvidenceReporter(UnsupportedEvidence);
    var q := RequirementReporter();
    EvidenceMirror(MetadataAttachment, before.attachments, after.attachments);
    EvidenceMirror(MetadataAttachment, after.attachments, before.attachments);
    EvidenceMirror(GovernedAttribute, before.attributes, after.attributes);
    EvidenceMirror(GovernedAttribute, after.attributes, before.attributes);
    EvidenceMirror(PolicyCheckpoint, before.checkpoints, after.checkpoints);
    EvidenceMirror(PolicyCheckpoint, after.checkpoints, before.checkpoints);
    RequirementsMirror(before.requirements, after.requirements);
    RequirementsMirror(after.requirements, before.requirements);
    EvidenceMirror(UnsupportedEvidence, before.unsupported, after.unsupported);
    EvidenceMirror(UnsupportedEvidence, after.unsupported, before.unsupported);
    FiveSplit(Diff(m, after.attachments, before.attachments), Diff(m, before.attachments, after.attachments),
              Diff(g, after.attributes, before.attributes), Diff(g, before.attributes, after.attributes),
              Diff(p, after.checkpoints, before.checkpoints), Diff(p, before.checkpoints, after.checkpoints),
              Diff(q, after.requirements, before.requirements), Diff(q, before.requirements, after.requirements),
              Diff(u, after.unsupported, before.unsupported), Diff(u, before.unsupported, after.unsupported));
  }

  /** Five lists of the five evidence families. */
  lemma FiveSplit(
      m1: seq<Record>, m2: seq<Record>, g1: seq<Record>, g2: seq<Record>, p1: seq<Record>, p2: seq<Record>,
      q1: seq<Record>, q2: seq<Record>, u1: seq<Record>, u2: seq<Record>)
    requires Among(m1, {MetadataAttachment}) && Among(m2, {MetadataAttachment})
    requires Among(g1, {GovernedAttribute}) && Among(g2, {GovernedAttribute})
    requires Among(p1, {PolicyCheckpoint}) && Among(p2, {PolicyCheckpoint})
    requires Among(q1, {AdapterRequirement}) && Among(q2, {AdapterRequirement})
    requires Among(u1, {UnsupportedEvidence}) && Among(u2, {UnsupportedEvidence})
    ensures MirrorImages(m1 + g1 + p1 + q1 + u1, m2 + g2 + p2 + q2 + u2)
        <==> MirrorImages(m1, m2) && MirrorImages(g1, g2) && MirrorImages(p1, p2) && MirrorImages(q1, q2)
             && MirrorImages(u1, u2)
    ensures Among(m1 + g1 + p1 + q1 + u1, EVIDENCE) && Among(m2 + g2 + p2 + q2 + u2, EVIDENCE)
  {
    ImagesSplit(m1, m2, g1, g2, {MetadataAttachment}, {GovernedAttribute});
    ImagesSplit(m1 + g1, m2 + g2, p1, p2, {MetadataAttachment, GovernedAttribute}, {PolicyCheckpoint});
    ImagesSplit(m1 + g1 + p1, m2 + g2 + p2, q1, q2, {MetadataAttachment, GovernedAttribute, PolicyCheckpoint},
                {AdapterRequirement});
    ImagesSplit(m1 + g1 + p1 + q1, m2 + g2 + p2 + q2, u1, u2,
                {MetadataAttachment, GovernedAttribute, PolicyCheckpoint, AdapterRequirement}, {UnsupportedEvidence});
  }

  const STRUCTURE: set<Family> := {OutputField, OutputSchema, Family.PlanNode, LineageFamily}

  lemma StructureAmong(before: Inspection, after: Inspection)
    ensures Among(StructureRecords(before, after), STRUCTURE)
  {
    OutputsAmong(before.fields, after.fields, before.outputs, after.outputs);
    NodesAmong("authored", before.authored, after.authored, Max(|before.authored|, |after.authored|));
    NodesAmong("rewritten", before.rewritten, after.rewritten, Max(|before.rewritten|, |after.rewritten|));
    LineageAmong(before.lineage, after.lineage);
    FourAmong(
      OutputRecords(before.fields, after.fields, before.outputs, after.outputs),
      NodeRecords("authored", before.authored, after.authored, Max(|before.authored|, |after.authored|)),
      NodeRecords("rewritten", before.rewritten, after.rewritten, Max(|before.rewritten|, |after.rewritten|)),
      Diff(LineageReporter(), before.lineage, after.lineage));
  }

  lemma FourAmong(a: seq<Record>, b: seq<Record>, c: seq<Record>, d: seq<Record>)
    requires Among(a, STRUCTURE) && Among(b, STRUCTURE) && Among(c, STRUCTURE) && Among(d, STRUCTURE)
    ensures Among(a + b + c + d, STRUCTURE)
  {
  }

  lemma LineageAmong(before: seq<LineageFact>, after: seq<LineageFact>)
    ensures Among(Diff(LineageReporter(), before, after), STRUCTURE)
  {
    DiffAmong(LineageReporter(), before, after, STRUCTURE);
  }

  lemma OutputsAmong(
      beforeFields: seq<Target>, afterFields: seq<Target>, before: seq<OutputColumn>, after: seq<OutputColumn>)
    ensures Among(OutputRecords(beforeFields, afterFields, before, after), STRUCTURE)
  {
    RenamesAmong(beforeFields, afterFields, before, after, Min(|before|, |after|));
    DiffAmong(OutputReporter(beforeFields, afterFields), before, after, STRUCTURE);
  }

  lemma {:induction false} NodesAmong(prefix: string, before: seq<PlanNode>, after: seq<PlanNode>, n: nat)
    ensures Among(NodeRecords(prefix, before, after, n), STRUCTURE)
  {
    if n > 0 {
      NodesAmong(prefix, before, after, n - 1);
    }
  }

  lemma {:induction false} RenamesAmong(
      beforeFields: seq<Target>, afterFields: seq<Target>, before: seq<OutputColumn>, after: seq<OutputColumn>, n: nat)
    requires n <= |before| && n <= |after|
    ensures Among(Renames(beforeFields, afterFields, before, after, n), STRUCTURE)
  {
    if n > 0 {
      RenamesAmong(beforeFields, afterFields, before, after, n - 1);
    }
  }

  /** Main result: diffing two inspections in the other order gives the same records of every family with added and
      removed, and before and after, exchanged - exactly when the keys they share are balanced in every keyed list.
      Lineage and plan nodes need nothing. */
  lemma PlanDiffSymmetric(before: Inspection, after: Inspection)
    ensures MirrorImages(PlanRecords(after, before), PlanRecords(before, after))
        <==> || before.schemaVersion != after.schemaVersion
             || (AllBalanced(OutputReporter(before.fields, after.fields), before.outputs, after.outputs)
                 && EvidenceBalanced(before, after))
  {
    if before.schemaVersion != after.schemaVersion {
      ImagesOne(VersionRecord(after, before), VersionRecord(before, after));
    } else {
      SameVersionsMirror(before, after);
    }
  }

  lemma SameVersionsMirror(before: Inspection, after: Inspection)
    ensures MirrorImages(StructureRecords(after, before) + EvidenceRecords(after, before),
                         StructureRecords(before, after) + EvidenceRecords(before, after))
        <==> AllBalanced(OutputReporter(before.fields, after.fields), before.outputs, after.outputs)
             && EvidenceBalanced(before, after)
  {
    assert Among(StructureRecords(after, before), STRUCTURE) && Among(StructureRecords(before, after), STRUCTURE) by {
      StructureAmong(before, after);
      StructureAmong(after, before);
    }
    EvidencesMirror(before, after);
    StructureMirror(before, after);
    PartsSplit(StructureRecords(after, before), StructureRecords(before, after),
               EvidenceRecords(after, before), EvidenceRecords(before, after));
  }

  lemma PartsSplit(s1: seq<Record>, s2: seq<Record>, e1: seq<Record>, e2: seq<Record>)
    requires Among(s1, STRUCTURE) && Among(s2, STRUCTURE) && Among(e1, EVIDENCE) && Among(e2, EVIDENCE)
    ensures MirrorImages(s1 + e1, s2 + e2) <==> MirrorImages(s1, s2) && MirrorImages(e1, e2)
  {
    ImagesSplit(s1, s2, e1, e2, STRUCTURE, EVIDENCE);
  }

  /** No keyed list but lineage repeats a key. */
  ghost predicate DistinctlyKeyed(a: Inspection) {
    && DistinctKeys(OutputReporter(a.fields, a.fields), a.outputs)
    && DistinctKeys(EvidenceReporter(MetadataAttachment), a.attachments)
    && DistinctKeys(EvidenceReporter(GovernedAttribute), a.attributes)
    && DistinctKeys(EvidenceReporter(PolicyCheckpoint), a.checkpoints)
    && DistinctKeys(RequirementReporter(), a.requirements)
    && DistinctKeys(EvidenceReporter(UnsupportedEvidence), a.unsupported)
  }

  lemma OutputNamesDistinct(a: Inspection, beforeFields: seq<Target>, afterFields: seq<Target>)
    requires DistinctlyKeyed(a)
    ensures DistinctKeys(OutputReporter(beforeFields, afterFields), a.outputs)
  {
    var r := OutputReporter(a.fields, a.fields);
    forall i, j | 0 <= i < j < |a.outputs| ensures a.outputs[i].name != a.outputs[j].name {
      assert r.key(a.outputs[i]) != r.key(a.outputs[j]);
    }
  }

  /** Distinct keys are enough. */
  lemma DistinctPlansMirror(before: Inspection, after: Inspection)
    requires DistinctlyKeyed(before) && DistinctlyKeyed(after)
    ensures MirrorImages(PlanRecords(after, before), PlanRecords(before, after))
  {
    OutputNamesDistinct(before, before.fields, after.fields);
    OutputNamesDistinct(after, before.fields, after.fields);
    DistinctBalances(OutputReporter(before.fields, after.fields), before.outputs, after.outputs);
    DistinctBalances(EvidenceReporter(MetadataAttachment), before.attachments, after.attachments);
    DistinctBalances(EvidenceReporter(GovernedAttribute), before.attributes, after.attributes);
    DistinctBalances(EvidenceReporter(PolicyCheckpoint), before.checkpoints, after.checkpoints);
    DistinctBalances(RequirementReporter(), before.requirements, after.requirements);
    DistinctBalances(EvidenceReporter(UnsupportedEvidence), before.unsupported, after.unsupported);
    PlanDiffSymmetric(before, after);
  }

  /** Two output columns of one name and different shapes against the first of them: one order reports a changed schema,
      the other reports nothing. */
  lemma RepeatedOutputAsymmetric(before: Inspection, after: Inspection, x: OutputColumn, y: OutputColumn)
    requires before.schemaVersion == after.schemaVersion && before.outputs == [x, y] && after.outputs == [x]
    requires x.name == y.name && !SameType(x, y)
    ensures !MirrorImages(PlanRecords(after, before), PlanRecords(before, after))
  {
    var r, s := OutputReporter(before.fields, after.fields), OutputReporter(after.fields, before.fields);
    OutputReportersMirror(before.fields, after.fields);
    ColumnsTold(x, y);
    RepeatedKeyAsymmetric(r, s, OutputSchema, x, y);
    DiffSymmetricExactly(r, s, OutputSchema, [x, y], [x]);
    PlanDiffSymmetric(before, after);
  }

  // ----- blast radius -----

  datatype BlastInput = BlastInput(
    source: Record, affected: seq<string>, requirements: seq<string>, reason: string)

  function TargetIds(rec: Record): seq<string> {
    if rec.beforeId.Some? then
      if rec.afterId.Some? then Insert([rec.beforeId.value], rec.afterId.value) else [rec.beforeId.value]
    else if rec.afterId.Some? then [rec.afterId.value]
    else []
  }

  function BlastOf(diffId: string, rec: Record): BlastInput {
    BlastInput(rec, TargetIds(rec), if rec.family == AdapterRequirement then TargetIds(rec) else [],
               diffId + ": " + rec.reason)
  }

  function BlastInputs(diffId: string, records: seq<Record>): seq<BlastInput> {
    if records == [] then []
    else
      var n := |records| - 1;
      BlastInputs(diffId, records[..n]) + if records[n].kind != Unchanged then [BlastOf(diffId, records[n])] else []
  }

  method BlastRadius(diffId: string, records: seq<Record>) returns (inputs: seq<BlastInput>)
    ensures inputs == BlastInputs(diffId, records)
  {
    inputs := [];
    for i := 0 to |records|
      invariant inputs == BlastInputs(diffId, records[..i])
    {
      assert records[..i + 1][..i] == records[..i];
      if records[i].kind != Unchanged {
        inputs := inputs + [BlastOf(diffId, records[i])];
      }
    }
    assert records[..|records|] == records;
  }

  /** A blast-radius input names each target id of its record once, and the same ids as requirements exactly for
      adapter requirements. */
  lemma BlastTells(diffId: string, rec: Record)
    ensures var input := BlastOf(diffId, rec);
            && input.source == rec && Distinct(input.affected)
            && (forall id :: id in input.affected <==> rec.beforeId == Some(id) || rec.afterId == Some(id))
            && input.requirements == (if rec.family == AdapterRequirement then input.affected else [])
            && input.reason == diffId + ": " + rec.reason
  {
  }

  predicate NoUnchanged(records: seq<Record>) {
    forall k :: 0 <= k < |records| ==> records[k].kind != Unchanged
  }

  /** Every record of a plan diff gets exactly its own blast-radius input, in order. */
  lemma BlastOnePerRecord(diffId: string, before: Inspection, after: Inspection)
    ensures var records, inputs := PlanRecords(before, after), BlastInputs(diffId, PlanRecords(before, after));
            |inputs| == |records| && forall k :: 0 <= k < |inputs| ==> inputs[k] == BlastOf(diffId, records[k])
  {
    PlanRecordsAllChange(before, after);
    BlastAll(diffId, PlanRecords(before, after));
  }

  lemma {:induction false} BlastAll(diffId: string, records: seq<Record>)
    requires NoUnchanged(records)
    ensures var inputs := BlastInputs(diffId, records);
            |inputs| == |records| && forall k :: 0 <= k < |inputs| ==> inputs[k] == BlastOf(diffId, records[k])
    decreases |records|
  {
    if records != [] {
      BlastAll(diffId, records[..|records| - 1]);
    }
  }

  /** No comparison ever emits an Unchanged record. */
  lemma PlanRecordsAllChange(before: Inspection, after: Inspection)
    ensures NoUnchanged(PlanRecords(before, after))
  {
    if before.schemaVersion == after.schemaVersion {
      StructureChanges(before, after);
      EvidenceChanges(before, after);
    }
  }

  lemma StructureChanges(before: Inspection, after: Inspection)
    ensures NoUnchanged(StructureRecords(before, after))
  {
    OutputRecordsChange(before, after);
    NodesChange("authored", before.authored, after.authored, Max(|before.authored|, |after.authored|));
    NodesChange("rewritten", before.rewritten, after.rewritten, Max(|before.rewritten|, |after.rewritten|));
    LineageChanges(before.lineage, after.lineage);
    FiveParts(
      OutputRecords(before.fields, after.fields, before.outputs, after.outputs),
      NodeRecords("authored", before.authored, after.authored, Max(|before.authored|, |after.authored|)),
      NodeRecords("rewritten", before.rewritten, after.rewritten, Max(|before.rewritten|, |after.rewritten|)),
      Diff(LineageReporter(), before.lineage, after.lineage), []);
  }

  lemma OutputRecordsChange(before: Inspection, after: Inspection)
    ensures NoUnchanged(OutputRecords(before.fields, after.fields, before.outputs, after.outputs))
  {
    OutputsChange(before.fields, after.fields, before.outputs, after.outputs, Min(|before.outputs|, |after.outputs|));
    DiffChanges(OutputReporter(before.fields, after.fields), before.outputs, after.outputs);
  }

  lemma LineageChanges(before: seq<LineageFact>, after: seq<LineageFact>)
    ensures NoUnchanged(Diff(LineageReporter(), before, after))
  {
    DiffChanges(LineageReporter(), before, after);
  }

  lemma EvidenceChanges(before: Inspection, after: Inspection)
    ensures NoUnchanged(EvidenceRecords(before, after))
  {
    EvidenceParts(before, after);
    EvidenceDiffChanges(MetadataAttachment, before.attachments, after.attachments);
    EvidenceDiffChanges(GovernedAttribute, before.attributes, after.attributes);
    EvidenceDiffChanges(PolicyCheckpoint, before.checkpoints, after.checkpoints);
    DiffChanges(RequirementReporter(), before.requirements, after.requirements);
    EvidenceDiffChanges(UnsupportedEvidence, before.unsupported, after.unsupported);
  }

  lemma EvidenceDiffChanges(family: Family, before: seq<Evidence>, after: seq<Evidence>)
    ensures NoUnchanged(Diff(EvidenceReporter(family), before, after))
  {
    DiffChanges(EvidenceReporter(family), before, after);
  }

  ghost predicate ReportsChange<T(!new)>(r: Reporter<T>) {
    && (forall x {:trigger r.removed(x)} :: r.removed(x).kind != Unchanged)
    && (forall x {:trigger r.added(x)} :: r.added(x).kind != Unchanged)
    && (forall x, y {:trigger r.changed(x, y)} :: r.changed(x, y).kind != Unchanged)
  }

  lemma {:induction false} DiffChanges<T(!new)>(r: Reporter<T>, before: seq<T>, after: seq<T>)
    requires ReportsChange(r)
    ensures NoUnchanged(Diff(r, before, after))
  {
    FirstPassChanges(r, before, after);
    SecondPassChanges(r, before, after);
  }

  lemma {:induction false} FirstPassChanges<T(!new)>(r: Reporter<T>, before: seq<T>, after: seq<T>)
    requires ReportsChange(r)
    ensures NoUnchanged(FirstPass(r, before, after))
    decreases |before|
  {
    if before != [] {
      FirstPassChanges(r, before[..|before| - 1], after);
    }
  }

  lemma {:induction false} SecondPassChanges<T(!new)>(r: Reporter<T>, before: seq<T>, after: seq<T>)
    requires ReportsChange(r)
    ensures NoUnchanged(SecondPass(r, before, after))
    decreases |after|
  {
    if after != [] {
      SecondPassChanges(r, before, after[..|after| - 1]);
    }
  }

  lemma {:induction false} NodesChange(prefix: string, before: seq<PlanNode>, after: seq<PlanNode>, n: nat)
    ensures NoUnchanged(NodeRecords(prefix, before, after, n))
  {
    if n > 0 {
      NodesChange(prefix, before, after, n - 1);
    }
  }

  lemma {:induction false} OutputsChange(
      beforeFields: seq<Target>, afterFields: seq<Target>, before: seq<OutputColumn>, after: seq<OutputColumn>, n: nat)
    requires n <= |before| && n <= |after|
    ensures NoUnchanged(Renames(beforeFields, afterFields, before, after, n))
  {
    if n > 0 {
      OutputsChange(beforeFields, afterFields, before, after, n - 1);
    }
  }
}
