/** What the records of a plan diff say besides name and value: how bad a change is, how sure the diff is of it, and
    which side's target it points at (src/plan_diff.incn). Also when there is nothing to say at all. */
module DiffRecords {
  import opened KeyedDiff
  import opened Names
  import opened PlanDiffs
  import opened Wrappers

  /** Compatibility and confidence of every record a plan diff can hold, by family and kind. */
  predicate Graded(rec: Record) {
    match rec.family
    case OutputField =>
      && rec.kind in {Added, Removed, Renamed}
      && rec.compatibility == (if rec.kind == Added then PotentiallyBreaking else Breaking)
      && rec.confidence == (if rec.kind == Renamed then Conservative else Exact)
    case OutputSchema => rec.kind == Changed && rec.compatibility == Breaking && rec.confidence == Exact
    case PlanNode => rec.kind in {Added, Removed, Changed} && Guarded(rec)
    case LineageFamily => rec.kind in {Added, Removed} && Guarded(rec)
    case AdapterRequirement => rec.kind in {Added, Removed, Changed} && Guarded(rec)
    case UnsupportedEvidence =>
      && rec.kind in {Added, Removed, Changed}
      && rec.compatibility == UnknownCompatibility && rec.confidence == Conservative
    case ArtifactCompatibility =>
      rec.kind == Unknown && rec.compatibility == UnknownCompatibility && rec.confidence == UnknownConfidence
    case _ =>
      && rec.family in {MetadataAttachment, GovernedAttribute, PolicyCheckpoint}
      && rec.kind in {Added, Removed, Changed}
      && rec.compatibility == (if rec.kind == Removed then PotentiallyBreaking else UnknownCompatibility)
      && rec.confidence == Conservative
  }

  predicate Guarded(rec: Record) {
    rec.compatibility == PotentiallyBreaking && rec.confidence == Conservative
  }

  /** A removal points at the before side alone and an addition at the after side alone; the target of anything that is
      still there is its after target. */
  predicate Placed(rec: Record) {
    && (rec.kind == Removed ==> rec.afterId.None?)
    && (rec.kind == Added ==> rec.beforeId.None?)
    && (rec.target.Some? ==>
          (if rec.kind == Removed then rec.beforeId else rec.afterId) == Some(rec.target.value.id))
  }

  predicate Fair(rec: Record) {
    Graded(rec) && Placed(rec)
  }

  predicate AllFair(records: seq<Record>) {
    forall k :: 0 <= k < |records| ==> Fair(records[k])
  }

  // ----- keyed families -----

  ghost predicate ReportsFairly<T(!new)>(r: Reporter<T>) {
    && (forall x {:trigger r.removed(x)} :: Fair(r.removed(x)))
    && (forall x {:trigger r.added(x)} :: Fair(r.added(x)))
    && (forall x, y {:trigger r.changed(x, y)} ::
          r.key(x) == r.key(y) && r.signature(x) != r.signature(y) ==> Fair(r.changed(x, y)))
  }

  lemma {:induction false} FirstPassFair<T(!new)>(r: Reporter<T>, before: seq<T>, after: seq<T>)
    requires ReportsFairly(r)
    ensures AllFair(FirstPass(r, before, after))
    decreases |before|
  {
    if before != [] {
      FirstPassFair(r, before[..|before| - 1], after);
    }
  }

  lemma {:induction false} SecondPassFair<T(!new)>(r: Reporter<T>, before: seq<T>, after: seq<T>)
    requires ReportsFairly(r)
    ensures AllFair(SecondPass(r, before, after))
    decreases |after|
  {
    if after != [] {
      SecondPassFair(r, before, after[..|after| - 1]);
    }
  }

  lemma DiffFair<T(!new)>(r: Reporter<T>, before: seq<T>, after: seq<T>)
    requires ReportsFairly(r)
    ensures AllFair(Diff(r, before, after))
  {
    FirstPassFair(r, before, after);
    SecondPassFair(r, before, after);
  }

  lemma EvidenceGraded(family: Family, b: Evidence, a: Evidence)
    requires family in {MetadataAttachment, GovernedAttribute, PolicyCheckpoint, UnsupportedEvidence}
    ensures Fair(RemovedEvidence(family, b)) && Fair(AddedEvidence(family, a)) && Fair(ChangedEvidence(family, b, a))
  {
  }

  lemma EvidenceReportsFairly(family: Family)
    requires family in {MetadataAttachment, GovernedAttribute, PolicyCheckpoint, UnsupportedEvidence}
    ensures ReportsFairly(EvidenceReporter(family))
  {
    var r := EvidenceReporter(family);
    forall x: Evidence ensures Fair(r.removed(x)) && Fair(r.added(x)) {
      EvidenceGraded(family, x, x);
    }
    forall x: Evidence, y: Evidence ensures Fair(r.changed(x, y)) {
      EvidenceGraded(family, x, y);
    }
  }

  lemma EvidenceFair(family: Family, before: seq<Evidence>, after: seq<Evidence>)
    requires family in {MetadataAttachment, GovernedAttribute, PolicyCheckpoint, UnsupportedEvidence}
    ensures AllFair(Diff(EvidenceReporter(family), before, after))
  {
    EvidenceReportsFairly(family);
    DiffFair(EvidenceReporter(family), before, after);
  }

  lemma RequirementsFair(before: seq<Requirement>, after: seq<Requirement>)
    ensures AllFair(Diff(RequirementReporter(), before, after))
  {
    DiffFair(RequirementReporter(), before, after);
  }

  /** Lineage edges are never reported as changed. */
  lemma LineageFair(before: seq<LineageFact>, after: seq<LineageFact>)
    ensures AllFair(Diff(LineageReporter(), before, after))
  {
    DiffFair(LineageReporter(), before, after);
  }

  // ----- outputs and nodes -----

  /** Field k is the first of its name. */
  predicate FirstNamed(fields: seq<Target>, name: string, k: nat) {
    k < |fields| && fields[k].name == name && forall j :: 0 <= j < k ==> fields[j].name != name
  }

  /** The output record points at the first field of that name on its side, or spells the name when there is none. */
  lemma {:induction false} FieldIds(fields: seq<Target>, name: string)
    ensures TargetNamed(fields, name).Some? ==>
      (exists k: nat :: FirstNamed(fields, name, k) && TargetNamed(fields, name).value == fields[k])
      && TargetId(fields, name) == TargetNamed(fields, name).value.id
    ensures TargetNamed(fields, name).None? ==>
      (forall k :: 0 <= k < |fields| ==> fields[k].name != name) && TargetId(fields, name) == name
  {
    if fields != [] && fields[0].name == name {
      assert FirstNamed(fields, name, 0);
    } else if fields != [] {
      FieldIds(fields[1..], name);
      assert forall k :: 1 <= k < |fields| ==> fields[k] == fields[1..][k - 1];
      if TargetNamed(fields, name).Some? {
        var k: nat :| FirstNamed(fields[1..], name, k) && TargetNamed(fields[1..], name).value == fields[1..][k];
        assert FirstNamed(fields, name, k + 1);
      }
    }
  }

  lemma OutputsReportFairly(beforeFields: seq<Target>, afterFields: seq<Target>)
    ensures ReportsFairly(OutputReporter(beforeFields, afterFields))
  {
    var r := OutputReporter(beforeFields, afterFields);
    forall c: OutputColumn ensures Fair(r.removed(c)) && Fair(r.added(c)) {
      FieldIds(beforeFields, c.name);
      FieldIds(afterFields, c.name);
    }
    forall b: OutputColumn, a: OutputColumn ensures Fair(r.changed(b, a)) {
      FieldIds(afterFields, b.name);
    }
  }

  lemma {:induction false} RenamesFair(
      beforeFields: seq<Target>, afterFields: seq<Target>, before: seq<OutputColumn>, after: seq<OutputColumn>, n: nat)
    requires n <= |before| && n <= |after|
    ensures AllFair(Renames(beforeFields, afterFields, before, after, n))
  {
    if n > 0 {
      RenamesFair(beforeFields, afterFields, before, after, n - 1);
      FieldIds(afterFields, after[n - 1].name);
    }
  }

  lemma OutputsFair(
      beforeFields: seq<Target>, afterFields: seq<Target>, before: seq<OutputColumn>, after: seq<OutputColumn>)
    ensures AllFair(OutputRecords(beforeFields, afterFields, before, after))
  {
    RenamesFair(beforeFields, afterFields, before, after, Min(|before|, |after|));
    OutputsReportFairly(beforeFields, afterFields);
    DiffFair(OutputReporter(beforeFields, afterFields), before, after);
  }

  lemma {:induction false} NodesFair(
      prefix: string, before: seq<PlanDiffs.PlanNode>, after: seq<PlanDiffs.PlanNode>, n: nat)
    ensures AllFair(NodeRecords(prefix, before, after, n))
  {
    if n > 0 {
      NodesFair(prefix, before, after, n - 1);
    }
  }

  // ----- whole diffs -----

  lemma StructureFair(before: Inspection, after: Inspection)
    ensures AllFair(StructureRecords(before, after))
  {
    OutputsFair(before.fields, after.fields, before.outputs, after.outputs);
    NodesFair("authored", before.authored, after.authored, Max(|before.authored|, |after.authored|));
    NodesFair("rewritten", before.rewritten, after.rewritten, Max(|before.rewritten|, |after.rewritten|));
    LineageFair(before.lineage, after.lineage);
    FourFair(
      OutputRecords(before.fields, after.fields, before.outputs, after.outputs),
      NodeRecords("authored", before.authored, after.authored, Max(|before.authored|, |after.authored|)),
      NodeRecords("rewritten", before.rewritten, after.rewritten, Max(|before.rewritten|, |after.rewritten|)),
      Diff(LineageReporter(), before.lineage, after.lineage));
  }

  lemma FourFair(a: seq<Record>, b: seq<Record>, c: seq<Record>, d: seq<Record>)
    requires AllFair(a) && AllFair(b) && AllFair(c) && AllFair(d)
    ensures AllFair(a + b + c + d)
  {
  }

  lemma EvidencesFair(before: Inspection, after: Inspection)
    ensures AllFair(EvidenceRecords(before, after))
  {
    var m := Diff(EvidenceReporter(MetadataAttachment), before.attachments, after.attachments);
    var g := Diff(EvidenceReporter(GovernedAttribute), before.attributes, after.attributes);
    var p := Diff(EvidenceReporter(PolicyCheckpoint), before.checkpoints, after.checkpoints);
    var q := Diff(RequirementReporter(), before.requirements, after.requirements);
    var u := Diff(EvidenceReporter(UnsupportedEvidence), before.unsupported, after.unsupported);
    EvidenceFair(MetadataAttachment, before.attachments, after.attachments);
    EvidenceFair(GovernedAttribute, before.attributes, after.attributes);
    EvidenceFair(PolicyCheckpoint, before.checkpoints, after.checkpoints);
    RequirementsFair(before.requirements, after.requirements);
    EvidenceFair(UnsupportedEvidence, before.unsupported, after.unsupported);
    FourFair(m, g, p, q);
    FourFair(m + g + p + q, u, [], []);
    assert m + g + p + q + u + [] + [] == EvidenceRecords(before, after);
  }

  /** Main result: how bad, how sure and on which side, for every record of a plan diff. */
  lemma PlanRecordsFair(before: Inspection, after: Inspection)
    ensures AllFair(PlanRecords(before, after))
  {
    if before.schemaVersion == after.schemaVersion {
      StructureFair(before, after);
      EvidencesFair(before, after);
    }
  }

  // ----- nothing to say -----

  predicate SameKinds(before: seq<PlanDiffs.PlanNode>, after: seq<PlanDiffs.PlanNode>) {
    |before| == |after| && forall i :: 0 <= i < |before| ==> before[i].kind == after[i].kind
  }

  /** Every column before is there after with its type, every name after was there before, nothing looks renamed. */
  predicate SameOutputs(before: seq<OutputColumn>, after: seq<OutputColumn>) {
    && (forall i :: 0 <= i < |before| ==> HasColumn(after, before[i]))
    && (forall j :: 0 <= j < |after| ==> ColumnNamed(before, after[j].name).Some?)
    && (forall i :: 0 <= i < Min(|before|, |after|) ==>
          before[i].name == after[i].name || !SameType(before[i], after[i]))
  }

  /** Every item before shows the signature the after list has for its key, and every after key was there before. */
  predicate SameEvidence<T>(r: Reporter<T>, before: seq<T>, after: seq<T>) {
    Kept(r, before, after) && Known(r, before, after)
  }

  lemma OutputsSilent(
      beforeFields: seq<Target>, afterFields: seq<Target>, before: seq<OutputColumn>, after: seq<OutputColumn>)
    ensures OutputRecords(beforeFields, afterFields, before, after) == [] <==> SameOutputs(before, after)
  {
    OutputSilentExactly(beforeFields, afterFields, before, after);
  }

  lemma NodesSilent(prefix: string, before: seq<PlanDiffs.PlanNode>, after: seq<PlanDiffs.PlanNode>)
    ensures NodeRecords(prefix, before, after, Max(|before|, |after|)) == [] <==> SameKinds(before, after)
  {
    NodesSilentExactly(prefix, before, after, Max(|before|, |after|));
  }

  lemma LineageSilent(before: seq<LineageFact>, after: seq<LineageFact>)
    ensures Diff(LineageReporter(), before, after) == [] <==> Signatures(before) == Signatures(after)
  {
    var r := LineageReporter();
    EmptyExactly(r, before, after);
    forall e: LineageFact
      ensures FirstMatch(r, after, LineageSignature(e)).Some? <==> LineageSignature(e) in Signatures(after)
    {
      Matches(after, LineageSignature(e));
    }
    forall e: LineageFact
      ensures FirstMatch(r, before, LineageSignature(e)).Some? <==> LineageSignature(e) in Signatures(before)
    {
      Matches(before, LineageSignature(e));
    }
  }

  lemma Matches(edges: seq<LineageFact>, k: string)
    ensures FirstMatch(LineageReporter(), edges, k).Some? <==> k in Signatures(edges)
  {
  }

  lemma StructureSilent(before: Inspection, after: Inspection)
    ensures StructureRecords(before, after) == []
      <==> && SameOutputs(before.outputs, after.outputs)
           && SameKinds(before.authored, after.authored) && SameKinds(before.rewritten, after.rewritten)
           && Signatures(before.lineage) == Signatures(after.lineage)
  {
    OutputsSilent(before.fields, after.fields, before.outputs, after.outputs);
    NodesSilent("authored", before.authored, after.authored);
    NodesSilent("rewritten", before.rewritten, after.rewritten);
    LineageSilent(before.lineage, after.lineage);
    FiveParts(
      OutputRecords(before.fields, after.fields, before.outputs, after.outputs),
      NodeRecords("authored", before.authored, after.authored, Max(|before.authored|, |after.authored|)),
      NodeRecords("rewritten", before.rewritten, after.rewritten, Max(|before.rewritten|, |after.rewritten|)),
      Diff(LineageReporter(), before.lineage, after.lineage), []);
    assert StructureRecords(before, after) + [] == StructureRecords(before, after);
  }

  lemma EvidenceSilent(before: Inspection, after: Inspection)
    ensures EvidenceRecords(before, after) == []
      <==> && SameEvidence(EvidenceReporter(MetadataAttachment), before.attachments, after.attachments)
           && SameEvidence(EvidenceReporter(GovernedAttribute), before.attributes, after.attributes)
           && SameEvidence(EvidenceReporter(PolicyCheckpoint), before.checkpoints, after.checkpoints)
           && SameEvidence(RequirementReporter(), before.requirements, after.requirements)
           && SameEvidence(EvidenceReporter(UnsupportedEvidence), before.unsupported, after.unsupported)
  {
    EvidenceParts(before, after);
    EmptyExactly(EvidenceReporter(MetadataAttachment), before.attachments, after.attachments);
    EmptyExactly(EvidenceReporter(GovernedAttribute), before.attributes, after.attributes);
    EmptyExactly(EvidenceReporter(PolicyCheckpoint), before.checkpoints, after.checkpoints);
    EmptyExactly(RequirementReporter(), before.requirements, after.requirements);
    EmptyExactly(EvidenceReporter(UnsupportedEvidence), before.unsupported, after.unsupported);
  }

  /** Main result: a plan diff is empty exactly when versions, columns, node kinds, lineage signatures and evidence
      agree. */
  lemma PlanSilentExactly(before: Inspection, after: Inspection)
    ensures PlanRecords(before, after) == []
      <==> && before.schemaVersion == after.schemaVersion
           && SameOutputs(before.outputs, after.outputs)
           && SameKinds(before.authored, after.authored) && SameKinds(before.rewritten, after.rewritten)
           && Signatures(before.lineage) == Signatures(after.lineage)
           && SameEvidence(EvidenceReporter(MetadataAttachment), before.attachments, after.attachments)
           && SameEvidence(EvidenceReporter(GovernedAttribute), before.attributes, after.attributes)
           && SameEvidence(EvidenceReporter(PolicyCheckpoint), before.checkpoints, after.checkpoints)
           && SameEvidence(RequirementReporter(), before.requirements, after.requirements)
           && SameEvidence(EvidenceReporter(UnsupportedEvidence), before.unsupported, after.unsupported)
  {
    StructureSilent(before, after);
    EvidenceSilent(before, after);
  }

  // ----- what a record is about, and the evidence it cites -----

  /** The after item that a before item is compared with: the first of its key. */
  predicate FirstOf<T>(r: Reporter<T>, items: seq<T>, key: string, j: nat) {
    j < |items| && r.key(items[j]) == key && forall k :: 0 <= k < j ==> r.key(items[k]) != key
  }

  predicate Absent<T>(r: Reporter<T>, items: seq<T>, key: string) {
    forall k :: 0 <= k < |items| ==> r.key(items[k]) != key
  }

  predicate SaysChange<T>(r: Reporter<T>, b: T, after: seq<T>, j: nat, rec: Record) {
    FirstOf(r, after, r.key(b), j) && r.signature(b) != r.signature(after[j]) && rec == r.changed(b, after[j])
  }

  predicate SaysBefore<T>(r: Reporter<T>, b: T, after: seq<T>, rec: Record) {
    || (Absent(r, after, r.key(b)) && rec == r.removed(b))
    || (exists j :: 0 <= j < |after| && SaysChange(r, b, after, j, rec))
  }

  /** A removal of a key that is gone, a change against the first item of the key, or an addition of a new key. */
  predicate Says<T>(r: Reporter<T>, before: seq<T>, after: seq<T>, rec: Record) {
    || (exists i :: 0 <= i < |before| && SaysBefore(r, before[i], after, rec))
    || (exists j :: 0 <= j < |after| && Absent(r, before, r.key(after[j])) && rec == r.added(after[j]))
  }

  lemma {:induction false} FirstMatchIs<T>(r: Reporter<T>, items: seq<T>, key: string)
    ensures FirstMatch(r, items, key).None? <==> Absent(r, items, key)
    ensures forall j: nat :: FirstOf(r, items, key, j) ==> FirstMatch(r, items, key) == Some(items[j])
    ensures FirstMatch(r, items, key).Some? ==> exists j: nat :: FirstOf(r, items, key, j)
  {
    if items != [] {
      var n := |items| - 1;
      var front := items[..n];
      FirstMatchIs(r, front, key);
      if j: nat :| FirstOf(r, front, key, j) {
        assert FirstOf(r, items, key, j);
      } else if r.key(items[n]) == key {
        assert FirstOf(r, items, key, n);
      }
      forall j: nat | FirstOf(r, items, key, j) ensures FirstMatch(r, items, key) == Some(items[j]) {
        if j < n {
          assert FirstOf(r, front, key, j);
        }
      }
    }
  }

  lemma BeforeSays<T>(r: Reporter<T>, b: T, after: seq<T>, rec: Record)
    ensures rec in ReportBefore(r, b, after) <==> SaysBefore(r, b, after, rec)
  {
    FirstMatchIs(r, after, r.key(b));
    if j: nat :| FirstOf(r, after, r.key(b), j) {
      assert rec in ReportBefore(r, b, after) ==> SaysChange(r, b, after, j, rec);
    }
  }

  lemma {:induction false} FirstPassSays<T>(r: Reporter<T>, before: seq<T>, after: seq<T>, rec: Record)
    ensures rec in FirstPass(r, before, after) <==> exists i :: 0 <= i < |before| && SaysBefore(r, before[i], after, rec)
    decreases |before|
  {
    if before != [] {
      var n := |before| - 1;
      var front := before[..n];
      FirstPassSays(r, front, after, rec);
      BeforeSays(r, before[n], after, rec);
      assert forall i :: 0 <= i < n ==> front[i] == before[i];
    }
  }

  lemma {:induction false} SecondPassSays<T>(r: Reporter<T>, before: seq<T>, after: seq<T>, rec: Record)
    ensures rec in SecondPass(r, before, after)
       <==> exists j :: 0 <= j < |after| && Absent(r, before, r.key(after[j])) && rec == r.added(after[j])
    decreases |after|
  {
    if after != [] {
      var n := |after| - 1;
      SecondPassSays(r, before, after[..n], rec);
      FirstMatchIs(r, before, r.key(after[n]));
      assert forall j :: 0 <= j < n ==> after[..n][j] == after[j];
    }
  }

  /** Exactly which records a keyed comparison has. */
  lemma DiffSays<T>(r: Reporter<T>, before: seq<T>, after: seq<T>, rec: Record)
    ensures rec in Diff(r, before, after) <==> Says(r, before, after, rec)
  {
    FirstPassSays(r, before, after, rec);
    SecondPassSays(r, before, after, rec);
  }

  /** The references of both sides, each once, those of the left side first. */
  ghost predicate UnionOf(refs: seq<string>, left: seq<string>, right: seq<string>) {
    && Distinct(refs)
    && (forall x :: x in refs <==> x in left || x in right)
    && exists n :: 0 <= n <= |refs| && forall x :: x in refs[..n] <==> x in left
  }

  lemma MergedUnion(left: seq<string>, right: seq<string>)
    ensures UnionOf(MergedRefs(left, right), left, right)
  {
    var first := InsertAll([], left);
    InsertAllFacts([], left);
    InsertAllFacts(first, right);
    assert MergedRefs(left, right)[..|first|] == first;
  }

  /** An evidence record cites the references of the items it is about, under their key. */
  lemma EvidenceCites(family: Family, before: seq<Evidence>, after: seq<Evidence>, rec: Record)
    requires rec in Diff(EvidenceReporter(family), before, after)
    ensures rec.kind in {Added, Removed, Changed}
    ensures rec.kind != Added ==>
      exists i :: 0 <= i < |before| && before[i].key == rec.name && FromEvidence(before[i], after, rec)
    ensures rec.kind == Added ==>
      exists j :: 0 <= j < |after| && after[j].key == rec.name && rec.refs == after[j].refs
  {
    var r := EvidenceReporter(family);
    DiffSays(r, before, after, rec);
    if i :| 0 <= i < |before| && SaysBefore(r, before[i], after, rec) {
      if j :| 0 <= j < |after| && SaysChange(r, before[i], after, j, rec) {
        MergedUnion(before[i].refs, after[j].refs);
      }
      assert FromEvidence(before[i], after, rec);
    }
  }

  ghost predicate FromEvidence(b: Evidence, after: seq<Evidence>, rec: Record) {
    || (rec.kind == Removed && rec.refs == b.refs)
    || (rec.kind == Changed && exists j ::
          0 <= j < |after| && after[j].key == b.key && UnionOf(rec.refs, b.refs, after[j].refs))
  }

  /** The same for adapter requirements. */
  lemma RequirementCites(before: seq<Requirement>, after: seq<Requirement>, rec: Record)
    requires rec in Diff(RequirementReporter(), before, after)
    ensures rec.kind in {Added, Removed, Changed}
    ensures rec.kind != Added ==>
      exists i :: 0 <= i < |before| && RequirementKey(before[i]) == rec.name && FromRequirement(before[i], after, rec)
    ensures rec.kind == Added ==>
      exists j :: 0 <= j < |after| && RequirementKey(after[j]) == rec.name && rec.refs == after[j].refs
  {
    var r := RequirementReporter();
    DiffSays(r, before, after, rec);
    if i :| 0 <= i < |before| && SaysBefore(r, before[i], after, rec) {
      if j :| 0 <= j < |after| && SaysChange(r, before[i], after, j, rec) {
        MergedUnion(before[i].refs, after[j].refs);
      }
      assert FromRequirement(before[i], after, rec);
    }
  }

  ghost predicate FromRequirement(b: Requirement, after: seq<Requirement>, rec: Record) {
    || (rec.kind == Removed && rec.refs == b.refs)
    || (rec.kind == Changed && exists j ::
          0 <= j < |after| && RequirementKey(after[j]) == RequirementKey(b) && UnionOf(rec.refs, b.refs, after[j].refs))
  }

  /** And for lineage edges, which show their signature as the value. */
  lemma LineageCites(before: seq<LineageFact>, after: seq<LineageFact>, rec: Record)
    requires rec in Diff(LineageReporter(), before, after)
    ensures rec.kind == Removed || rec.kind == Added
    ensures rec.kind == Removed ==>
      exists i :: 0 <= i < |before| && LineageSignature(before[i]) == rec.beforeValue && rec.refs == before[i].refs
    ensures rec.kind == Added ==>
      exists j :: 0 <= j < |after| && LineageSignature(after[j]) == rec.afterValue && rec.refs == after[j].refs
  {
    DiffSays(LineageReporter(), before, after, rec);
  }

  // ----- one family at a time -----

  /** The records of one family, in order. */
  function OfFamily(records: seq<Record>, family: Family): seq<Record> {
    if records == [] then []
    else
      var n := |records| - 1;
      OfFamily(records[..n], family) + if records[n].family == family then [records[n]] else []
  }

  method RecordsForFamily(records: seq<Record>, family: Family) returns (found: seq<Record>)
    ensures found == OfFamily(records, family)
  {
    found := [];
    for i := 0 to |records|
      invariant found == OfFamily(records[..i], family)
    {
      assert records[..i + 1][..i] == records[..i];
      if records[i].family == family {
        found := found + [records[i]];
      }
    }
    assert records[..|records|] == records;
  }

  lemma {:induction false} OfFamilyAppend(a: seq<Record>, b: seq<Record>, family: Family)
    ensures OfFamily(a + b, family) == OfFamily(a, family) + OfFamily(b, family)
    decreases |b|
  {
    if b == [] {
      assert a + b == a;
    } else {
      assert (a + b)[..|a + b| - 1] == a + b[..|b| - 1];
      OfFamilyAppend(a, b[..|b| - 1], family);
    }
  }

  lemma {:induction false} AllOfFamily(records: seq<Record>, families: set<Family>, family: Family)
    requires Among(records, families)
    ensures families == {family} ==> OfFamily(records, family) == records
    ensures family !in families ==> OfFamily(records, family) == []
    decreases |records|
  {
    if records != [] {
      AllOfFamily(records[..|records| - 1], families, family);
    }
  }

  lemma NodesOnly(prefix: string, before: seq<PlanDiffs.PlanNode>, after: seq<PlanDiffs.PlanNode>, n: nat)
    ensures Among(NodeRecords(prefix, before, after, n), {Family.PlanNode})
  {
    if n > 0 {
      NodesOnly(prefix, before, after, n - 1);
    }
  }

  lemma {:induction false} RenamesOnly(
      beforeFields: seq<Target>, afterFields: seq<Target>, before: seq<OutputColumn>, after: seq<OutputColumn>, n: nat)
    requires n <= |before| && n <= |after|
    ensures Among(Renames(beforeFields, afterFields, before, after, n), {OutputField, OutputSchema})
  {
    if n > 0 {
      RenamesOnly(beforeFields, afterFields, before, after, n - 1);
    }
  }

  lemma OutputsOnly(
      beforeFields: seq<Target>, afterFields: seq<Target>, before: seq<OutputColumn>, after: seq<OutputColumn>)
    ensures Among(OutputRecords(beforeFields, afterFields, before, after), {OutputField, OutputSchema})
  {
    RenamesOnly(beforeFields, afterFields, before, after, Min(|before|, |after|));
    DiffAmong(OutputReporter(beforeFields, afterFields), before, after, {OutputField, OutputSchema});
  }

  lemma EvidenceOnly(family: Family, before: seq<Evidence>, after: seq<Evidence>)
    ensures Among(Diff(EvidenceReporter(family), before, after), {family})
  {
    DiffAmong(EvidenceReporter(family), before, after, {family});
  }

  lemma RequirementsOnly(before: seq<Requirement>, after: seq<Requirement>)
    ensures Among(Diff(RequirementReporter(), before, after), {AdapterRequirement})
  {
    DiffAmong(RequirementReporter(), before, after, {AdapterRequirement});
  }

  lemma LineageOnly(before: seq<LineageFact>, after: seq<LineageFact>)
    ensures Among(Diff(LineageReporter(), before, after), {LineageFamily})
  {
    DiffAmong(LineageReporter(), before, after, {LineageFamily});
  }

  /** Lists side by side. */
  function Flat(parts: seq<seq<Record>>): seq<Record> {
    if parts == [] then [] else Flat(parts[..|parts| - 1]) + parts[|parts| - 1]
  }

  /** Every part keeps to its own families. */
  predicate Grouped(parts: seq<seq<Record>>, families: seq<set<Family>>) {
    |parts| == |families| && forall k :: 0 <= k < |parts| ==> Among(parts[k], families[k])
  }

  /** A family that only one part has is seen in that part. */
  lemma {:induction false} FlatView(parts: seq<seq<Record>>, families: seq<set<Family>>, j: nat, family: Family)
    requires Grouped(parts, families) && j < |parts|
    requires forall k :: 0 <= k < |parts| && k != j ==> family !in families[k]
    ensures OfFamily(Flat(parts), family) == OfFamily(parts[j], family)
    decreases |parts|
  {
    var n := |parts| - 1;
    OfFamilyAppend(Flat(parts[..n]), parts[n], family);
    AllOfFamily(parts[n], families[n], family);
    if j < n {
      FlatView(parts[..n], families[..n], j, family);
    } else {
      NoneSeen(parts[..n], families[..n], family);
    }
  }

  lemma {:induction false} NoneSeen(parts: seq<seq<Record>>, families: seq<set<Family>>, family: Family)
    requires |parts| == |families|
    requires forall k :: 0 <= k < |parts| ==> Among(parts[k], families[k]) && family !in families[k]
    ensures OfFamily(Flat(parts), family) == []
    decreases |parts|
  {
    if parts != [] {
      var n := |parts| - 1;
      OfFamilyAppend(Flat(parts[..n]), parts[n], family);
      AllOfFamily(parts[n], families[n], family);
      NoneSeen(parts[..n], families[..n], family);
    }
  }

  /** The comparisons a plan diff is made of. */
  function Comparisons(before: Inspection, after: Inspection): (parts: seq<seq<Record>>)
    ensures |parts| == 8
  {
    [OutputRecords(before.fields, after.fields, before.outputs, after.outputs),
     NodeRecords("authored", before.authored, after.authored, Max(|before.authored|, |after.authored|))
     + NodeRecords("rewritten", before.rewritten, after.rewritten, Max(|before.rewritten|, |after.rewritten|)),
     Diff(LineageReporter(), before.lineage, after.lineage),
     Diff(EvidenceReporter(MetadataAttachment), before.attachments, after.attachments),
     Diff(EvidenceReporter(GovernedAttribute), before.attributes, after.attributes),
     Diff(EvidenceReporter(PolicyCheckpoint), before.checkpoints, after.checkpoints),
     Diff(RequirementReporter(), before.requirements, after.requirements),
     Diff(EvidenceReporter(UnsupportedEvidence), before.unsupported, after.unsupported)]
  }

  /** The families of each comparison. */
  function Compared(): (families: seq<set<Family>>)
    ensures |families| == 8
  {
    [{OutputField, OutputSchema}, {Family.PlanNode}, {LineageFamily}, {MetadataAttachment}, {GovernedAttribute},
     {PolicyCheckpoint}, {AdapterRequirement}, {UnsupportedEvidence}]
  }

  lemma ComparisonsGrouped(before: Inspection, after: Inspection)
    ensures Grouped(Comparisons(before, after), Compared())
  {
    OutputsOnly(before.fields, after.fields, before.outputs, after.outputs);
    NodesOnly("authored", before.authored, after.authored, Max(|before.authored|, |after.authored|));
    NodesOnly("rewritten", before.rewritten, after.rewritten, Max(|before.rewritten|, |after.rewritten|));
    LineageOnly(before.lineage, after.lineage);
    EvidenceOnly(MetadataAttachment, before.attachments, after.attachments);
    EvidenceOnly(GovernedAttribute, before.attributes, after.attributes);
    EvidenceOnly(PolicyCheckpoint, before.checkpoints, after.checkpoints);
    RequirementsOnly(before.requirements, after.requirements);
    EvidenceOnly(UnsupportedEvidence, before.unsupported, after.unsupported);
    EightGrouped(
      OutputRecords(before.fields, after.fields, before.outputs, after.outputs),
      NodeRecords("authored", before.authored, after.authored, Max(|before.authored|, |after.authored|)),
      NodeRecords("rewritten", before.rewritten, after.rewritten, Max(|before.rewritten|, |after.rewritten|)),
      Diff(LineageReporter(), before.lineage, after.lineage),
      Diff(EvidenceReporter(MetadataAttachment), before.attachments, after.attachments),
      Diff(EvidenceReporter(GovernedAttribute), before.attributes, after.attributes),
      Diff(EvidenceReporter(PolicyCheckpoint), before.checkpoints, after.checkpoints),
      Diff(RequirementReporter(), before.requirements, after.requirements),
      Diff(EvidenceReporter(UnsupportedEvidence), before.unsupported, after.unsupported));
  }

  lemma EightGrouped(
      o: seq<Record>, a: seq<Record>, r: seq<Record>, l: seq<Record>, m: seq<Record>, g: seq<Record>, p: seq<Record>,
      q: seq<Record>, u: seq<Record>)
    requires Among(o, {OutputField, OutputSchema}) && Among(a, {Family.PlanNode}) && Among(r, {Family.PlanNode})
    requires Among(l, {LineageFamily}) && Among(m, {MetadataAttachment}) && Among(g, {GovernedAttribute})
    requires Among(p, {PolicyCheckpoint}) && Among(q, {AdapterRequirement}) && Among(u, {UnsupportedEvidence})
    ensures Grouped([o, a + r, l, m, g, p, q, u], Compared())
  {
    assert Among(a + r, {Family.PlanNode});
  }

  lemma ComparedApart(j: nat, family: Family)
    requires j < 8 && family in Compared()[j]
    ensures forall k :: 0 <= k < 8 && k != j ==> family !in Compared()[k]
  {
  }

  lemma FlatOne(parts: seq<seq<Record>>, last: seq<Record>)
    ensures Flat(parts + [last]) == Flat(parts) + last
  {
    assert (parts + [last])[..|parts|] == parts;
  }

  /** Eight lists, the second made of two, as the diff puts them together. */
  lemma FlatEight(
      o: seq<Record>, a: seq<Record>, r: seq<Record>, l: seq<Record>, m: seq<Record>, g: seq<Record>, p: seq<Record>,
      q: seq<Record>, u: seq<Record>)
    ensures Flat([o, a + r, l, m, g, p, q, u]) == (o + a + r + l) + (m + g + p + q + u)
  {
    FlatOne([], o);
    FlatOne([o], a + r);
    FlatOne([o, a + r], l);
    FlatOne([o, a + r, l], m);
    FlatOne([o, a + r, l, m], g);
    FlatOne([o, a + r, l, m, g], p);
    FlatOne([o, a + r, l, m, g, p], q);
    FlatOne([o, a + r, l, m, g, p, q], u);
    assert [] + [o] == [o] && [o] + [a + r] == [o, a + r] && [o, a + r] + [l] == [o, a + r, l];
    assert [o, a + r, l] + [m] == [o, a + r, l, m] && [o, a + r, l, m] + [g] == [o, a + r, l, m, g];
    assert [o, a + r, l, m, g] + [p] == [o, a + r, l, m, g, p];
    assert [o, a + r, l, m, g, p] + [q] == [o, a + r, l, m, g, p, q];
    assert [o, a + r, l, m, g, p, q] + [u] == [o, a + r, l, m, g, p, q, u];
    Chained(o, a, r, l, m, g, p, q, u);
  }

  lemma Chained(
      o: seq<Record>, a: seq<Record>, r: seq<Record>, l: seq<Record>, m: seq<Record>, g: seq<Record>, p: seq<Record>,
      q: seq<Record>, u: seq<Record>)
    ensures [] + o + (a + r) + l + m + g + p + q + u == (o + a + r + l) + (m + g + p + q + u)
  {
  }

  /** Main result: each comparison yields exactly the records of its own families, before against after. */
  lemma FamilyViews(before: Inspection, after: Inspection, j: nat, family: Family)
    requires before.schemaVersion == after.schemaVersion && j < 8 && family in Compared()[j]
    ensures OfFamily(PlanRecords(before, after), family) == OfFamily(Comparisons(before, after)[j], family)
    ensures Among(Comparisons(before, after)[j], Compared()[j])
  {
    ComparisonsGrouped(before, after);
    ComparisonsFlat(before, after);
    ComparedApart(j, family);
    FlatView(Comparisons(before, after), Compared(), j, family);
  }

  lemma ComparisonsFlat(before: Inspection, after: Inspection)
    requires before.schemaVersion == after.schemaVersion
    ensures PlanRecords(before, after) == Flat(Comparisons(before, after))
  {
    FlatEight(
      OutputRecords(before.fields, after.fields, before.outputs, after.outputs),
      NodeRecords("authored", before.authored, after.authored, Max(|before.authored|, |after.authored|)),
      NodeRecords("rewritten", before.rewritten, after.rewritten, Max(|before.rewritten|, |after.rewritten|)),
      Diff(LineageReporter(), before.lineage, after.lineage),
      Diff(EvidenceReporter(MetadataAttachment), before.attachments, after.attachments),
      Diff(EvidenceReporter(GovernedAttribute), before.attributes, after.attributes),
      Diff(EvidenceReporter(PolicyCheckpoint), before.checkpoints, after.checkpoints),
      Diff(RequirementReporter(), before.requirements, after.requirements),
      Diff(EvidenceReporter(UnsupportedEvidence), before.unsupported, after.unsupported));
  }

  // ----- what renames and plan nodes say -----

  /** Position i shows two names of one type. */
  predicate TellsRename(
      beforeFields: seq<Target>, afterFields: seq<Target>, b: OutputColumn, a: OutputColumn, rec: Record)
  {
    && b.name != a.name && SameType(b, a)
    && rec.family == OutputField && rec.kind == Renamed && rec.name == b.name + "->" + a.name
    && rec.beforeValue == b.name && rec.afterValue == a.name && rec.refs == []
    && rec.beforeId == Some(TargetId(beforeFields, b.name)) && rec.afterId == Some(TargetId(afterFields, a.name))
  }

  predicate AnyRename(
      beforeFields: seq<Target>, afterFields: seq<Target>, before: seq<OutputColumn>, after: seq<OutputColumn>, n: nat,
      rec: Record)
    requires n <= |before| && n <= |after|
  {
    exists i :: 0 <= i < n && TellsRename(beforeFields, afterFields, before[i], after[i], rec)
  }

  /** Every rename record tells of a position with two names of one type, and every such position has one. */
  lemma {:induction false} RenamesTell(
      beforeFields: seq<Target>, afterFields: seq<Target>, before: seq<OutputColumn>, after: seq<OutputColumn>, n: nat)
    requires n <= |before| && n <= |after|
    ensures forall rec :: rec in Renames(beforeFields, afterFields, before, after, n) ==>
      AnyRename(beforeFields, afterFields, before, after, n, rec)
    ensures forall i :: 0 <= i < n && before[i].name != after[i].name && SameType(before[i], after[i]) ==>
      RenamedField(beforeFields, afterFields, before[i], after[i])
        in Renames(beforeFields, afterFields, before, after, n)
  {
    if n > 0 {
      var b, a := before[n - 1], after[n - 1];
      RenamesTell(beforeFields, afterFields, before, after, n - 1);
      ColumnsTold(b, a);
      forall rec | rec in Renames(beforeFields, afterFields, before, after, n)
        ensures AnyRename(beforeFields, afterFields, before, after, n, rec)
      {
        if rec in Renames(beforeFields, afterFields, before, after, n - 1) {
          var i :| 0 <= i < n - 1 && TellsRename(beforeFields, afterFields, before[i], after[i], rec);
          assert TellsRename(beforeFields, afterFields, before[i], after[i], rec);
        } else {
          assert TellsRename(beforeFields, afterFields, b, a, rec);
        }
      }
    }
  }

  /** What the records of one ordinal say: the kinds on both sides where both have a node, and otherwise the kind and
      the target id of the side that has one. */
  predicate TellsNode(before: seq<PlanDiffs.PlanNode>, after: seq<PlanDiffs.PlanNode>, i: nat, rec: Record) {
    rec.family == Family.PlanNode
    && if i < |before| && i < |after| then
         && before[i].kind != after[i].kind && rec.kind == Changed
         && rec.beforeValue == before[i].kind && rec.afterValue == after[i].kind
         && rec.beforeId == Some(before[i].target.id) && rec.afterId == Some(after[i].target.id)
       else if i < |before| then
         && rec.kind == Removed && rec.beforeValue == before[i].kind && rec.afterValue == ""
         && rec.beforeId == Some(before[i].target.id) && rec.afterId == None
       else
         && i < |after| && rec.kind == Added && rec.beforeValue == "" && rec.afterValue == after[i].kind
         && rec.beforeId == None && rec.afterId == Some(after[i].target.id)
  }

  predicate NodeDiffers(before: seq<PlanDiffs.PlanNode>, after: seq<PlanDiffs.PlanNode>, i: nat) {
    if i < |before| && i < |after| then before[i].kind != after[i].kind else i < |before| || i < |after|
  }

  /** How many ordinals below n differ. */
  function Differing(before: seq<PlanDiffs.PlanNode>, after: seq<PlanDiffs.PlanNode>, n: nat): nat {
    if n == 0 then 0
    else Differing(before, after, n - 1) + if NodeDiffers(before, after, n - 1) then 1 else 0
  }

  /** One record per differing ordinal, in order: the record of ordinal i stands behind those of the ordinals before. */
  lemma {:induction false} NodesTell(
      prefix: string, before: seq<PlanDiffs.PlanNode>, after: seq<PlanDiffs.PlanNode>, n: nat)
    ensures |NodeRecords(prefix, before, after, n)| == Differing(before, after, n)
    ensures forall i {:trigger Differing(before, after, i)} :: 0 <= i < n && NodeDiffers(before, after, i) ==>
      && Differing(before, after, i) < |NodeRecords(prefix, before, after, n)|
      && TellsNode(before, after, i, NodeRecords(prefix, before, after, n)[Differing(before, after, i)])
  {
    if n > 0 {
      NodesTell(prefix, before, after, n - 1);
      OneNodeTells(prefix, before, after, n - 1);
    }
  }

  lemma OneNodeTells(prefix: string, before: seq<PlanDiffs.PlanNode>, after: seq<PlanDiffs.PlanNode>, i: nat)
    ensures NodeDiffers(before, after, i) ==>
      |NodeRecord(prefix, before, after, i)| == 1 && TellsNode(before, after, i, NodeRecord(prefix, before, after, i)[0])
    ensures !NodeDiffers(before, after, i) ==> NodeRecord(prefix, before, after, i) == []
  {
  }
}
