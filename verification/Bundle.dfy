/** Bundle evidence sections (src/bundle.incn): unsupported-evidence markers are upserted into the section list. */
module Bundle {
  import opened Names
  import opened Wrappers

  datatype Requirement = Required | Optional
  datatype Availability = Available | Unavailable | Unsupported

  /** Why a section is not available; the wording of the builder's own reasons is left out. */
  datatype Reason = NoReason | NoReadRoots | NotSupplied | NotImplemented | Reported(text: string)

  datatype Section = Section(
    family: string, requirement: Requirement, availability: Availability, count: int, reason: Reason, refs: seq<string>)

  datatype Marker = Marker(family: string, reason: Reason)

  /** How many records of an optional family the caller supplied, and their references. */
  datatype Supplied = Supplied(count: nat, refs: seq<string>)

  /** What the section builder reads off an inspection and the caller's records. */
  datatype Evidence = Evidence(
    target: string, readRoots: seq<string>, schemaCount: nat, fields: seq<string>, edgeCount: nat, plan: string,
    attachments: seq<string>, attributes: seq<string>, checkpoints: seq<string>, requirements: seq<string>,
    unsupported: seq<Marker>, supplied: map<string, Supplied>)

  // ----- the sections before any marker -----

  function RequiredSection(family: string, count: nat, refs: seq<string>): Section {
    Section(family, Required, Available, count, NoReason, refs)
  }

  function OptionalSection(family: string, given: Supplied): Section {
    if given.count > 0 then Section(family, Optional, Available, given.count, NoReason, given.refs)
    else Section(family, Optional, Unavailable, given.count, NotSupplied, given.refs)
  }

  function InputSection(refs: seq<string>): Section {
    if |refs| > 0 then RequiredSection("input_schema_references", |refs|, refs)
    else Section("input_schema_references", Required, Unavailable, 0, NoReadRoots, [])
  }

  function LocalSections(e: Evidence): seq<Section> {
    [RequiredSection("plan", 1, [e.target]),
     InputSection(e.readRoots),
     RequiredSection("output_schema", e.schemaCount, e.fields),
     RequiredSection("output_fields", |e.fields|, e.fields),
     RequiredSection("lineage_graph", e.edgeCount, [e.plan]),
     RequiredSection("metadata_attachments", |e.attachments|, e.attachments),
     RequiredSection("governed_attributes", |e.attributes|, e.attributes),
     RequiredSection("policy_checkpoints", |e.checkpoints|, e.checkpoints),
     RequiredSection("adapter_requirements", |e.requirements|, e.requirements),
     RequiredSection("unsupported_evidence", |e.unsupported|, MarkerRefs(e.unsupported))]
  }

  function MarkerRefs(markers: seq<Marker>): seq<string> {
    seq(|markers|, k requires 0 <= k < |markers| => "unsupported:" + markers[k].family)
  }

  /** The optional families, in order; the caller can fill all but the last. */
  function CallerFamilies(): seq<string> {
    ["quality_assertions", "quality_observations", "execution_observations", "coverage_records",
     "semantic_profiles", "profile_assessments", "ingress_requests", "client_session_context", "ingress_mappings",
     "frontend_coverage", "ingress_diagnostics", "verification_evidence", "verification_assertions",
     "verification_runs", "verification_observations", "verification_projections", "verification_snapshots",
     "verification_commitments", "verification_waivers", "substrait_plan_artifact"]
  }

  function Given(e: Evidence, family: string): Supplied {
    if family in e.supplied && family != "substrait_plan_artifact" then e.supplied[family] else Supplied(0, [])
  }

  function CallerSections(e: Evidence, asked: seq<string>): (sections: seq<Section>)
    ensures |sections| == |asked|
    ensures Families(sections) == asked
  {
    seq(|asked|, k requires 0 <= k < |asked| => OptionalSection(asked[k], Given(e, asked[k])))
  }

  function BaseSections(e: Evidence): seq<Section> {
    LocalSections(e) + CallerSections(e, CallerFamilies())
  }

  function ReservedFamilies(): seq<string> {
    ["canonical_equality_profiles", "digest_profiles", "verifier_statements", "proof_artifacts",
     "proof_verification_observations", "constraint_evidence", "verification_plans", "data_contract_artifacts",
     "normalized_contract_evidence", "mapping_diagnostics", "product_topology", "port_dependencies",
     "semantic_evidence_graph_projection", "graph_artifacts", "graph_query_results", "external_exchange_bridges"]
  }

  function ReservedMarkers(names: seq<string>): (markers: seq<Marker>)
    ensures |markers| == |names|
    ensures MarkerFamilies(markers) == names
  {
    seq(|names|, k requires 0 <= k < |names| => Marker(names[k], NotImplemented))
  }

  function BundleSections(e: Evidence): seq<Section> {
    MarkedAll(BaseSections(e), e.unsupported + ReservedMarkers(ReservedFamilies()))
  }

  function Families(sections: seq<Section>): (names: seq<string>)
    ensures |names| == |sections|
  {
    seq(|sections|, k requires 0 <= k < |sections| => sections[k].family)
  }

  function MarkerFamilies(markers: seq<Marker>): (names: seq<string>)
    ensures |names| == |markers|
  {
    seq(|markers|, k requires 0 <= k < |markers| => markers[k].family)
  }

  function NewSection(m: Marker): Section {
    Section(m.family, Optional, Unsupported, 0, m.reason, [])
  }

  /** The first section of the family is relabelled if it is merely unavailable; a new family is appended. */
  function Marked(sections: seq<Section>, m: Marker): seq<Section> {
    var i := FirstIndex(Families(sections), m.family);
    if i < 0 then sections + [NewSection(m)]
    else if sections[i].availability == Unavailable then
      sections[i := sections[i].(availability := Unsupported, reason := m.reason)]
    else sections
  }

  function MarkedAll(sections: seq<Section>, markers: seq<Marker>): seq<Section> {
    if markers == [] then sections
    else Marked(MarkedAll(sections, markers[..|markers| - 1]), markers[|markers| - 1])
  }

  lemma {:induction false} MarkedAppend(sections: seq<Section>, a: seq<Marker>, b: seq<Marker>)
    ensures MarkedAll(sections, a + b) == MarkedAll(MarkedAll(sections, a), b)
    decreases |b|
  {
    if b == [] {
      assert a + b == a;
    } else {
      assert (a + b)[..|a + b| - 1] == a + b[..|b| - 1];
      MarkedAppend(sections, a, b[..|b| - 1]);
    }
  }

  /** The section list under construction. */
  class SectionList {
    var sections: seq<Section>

    constructor (base: seq<Section>)
      ensures sections == base
    {
      sections := base;
    }

    method AppendUnsupported(family: string, reason: Reason)
      modifies this
      ensures sections == Marked(old(sections), Marker(family, reason))
    {
      for i := 0 to |sections|
        invariant sections == old(sections)
        invariant forall k :: 0 <= k < i ==> sections[k].family != family
      {
        if sections[i].family == family {
          FirstIndexIs(Families(sections), family, i);
          if sections[i].availability == Unavailable {
            var s := sections[i];
            sections := sections[i := Section(family, s.requirement, Unsupported, s.count, reason, s.refs)];
          }
          return;
        }
      }
      assert family !in Families(sections);
      sections := sections + [Section(family, Optional, Unsupported, 0, reason, [])];
    }

    /** The two closing loops of the section builder: plan markers, then the reserved families. */
    method MarkAll(markers: seq<Marker>, reserved: seq<Marker>)
      modifies this
      ensures sections == MarkedAll(old(sections), markers + reserved)
    {
      MarkEach(markers);
      MarkEach(reserved);
      MarkedAppend(old(sections), markers, reserved);
    }

    method MarkEach(markers: seq<Marker>)
      modifies this
      ensures sections == MarkedAll(old(sections), markers)
    {
      for i := 0 to |markers|
        invariant sections == MarkedAll(old(sections), markers[..i])
      {
        assert markers[..i + 1][..i] == markers[..i];
        AppendUnsupported(markers[i].family, markers[i].reason);
      }
      assert markers[..|markers|] == markers;
    }

    method SectionAvailable(family: string) returns (available: bool)
      ensures available <==>
        var i := FirstIndex(Families(sections), family); i >= 0 && sections[i].availability == Available
    {
      for i := 0 to |sections|
        invariant forall k :: 0 <= k < i ==> sections[k].family != family
      {
        if sections[i].family == family {
          FirstIndexIs(Families(sections), family, i);
          return sections[i].availability == Available;
        }
      }
      assert family !in Families(sections);
      return false;
    }
  }

  /** The section builder: the literal sections, then the markers of the inspection, then the reserved families. */
  method BuildSections(e: Evidence) returns (sections: seq<Section>)
    ensures sections == BundleSections(e)
  {
    var list := new SectionList(BaseSections(e));
    list.MarkAll(e.unsupported, ReservedMarkers(ReservedFamilies()));
    sections := list.sections;
  }

  // ----- what any list of markers keeps -----

  lemma MarkedFamilies(sections: seq<Section>, m: Marker)
    ensures Families(Marked(sections, m)) == Insert(Families(sections), m.family)
  {
    assert Families(sections + [NewSection(m)]) == Families(sections) + [m.family];
    var i := FirstIndex(Families(sections), m.family);
    if i >= 0 {
      assert Families(sections[i := sections[i].(availability := Unsupported, reason := m.reason)]) == Families(sections);
    }
  }

  /** Families grow by ordered insertion of the marked ones, so they stay pairwise distinct. */
  lemma {:induction false} FamiliesInserted(sections: seq<Section>, markers: seq<Marker>)
    ensures Families(MarkedAll(sections, markers)) == InsertAll(Families(sections), MarkerFamilies(markers))
    decreases |markers|
  {
    if markers != [] {
      var n := |markers| - 1;
      FamiliesInserted(sections, markers[..n]);
      MarkedFamilies(MarkedAll(sections, markers[..n]), markers[n]);
      assert MarkerFamilies(markers) == MarkerFamilies(markers[..n]) + [markers[n].family];
      InsertAllAppend(Families(sections), MarkerFamilies(markers[..n]), [markers[n].family]);
      InsertAllOne(InsertAll(Families(sections), MarkerFamilies(markers[..n])), markers[n].family);
    }
  }

  /** What becomes of a section that was there before the markers. */
  predicate Settles(before: Section, after: Section, marked: bool) {
    && after.family == before.family && after.requirement == before.requirement
    && after.count == before.count && after.refs == before.refs
    && after.availability == (if marked && before.availability == Unavailable then Unsupported else before.availability)
    && (after.availability == before.availability ==> after == before)
  }

  /** Main result: with distinct families, a section keeps its place, family, requirement, count and references; it
      changes only from Unavailable to Unsupported, exactly when its family is marked; and every section behind the
      original ones is a new Unsupported one. */
  lemma {:induction false} MarkersSettle(sections: seq<Section>, markers: seq<Marker>)
    requires Distinct(Families(sections))
    ensures var after := MarkedAll(sections, markers);
            && |sections| <= |after|
            && Distinct(Families(after))
            && (forall i {:trigger after[i]} :: 0 <= i < |sections| ==>
                  Settles(sections[i], after[i], sections[i].family in MarkerFamilies(markers)))
            && (forall i :: |sections| <= i < |after| ==> after[i].availability == Unsupported)
    decreases |markers|
  {
    FamiliesInserted(sections, markers);
    InsertAllFacts(Families(sections), MarkerFamilies(markers));
    if markers != [] {
      var n := |markers| - 1;
      MarkersSettle(sections, markers[..n]);
      assert MarkerFamilies(markers) == MarkerFamilies(markers[..n]) + [markers[n].family];
      LastMarkerSettles(sections, MarkedAll(sections, markers[..n]), markers[n], MarkerFamilies(markers[..n]));
    }
  }

  /** One more marker on a list that has settled under the families seen so far. */
  lemma LastMarkerSettles(sections: seq<Section>, front: seq<Section>, m: Marker, seen: seq<string>)
    requires |sections| <= |front| && Distinct(Families(front))
    requires forall i {:trigger front[i]} :: 0 <= i < |sections| ==>
      Settles(sections[i], front[i], sections[i].family in seen)
    requires forall i :: |sections| <= i < |front| ==> front[i].availability == Unsupported
    ensures var after := Marked(front, m);
            && |front| <= |after|
            && (forall i {:trigger after[i]} :: 0 <= i < |sections| ==>
                  Settles(sections[i], after[i], sections[i].family in seen + [m.family]))
            && (forall i :: |sections| <= i < |after| ==> after[i].availability == Unsupported)
  {
    MarkedSettles(front, m);
    var after := Marked(front, m);
    forall i | 0 <= i < |sections| ensures Settles(sections[i], after[i], sections[i].family in seen + [m.family]) {
      SettlesTwice(sections[i], front[i], after[i], sections[i].family in seen, sections[i].family == m.family);
    }
  }

  lemma SettlesTwice(a: Section, b: Section, c: Section, first: bool, second: bool)
    requires Settles(a, b, first) && Settles(b, c, second)
    ensures Settles(a, c, first || second)
  {
  }

  lemma MarkedSettles(sections: seq<Section>, m: Marker)
    requires Distinct(Families(sections))
    ensures var after := Marked(sections, m);
            && |sections| <= |after| <= |sections| + 1
            && (forall i :: 0 <= i < |sections| ==> Settles(sections[i], after[i], sections[i].family == m.family))
            && (|after| > |sections| ==> after[|sections|] == NewSection(m))
  {
    var names := Families(sections);
    var p := FirstIndex(names, m.family);
    forall i | 0 <= i < |sections| && i != p ensures sections[i].family != m.family {
      assert names[i] == sections[i].family;
      if p >= 0 {
        assert names[p] == m.family;
      }
    }
  }

  /** Every marked family ends up present and not merely unavailable. */
  lemma MarkedPresent(sections: seq<Section>, markers: seq<Marker>, family: string)
    requires Distinct(Families(sections)) && family in MarkerFamilies(markers)
    ensures var after := MarkedAll(sections, markers);
            var i := FirstIndex(Families(after), family);
            i >= 0 && after[i].availability != Unavailable
  {
    var after := MarkedAll(sections, markers);
    FamiliesInserted(sections, markers);
    InsertAllFacts(Families(sections), MarkerFamilies(markers));
    MarkersSettle(sections, markers);
    var i := FirstIndex(Families(after), family);
    if i < |sections| {
      assert Settles(sections[i], after[i], sections[i].family in MarkerFamilies(markers));
    }
  }

  /** The first marker of a family. */
  function FirstMarker(markers: seq<Marker>, family: string): (m: Option<Marker>)
    ensures m.Some? <==> family in MarkerFamilies(markers)
    ensures m.Some? ==> m.value.family == family
  {
    if markers == [] then None
    else
      var n := |markers| - 1;
      var front := FirstMarker(markers[..n], family);
      assert MarkerFamilies(markers) == MarkerFamilies(markers[..n]) + [markers[n].family];
      if front.Some? then front else if markers[n].family == family then Some(markers[n]) else None
  }

  /** What a section that was not there before, or was merely unavailable, says after the markers. */
  predicate Explained(before: seq<Section>, after: Section, i: nat, markers: seq<Marker>) {
    if i < |before| then
      before[i].availability == Unavailable && FirstMarker(markers, after.family).Some? ==>
        after.reason == FirstMarker(markers, after.family).value.reason
    else
      && FirstMarker(markers, after.family).Some?
      && after == NewSection(FirstMarker(markers, after.family).value)
  }

  /** The first marker of a family gives the reason. */
  lemma {:induction false} FirstMarkerExplains(sections: seq<Section>, markers: seq<Marker>, i: nat)
    requires Distinct(Families(sections)) && i < |MarkedAll(sections, markers)|
    ensures Explained(sections, MarkedAll(sections, markers)[i], i, markers)
    decreases |markers|
  {
    if markers != [] {
      var n := |markers| - 1;
      var front, m := MarkedAll(sections, markers[..n]), markers[n];
      MarkersSettle(sections, markers[..n]);
      MarkedSettles(front, m);
      if i < |front| {
        FirstMarkerExplains(sections, markers[..n], i);
        OneMoreExplains(sections, front, markers, i);
      } else {
        assert Marked(front, m)[i] == NewSection(m);
        NewFamily(sections, front, markers);
      }
    }
  }

  /** A family that gets a section of its own had no marker before. */
  lemma NewFamily(sections: seq<Section>, front: seq<Section>, markers: seq<Marker>)
    requires markers != [] && front == MarkedAll(sections, markers[..|markers| - 1])
    requires markers[|markers| - 1].family !in Families(front)
    ensures FirstMarker(markers[..|markers| - 1], markers[|markers| - 1].family).None?
  {
    FamiliesInserted(sections, markers[..|markers| - 1]);
    InsertAllFacts(Families(sections), MarkerFamilies(markers[..|markers| - 1]));
  }

  lemma OneMoreExplains(sections: seq<Section>, front: seq<Section>, markers: seq<Marker>, i: nat)
    requires markers != [] && Distinct(Families(front)) && |sections| <= |front| && i < |front|
    requires Explained(sections, front[i], i, markers[..|markers| - 1])
    requires i < |sections| ==>
      Settles(sections[i], front[i], sections[i].family in MarkerFamilies(markers[..|markers| - 1]))
    requires forall j :: |sections| <= j < |front| ==> front[j].availability == Unsupported
    ensures i < |Marked(front, markers[|markers| - 1])|
    ensures Explained(sections, Marked(front, markers[|markers| - 1])[i], i, markers)
  {
    var m := markers[|markers| - 1];
    MarkedSettles(front, m);
    var names := Families(front);
    var p := FirstIndex(names, m.family);
    if i != p && p >= 0 {
      assert names[i] == front[i].family && names[p] == m.family;
      assert Marked(front, m)[i] == front[i];
    }
    if p < 0 {
      assert names[i] == front[i].family;
    }
  }

  // ----- the bundle's own families -----

  function LocalNames(): seq<string> {
    ["plan", "input_schema_references", "output_schema", "output_fields", "lineage_graph", "metadata_attachments",
     "governed_attributes", "policy_checkpoints", "adapter_requirements", "unsupported_evidence"]
  }

  lemma LocalNamed(e: Evidence)
    ensures Families(LocalSections(e)) == LocalNames()
  {
  }

  lemma FamiliesAppend(a: seq<Section>, b: seq<Section>)
    ensures Families(a + b) == Families(a) + Families(b)
  {
  }

  /** The families of the literal sections, in order. */
  lemma BaseNamed(e: Evidence)
    ensures Families(BaseSections(e)) == LocalNames() + CallerFamilies()
  {
    LocalNamed(e);
    FamiliesAppend(LocalSections(e), CallerSections(e, CallerFamilies()));
  }

  predicate Apart(a: seq<string>, b: seq<string>) {
    forall i, j :: 0 <= i < |a| && 0 <= j < |b| ==> a[i] != b[j]
  }

  lemma CallersDistinct()
    ensures Distinct(CallerFamilies())
  {
  }

  lemma LocalsDistinct()
    ensures Distinct(LocalNames()) && Apart(LocalNames(), CallerFamilies())
  {
  }

  /** No two literal sections share a family. */
  lemma BaseDistinct()
    ensures Distinct(LocalNames() + CallerFamilies())
  {
    LocalsDistinct();
    CallersDistinct();
    DistinctAppend(LocalNames(), CallerFamilies());
  }

  lemma DistinctAppend(a: seq<string>, b: seq<string>)
    requires Distinct(a) && Distinct(b) && Apart(a, b)
    ensures Distinct(a + b)
  {
  }

  lemma LocalsApart()
    ensures Apart(LocalNames(), ReservedFamilies())
  {
  }

  lemma CallersApartFront()
    ensures Apart(CallerFamilies()[..10], ReservedFamilies())
  {
  }

  lemma CallersApartBack()
    ensures Apart(CallerFamilies()[10..], ReservedFamilies())
  {
  }

  /** No reserved family is one of the literal sections. */
  lemma ReservedApart()
    ensures Apart(LocalNames() + CallerFamilies(), ReservedFamilies())
  {
    var locals, callers := LocalNames(), CallerFamilies();
    LocalsApart();
    CallersApartFront();
    CallersApartBack();
    ApartAppend(callers[..10], callers[10..], ReservedFamilies());
    assert callers[..10] + callers[10..] == callers;
    ApartAppend(locals, callers, ReservedFamilies());
  }

  lemma ApartAppend(a: seq<string>, b: seq<string>, c: seq<string>)
    requires Apart(a, c) && Apart(b, c)
    ensures Apart(a + b, c)
  {
  }

  predicate ShownUnsupported(sections: seq<Section>, family: string) {
    var i := FirstIndex(Families(sections), family);
    i >= 0 && sections[i].availability == Unsupported
  }

  /** Where every section of the list stands after the markers and the reserved families. */
  ghost predicate Complete(base: seq<Section>, markers: seq<Marker>, reserved: seq<Marker>) {
    var after := MarkedAll(base, markers + reserved);
    && |base| <= |after|
    && Distinct(Families(after))
    && (forall i {:trigger after[i]} :: 0 <= i < |base| ==>
          Settles(base[i], after[i], base[i].family in MarkerFamilies(markers)))
    && (forall f :: f in MarkerFamilies(reserved) ==> ShownUnsupported(after, f))
  }

  lemma ApartComplete(base: seq<Section>, markers: seq<Marker>, reserved: seq<Marker>)
    requires Distinct(Families(base)) && Apart(Families(base), MarkerFamilies(reserved))
    ensures Complete(base, markers, reserved)
  {
    var after := MarkedAll(base, markers + reserved);
    MarkersSettle(base, markers + reserved);
    forall i | 0 <= i < |base| ensures Settles(base[i], after[i], base[i].family in MarkerFamilies(markers)) {
      ApartSettles(base, markers, reserved, i, after[i]);
    }
    forall f | f in MarkerFamilies(reserved) ensures ShownUnsupported(after, f) {
      ReservedShown(base, markers, reserved, f);
    }
  }

  lemma ReservedShown(base: seq<Section>, markers: seq<Marker>, reserved: seq<Marker>, f: string)
    requires Distinct(Families(base)) && Apart(Families(base), MarkerFamilies(reserved))
    requires f in MarkerFamilies(reserved)
    ensures ShownUnsupported(MarkedAll(base, markers + reserved), f)
  {
    MarkersSettle(base, markers + reserved);
    ReservedAppears(base, markers, reserved, f);
    ApartMember(Families(base), MarkerFamilies(reserved), f);
    NewShown(base, MarkedAll(base, markers + reserved), f);
  }

  lemma ReservedAppears(base: seq<Section>, markers: seq<Marker>, reserved: seq<Marker>, f: string)
    requires f in MarkerFamilies(reserved)
    ensures f in Families(MarkedAll(base, markers + reserved))
    ensures Families(base) <= Families(MarkedAll(base, markers + reserved))
  {
    var all := markers + reserved;
    FamiliesInserted(base, all);
    InsertAllFacts(Families(base), MarkerFamilies(all));
    assert MarkerFamilies(all) == MarkerFamilies(markers) + MarkerFamilies(reserved);
  }

  lemma ApartMember(a: seq<string>, b: seq<string>, x: string)
    requires Apart(a, b) && x in b
    ensures x !in a
  {
  }

  lemma ApartSettles(base: seq<Section>, markers: seq<Marker>, reserved: seq<Marker>, i: nat, after: Section)
    requires i < |base| && Apart(Families(base), MarkerFamilies(reserved))
    requires Settles(base[i], after, base[i].family in MarkerFamilies(markers + reserved))
    ensures Settles(base[i], after, base[i].family in MarkerFamilies(markers))
  {
    assert Families(base)[i] == base[i].family;
    assert MarkerFamilies(markers + reserved) == MarkerFamilies(markers) + MarkerFamilies(reserved);
  }

  /** A family that is not among the first sections is found behind them. */
  lemma NewShown(base: seq<Section>, after: seq<Section>, f: string)
    requires f in Families(after) && f !in Families(base) && Families(base) <= Families(after)
    requires forall i :: |base| <= i < |after| ==> after[i].availability == Unsupported
    ensures ShownUnsupported(after, f)
  {
    var i := FirstIndex(Families(after), f);
    assert Families(after)[..|base|] == Families(base);
    assert i >= |base|;
  }

  /** Main result: whatever was inspected and supplied, the families of a bundle are pairwise distinct; the literal
      sections come first and settle under the markers of the inspection; and each of the sixteen reserved families
      is there, Unsupported. */
  lemma BundleComplete(e: Evidence)
    ensures Complete(BaseSections(e), e.unsupported, ReservedMarkers(ReservedFamilies()))
  {
    BaseNamed(e);
    BaseDistinct();
    ReservedApart();
    ApartComplete(BaseSections(e), e.unsupported, ReservedMarkers(ReservedFamilies()));
  }

  /** The section says this much of its family, whatever its availability. */
  predicate Tells(s: Section, family: string, requirement: Requirement, count: int, refs: seq<string>) {
    s.family == family && s.requirement == requirement && s.count == count && s.refs == refs
  }

  /** A literal section keeps its place, and what it says, under all markers. */
  lemma BaseStays(e: Evidence, i: nat)
    requires i < |BaseSections(e)|
    ensures |BundleSections(e)| >= |BaseSections(e)|
    ensures var b := BaseSections(e)[i]; Tells(BundleSections(e)[i], b.family, b.requirement, b.count, b.refs)
  {
    BundleComplete(e);
  }

  /** Main result: what each local section counts and refers to. */
  lemma LocalTells(e: Evidence)
    ensures |BundleSections(e)| >= 30
    ensures var s := BundleSections(e);
            && Tells(s[0], "plan", Required, 1, [e.target])
            && Tells(s[1], "input_schema_references", Required, |e.readRoots|, e.readRoots)
            && Tells(s[2], "output_schema", Required, e.schemaCount, e.fields)
            && Tells(s[3], "output_fields", Required, |e.fields|, e.fields)
            && Tells(s[4], "lineage_graph", Required, e.edgeCount, [e.plan])
    ensures var s := BundleSections(e);
            && Tells(s[5], "metadata_attachments", Required, |e.attachments|, e.attachments)
            && Tells(s[6], "governed_attributes", Required, |e.attributes|, e.attributes)
            && Tells(s[7], "policy_checkpoints", Required, |e.checkpoints|, e.checkpoints)
            && Tells(s[8], "adapter_requirements", Required, |e.requirements|, e.requirements)
            && Tells(s[9], "unsupported_evidence", Required, |e.unsupported|, s[9].refs)
            && |s[9].refs| == |e.unsupported|
            && forall k :: 0 <= k < |e.unsupported| ==> s[9].refs[k] == "unsupported:" + e.unsupported[k].family
  {
    BaseStays(e, 0);
    BaseStays(e, 1);
    BaseStays(e, 2);
    BaseStays(e, 3);
    BaseStays(e, 4);
    BaseStays(e, 5);
    BaseStays(e, 6);
    BaseStays(e, 7);
    BaseStays(e, 8);
    BaseStays(e, 9);
  }

  /** What each optional section counts and refers to: the records the caller supplied, and none for the Substrait
      artifact. */
  lemma CallerTells(e: Evidence, i: nat)
    requires i < 20
    ensures |BundleSections(e)| >= 30
    ensures var family, s := CallerFamilies()[i], BundleSections(e)[10 + i];
            if i < 19 && family in e.supplied
            then Tells(s, family, Optional, e.supplied[family].count, e.supplied[family].refs)
            else Tells(s, family, Optional, 0, [])
  {
    BaseStays(e, 10 + i);
    CallersDistinct();
    assert CallerFamilies()[19] == "substrait_plan_artifact";
    assert BaseSections(e)[10 + i] == CallerSections(e, CallerFamilies())[i];
  }

  /** Which sections of a bundle are available: the local ones, of them the input references only when there are any,
      and what the caller supplied. Markers never change that. */
  lemma LocalAvailable(e: Evidence, i: nat)
    requires i < 10
    ensures |BundleSections(e)| >= 10
    ensures BundleSections(e)[i].family == LocalNames()[i]
    ensures BundleSections(e)[i].availability == Available <==> i != 1 || e.readRoots != []
  {
    BundleComplete(e);
    LocalNamed(e);
    assert BaseSections(e)[i] == LocalSections(e)[i];
    assert Families(LocalSections(e))[i] == LocalSections(e)[i].family;
  }

  lemma CallerAvailable(e: Evidence, i: nat)
    requires i < 20
    ensures |BundleSections(e)| >= 30
    ensures BundleSections(e)[10 + i].family == CallerFamilies()[i]
    ensures BundleSections(e)[10 + i].availability == Available <==> Given(e, CallerFamilies()[i]).count > 0
  {
    BundleComplete(e);
    assert BaseSections(e)[10 + i] == CallerSections(e, CallerFamilies())[i];
  }
}
