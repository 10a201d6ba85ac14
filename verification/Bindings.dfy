/** Fixed plan bindings: built from a contract by the generator, and checked again row by row
    by the validator with a construction of its own. */
module Bindings {
  import opened Wrappers
  import opened Ordering
  import opened Sequences
  import opened Contract

  datatype PrimaryRow = PrimaryRow(
    id: string,
    behaviorGroups: seq<string>,
    boundaryForm: string,
    descriptionSha256: string,
    primaryTargets: seq<string>,
    sourceFingerprint: seq<Source>,
    suiteCases: seq<SuiteCase>,
    upstreamTests: seq<string>)

  datatype CaseContext = CaseContext(
    id: string,
    behaviorGroups: seq<string>,
    surface: string,
    targets: seq<Target>,
    upstreamTests: seq<string>)

  datatype InteractionRow = InteractionRow(
    id: string,
    caseContexts: seq<CaseContext>,
    domain: string,
    memberIds: seq<string>,
    plannedCases: seq<string>,
    sourceFingerprint: seq<Source>)

  datatype Document = Document(primaryPlans: seq<PrimaryRow>, criticalInteractions: seq<InteractionRow>)

  /** What the rows depend on besides the contract: the boundary form of a case, which may not
      be derivable, and the hash of its description. */
  datatype Facts = Facts(form: Case -> Option<string>, sha256: string -> string)

  // ----- Sorting keys -----

  function SuiteOrder(a: SuiteCase, b: SuiteCase): bool {
    TupleLeq([a.suiteId, a.caseId], [b.suiteId, b.caseId])
  }

  function RoleName(role: Role): string {
    match role case Primary => "primary" case OtherRole(name) => name
  }

  function TargetOrder(a: Target, b: Target): bool {
    TupleLeq([a.id, RoleName(a.role)], [b.id, RoleName(b.role)])
  }

  function TextOf(s: Source): string {
    if s.text.Some? then s.text.value else ""
  }

  function SourceOrder(a: Source, b: Source): bool {
    if a.repository != b.repository then LexLeq(a.repository, b.repository)
    else if a.path != b.path then LexLeq(a.path, b.path)
    else if a.line != b.line then a.line < b.line
    else if a.kind != b.kind then LexLeq(a.kind, b.kind)
    else LexLeq(TextOf(a), TextOf(b))
  }

  function PrimaryTarget(t: Target): Option<string> {
    if t.role == Primary then Some(t.id) else None
  }

  // ----- The validator's rows -----

  predicate IsBoundPlan(c: Case) {
    IsSubstantivePlan(c) && c.caseClass != Interaction
  }

  predicate IsBoundGroup(g: Group) {
    g.critical && g.reviewStatus == Reviewed
  }

  /** `actual_primary_plan_binding`, given the case's boundary form. */
  function ActualPrimary(c: Case, form: string, sha256: string -> string): PrimaryRow {
    PrimaryRow(c.id, c.behaviorGroups, form, sha256(c.description),
               Sort(Collect(c.targets, PrimaryTarget), LexLeq), Sort(c.sources, SourceOrder),
               Sort(c.suiteCases, SuiteOrder), c.upstreamTests)
  }

  /** `{case["id"]: case}`: the last case with an id wins. */
  function CaseById(cases: seq<Case>, id: string): Option<Case> {
    if cases == [] then None
    else if cases[|cases| - 1].id == id then Some(cases[|cases| - 1])
    else CaseById(cases[..|cases| - 1], id)
  }

  predicate PlansKnown(g: Group, cases: seq<Case>) {
    forall i :: 0 <= i < |g.plannedCases| ==> CaseById(cases, g.plannedCases[i]).Some?
  }

  function Context(id: string, c: Case): CaseContext {
    CaseContext(id, c.behaviorGroups, c.surface, Sort(c.targets, TargetOrder), c.upstreamTests)
  }

  function ContextOf(cases: seq<Case>): string -> Option<CaseContext> {
    (id: string) => if CaseById(cases, id).Some? then Some(Context(id, CaseById(cases, id).value)) else None
  }

  function ContextId(x: CaseContext): string { x.id }

  /** `actual_critical_interaction_binding`. */
  function ActualInteraction(g: Group, cases: seq<Case>): InteractionRow {
    InteractionRow(g.id, Sort(Collect(g.plannedCases, ContextOf(cases)), ByKey(ContextId)), g.domain,
                   Sort(g.members, LexLeq), g.plannedCases, Sort(g.sources, SourceOrder))
  }

  // ----- The generator's document -----

  datatype BuildError = NoBoundaryForm(caseId: string) | UnknownPlannedCase(groupId: string)

  function PrimaryRowOf(facts: Facts): Case -> Option<PrimaryRow> {
    (c: Case) => if IsBoundPlan(c) && facts.form(c).Some?
                 then Some(ActualPrimary(c, facts.form(c).value, facts.sha256)) else None
  }

  function InteractionRowOf(cases: seq<Case>): Group -> Option<InteractionRow> {
    (g: Group) => if IsBoundGroup(g) then Some(ActualInteraction(g, cases)) else None
  }

  function PrimaryId(r: PrimaryRow): string { r.id }
  function InteractionId(r: InteractionRow): string { r.id }

  ghost predicate Buildable(cases: seq<Case>, groups: seq<Group>, facts: Facts) {
    && (forall i :: 0 <= i < |cases| && IsBoundPlan(cases[i]) ==> facts.form(cases[i]).Some?)
    && (forall i :: 0 <= i < |groups| && IsBoundGroup(groups[i]) ==> PlansKnown(groups[i], cases))
  }

  function BuiltDocument(cases: seq<Case>, groups: seq<Group>, facts: Facts): Document {
    Document(Sort(Collect(cases, PrimaryRowOf(facts)), ByKey(PrimaryId)),
             Sort(Collect(groups, InteractionRowOf(cases)), ByKey(InteractionId)))
  }

  /** `build_plan_bindings`: rows appended in contract order and sorted by id at the end. */
  method BuildPlanBindings(cases: seq<Case>, groups: seq<Group>, facts: Facts)
    returns (r: Result<Document, BuildError>)
    ensures r.Ok? <==> Buildable(cases, groups, facts)
    ensures r.Ok? ==> r.value == BuiltDocument(cases, groups, facts)
  {
    hide Sort, Collect, IsBoundPlan, PlansKnown, ByKey;
    var primary: seq<PrimaryRow> := [];
    CollectEmpty(PrimaryRowOf(facts));
    for i := 0 to |cases|
      invariant primary == Collect(cases[..i], PrimaryRowOf(facts))
      invariant forall k :: 0 <= k < i && IsBoundPlan(cases[k]) ==> facts.form(cases[k]).Some?
    {
      var c := cases[i];
      CollectNext(cases, i, PrimaryRowOf(facts));
      if IsBoundPlan(c) {
        var form := facts.form(c);
        if form.None? { return Err(NoBoundaryForm(c.id)); }
        primary := primary + [PrimaryRow(c.id, c.behaviorGroups, form.value, facts.sha256(c.description),
          Sort(Collect(c.targets, PrimaryTarget), LexLeq), Sort(c.sources, SourceOrder),
          Sort(c.suiteCases, SuiteOrder), c.upstreamTests)];
      }
    }
    assert cases[..|cases|] == cases;
    var interactions: seq<InteractionRow> := [];
    CollectEmpty(InteractionRowOf(cases));
    for i := 0 to |groups|
      invariant interactions == Collect(groups[..i], InteractionRowOf(cases))
      invariant forall k :: 0 <= k < i && IsBoundGroup(groups[k]) ==> PlansKnown(groups[k], cases)
    {
      var g := groups[i];
      CollectNext(groups, i, InteractionRowOf(cases));
      if IsBoundGroup(g) {
        if !PlansKnown(g, cases) { return Err(UnknownPlannedCase(g.id)); }
        interactions := interactions + [InteractionRow(g.id,
          Sort(Collect(g.plannedCases, ContextOf(cases)), ByKey(ContextId)), g.domain,
          Sort(g.members, LexLeq), g.plannedCases, Sort(g.sources, SourceOrder))];
      }
    }
    assert groups[..|groups|] == groups;
    return Ok(Document(Sort(primary, ByKey(PrimaryId)), Sort(interactions, ByKey(InteractionId))));
  }

  // ----- The validator's reverse checks -----

  function RowById<R>(rows: seq<R>, rowId: R -> string, id: string): Option<R> {
    if rows == [] then None
    else if rowId(rows[|rows| - 1]) == id then Some(rows[|rows| - 1])
    else RowById(rows[..|rows| - 1], rowId, id)
  }

  datatype Drift =
    | MissingPrimary | NoForm | PrimaryTargetDrift | BoundaryFormDrift | DescriptionDrift | SourceDrift
    | UpstreamDrift | BehaviorGroupDrift | SuiteCaseDrift
    | MissingInteraction | PlannedCaseUnknown | MemberDrift | PlannedCaseDrift | ContextDrift
    | InteractionSourceDrift | DomainDrift

  /** The field-by-field comparisons of one primary plan. */
  function PrimaryDrift(actual: PrimaryRow, bound: PrimaryRow): Option<Drift> {
    if actual.primaryTargets != bound.primaryTargets then Some(PrimaryTargetDrift)
    else if actual.boundaryForm != bound.boundaryForm then Some(BoundaryFormDrift)
    else if actual.descriptionSha256 != bound.descriptionSha256 then Some(DescriptionDrift)
    else if actual.sourceFingerprint != bound.sourceFingerprint then Some(SourceDrift)
    else if actual.upstreamTests != bound.upstreamTests then Some(UpstreamDrift)
    else if actual.behaviorGroups != bound.behaviorGroups then Some(BehaviorGroupDrift)
    else if actual.suiteCases != bound.suiteCases then Some(SuiteCaseDrift)
    else None
  }

  function InteractionDrift(actual: InteractionRow, bound: InteractionRow): Option<Drift> {
    if actual.memberIds != bound.memberIds then Some(MemberDrift)
    else if actual.plannedCases != bound.plannedCases then Some(PlannedCaseDrift)
    else if actual.caseContexts != bound.caseContexts then Some(ContextDrift)
    else if actual.sourceFingerprint != bound.sourceFingerprint then Some(InteractionSourceDrift)
    else if actual.domain != bound.domain then Some(DomainDrift)
    else None
  }

  function CaseDrift(doc: Document, c: Case, facts: Facts): Option<Drift> {
    if !IsBoundPlan(c) then None
    else
      var bound := RowById(doc.primaryPlans, PrimaryId, c.id);
      if bound.None? then Some(MissingPrimary)
      else if facts.form(c).None? then Some(NoForm)
      else PrimaryDrift(ActualPrimary(c, facts.form(c).value, facts.sha256), bound.value)
  }

  function GroupDrift(doc: Document, g: Group, cases: seq<Case>): Option<Drift> {
    if !IsBoundGroup(g) then None
    else
      var bound := RowById(doc.criticalInteractions, InteractionId, g.id);
      if bound.None? then Some(MissingInteraction)
      else if !PlansKnown(g, cases) then Some(PlannedCaseUnknown)
      else InteractionDrift(ActualInteraction(g, cases), bound.value)
  }

  /** The loops of `validate_plan_bindings` after the document comparison. */
  method ReverseChecks(doc: Document, cases: seq<Case>, groups: seq<Group>, facts: Facts) returns (drift: Option<Drift>)
    ensures drift.None? <==>
              && (forall i :: 0 <= i < |cases| ==> CaseDrift(doc, cases[i], facts).None?)
              && (forall i :: 0 <= i < |groups| ==> GroupDrift(doc, groups[i], cases).None?)
    ensures drift.Some? ==>
              || (exists i :: 0 <= i < |cases| && drift == CaseDrift(doc, cases[i], facts)
                              && forall k :: 0 <= k < i ==> CaseDrift(doc, cases[k], facts).None?)
              || ((forall i :: 0 <= i < |cases| ==> CaseDrift(doc, cases[i], facts).None?)
                  && exists i :: 0 <= i < |groups| && drift == GroupDrift(doc, groups[i], cases)
                                 && forall k :: 0 <= k < i ==> GroupDrift(doc, groups[k], cases).None?)
  {
    hide CaseDrift, GroupDrift;
    drift := None;
    for i := 0 to |cases|
      invariant forall k :: 0 <= k < i ==> CaseDrift(doc, cases[k], facts).None?
    {
      drift := CaseDrift(doc, cases[i], facts);
      if drift.Some? { return; }
    }
    for i := 0 to |groups|
      invariant forall k :: 0 <= k < i ==> GroupDrift(doc, groups[k], cases).None?
    {
      drift := GroupDrift(doc, groups[i], cases);
      if drift.Some? { return; }
    }
    drift := None;
  }

  // ----- The two constructions agree -----

  lemma {:induction false} RowByIdFinds<R(!new)>(rows: seq<R>, rowId: R -> string, id: string)
    ensures RowById(rows, rowId, id).Some? ==>
              RowById(rows, rowId, id).value in rows && rowId(RowById(rows, rowId, id).value) == id
    ensures (exists r :: r in rows && rowId(r) == id) ==> RowById(rows, rowId, id).Some?
  {
    if rows != [] {
      RowByIdFinds(rows[..|rows| - 1], rowId, id);
      assert rows == rows[..|rows| - 1] + [rows[|rows| - 1]];
    }
  }

  /** Bound cases that share an id have the same row; trivially so when ids are unique. */
  ghost predicate SameIdSamePlan(cases: seq<Case>, facts: Facts) {
    forall c, d :: c in cases && d in cases && IsBoundPlan(c) && IsBoundPlan(d) && c.id == d.id ==>
      PrimaryRowOf(facts)(c) == PrimaryRowOf(facts)(d)
  }

  ghost predicate SameIdSameInteraction(groups: seq<Group>, cases: seq<Case>) {
    forall g, h :: g in groups && h in groups && IsBoundGroup(g) && IsBoundGroup(h) && g.id == h.id ==>
      ActualInteraction(g, cases) == ActualInteraction(h, cases)
  }

  lemma PrimaryDriftIff(actual: PrimaryRow, bound: PrimaryRow)
    requires actual.id == bound.id
    ensures PrimaryDrift(actual, bound).None? <==> actual == bound
  {}

  lemma InteractionDriftIff(actual: InteractionRow, bound: InteractionRow)
    requires actual.id == bound.id
    ensures InteractionDrift(actual, bound).None? <==> actual == bound
  {}

  /** The row the validator finds for a bound case is the row of a bound case with that id. */
  lemma PrimaryFound(cases: seq<Case>, groups: seq<Group>, facts: Facts, c: Case)
    returns (d: Case)
    requires Buildable(cases, groups, facts) && c in cases && IsBoundPlan(c)
    ensures d in cases && IsBoundPlan(d) && d.id == c.id && facts.form(d).Some? && facts.form(c).Some?
    ensures RowById(BuiltDocument(cases, groups, facts).primaryPlans, PrimaryId, c.id) == PrimaryRowOf(facts)(d)
  {
    hide Sort, Collect, IsBoundPlan, ByKey, PlansKnown;
    var rows := Collect(cases, PrimaryRowOf(facts));
    var sorted := BuiltDocument(cases, groups, facts).primaryPlans;
    SortMembers(rows, ByKey(PrimaryId));
    FormOf(cases, groups, facts, c);
    var mine := ActualPrimary(c, facts.form(c).value, facts.sha256);
    CollectMembers(cases, PrimaryRowOf(facts), mine);
    assert PrimaryRowOf(facts)(c) == Some(mine) && PrimaryId(mine) == c.id;
    RowByIdFinds(sorted, PrimaryId, c.id);
    var found := RowById(sorted, PrimaryId, c.id).value;
    CollectMembers(cases, PrimaryRowOf(facts), found);
    d :| d in cases && PrimaryRowOf(facts)(d) == Some(found);
  }

  lemma FormOf(cases: seq<Case>, groups: seq<Group>, facts: Facts, c: Case)
    requires Buildable(cases, groups, facts) && c in cases && IsBoundPlan(c)
    ensures facts.form(c).Some?
  {
    hide IsBoundPlan, PlansKnown;
    var i :| 0 <= i < |cases| && cases[i] == c;
  }

  lemma InteractionFound(cases: seq<Case>, groups: seq<Group>, facts: Facts, g: Group)
    returns (h: Group)
    requires g in groups && IsBoundGroup(g)
    ensures h in groups && IsBoundGroup(h) && h.id == g.id
    ensures RowById(BuiltDocument(cases, groups, facts).criticalInteractions, InteractionId, g.id)
            == Some(ActualInteraction(h, cases))
  {
    hide Sort, Collect, ByKey;
    var rows := Collect(groups, InteractionRowOf(cases));
    var sorted := BuiltDocument(cases, groups, facts).criticalInteractions;
    SortMembers(rows, ByKey(InteractionId));
    var mine := ActualInteraction(g, cases);
    CollectMembers(groups, InteractionRowOf(cases), mine);
    assert InteractionRowOf(cases)(g) == Some(mine) && InteractionId(mine) == g.id;
    RowByIdFinds(sorted, InteractionId, g.id);
    var found := RowById(sorted, InteractionId, g.id).value;
    CollectMembers(groups, InteractionRowOf(cases), found);
    h :| h in groups && InteractionRowOf(cases)(h) == Some(found);
  }

  /** Against the document the generator builds, the validator's case checks find no drift
      exactly when bound cases that share an id share their row. */
  lemma CasesAgree(cases: seq<Case>, groups: seq<Group>, facts: Facts)
    requires Buildable(cases, groups, facts)
    ensures (forall i :: 0 <= i < |cases| ==> CaseDrift(BuiltDocument(cases, groups, facts), cases[i], facts).None?)
            <==> SameIdSamePlan(cases, facts)
  {
    hide BuiltDocument, IsBoundPlan, ActualPrimary, PrimaryDrift, RowById, Buildable;
    var doc := BuiltDocument(cases, groups, facts);
    forall c | c in cases && IsBoundPlan(c)
      ensures exists d :: d in cases && IsBoundPlan(d) && d.id == c.id
                       && (CaseDrift(doc, c, facts).None? <==> PrimaryRowOf(facts)(c) == PrimaryRowOf(facts)(d))
                       && RowById(doc.primaryPlans, PrimaryId, c.id) == PrimaryRowOf(facts)(d)
    {
      var d := PrimaryFound(cases, groups, facts, c);
      PrimaryRowId(c, facts);
      PrimaryRowId(d, facts);
      PrimaryDriftIff(PrimaryRowOf(facts)(c).value, PrimaryRowOf(facts)(d).value);
    }
    if forall i :: 0 <= i < |cases| ==> CaseDrift(doc, cases[i], facts).None? {
      forall c, d | c in cases && d in cases && IsBoundPlan(c) && IsBoundPlan(d) && c.id == d.id
        ensures PrimaryRowOf(facts)(c) == PrimaryRowOf(facts)(d)
      {
        assert CaseDrift(doc, c, facts).None? && CaseDrift(doc, d, facts).None?;
      }
    }
    if SameIdSamePlan(cases, facts) {
      forall i | 0 <= i < |cases| ensures CaseDrift(doc, cases[i], facts).None? {
        if !IsBoundPlan(cases[i]) {
          Unbound(doc, cases[i], facts);
        }
      }
    }
  }

  lemma Unbound(doc: Document, c: Case, facts: Facts)
    requires !IsBoundPlan(c)
    ensures CaseDrift(doc, c, facts).None?
  {}

  lemma PrimaryRowId(c: Case, facts: Facts)
    requires IsBoundPlan(c) && facts.form(c).Some?
    ensures PrimaryRowOf(facts)(c).Some? && PrimaryRowOf(facts)(c).value.id == c.id
    ensures PrimaryRowOf(facts)(c).value == ActualPrimary(c, facts.form(c).value, facts.sha256)
  {}

  ghost predicate AllPlansKnown(groups: seq<Group>, cases: seq<Case>) {
    forall g :: g in groups && IsBoundGroup(g) ==> PlansKnown(g, cases)
  }

  /** The same for interaction groups, whose planned cases must all be known besides. */
  lemma GroupsAgree(cases: seq<Case>, groups: seq<Group>, facts: Facts)
    ensures (forall i :: 0 <= i < |groups| ==> GroupDrift(BuiltDocument(cases, groups, facts), groups[i], cases).None?)
            <==> AllPlansKnown(groups, cases) && SameIdSameInteraction(groups, cases)
  {
    hide BuiltDocument, ActualInteraction, InteractionDrift, RowById, PlansKnown;
    var doc := BuiltDocument(cases, groups, facts);
    forall g | g in groups && IsBoundGroup(g)
      ensures exists h :: h in groups && IsBoundGroup(h) && h.id == g.id
                       && (GroupDrift(doc, g, cases).None? <==>
                             PlansKnown(g, cases) && ActualInteraction(g, cases) == ActualInteraction(h, cases))
                       && RowById(doc.criticalInteractions, InteractionId, g.id) == Some(ActualInteraction(h, cases))
    {
      var h := InteractionFound(cases, groups, facts, g);
      InteractionRowId(g, cases);
      InteractionRowId(h, cases);
      InteractionDriftIff(ActualInteraction(g, cases), ActualInteraction(h, cases));
    }
    if forall i :: 0 <= i < |groups| ==> GroupDrift(doc, groups[i], cases).None? {
      forall g, h | g in groups && h in groups && IsBoundGroup(g) && IsBoundGroup(h) && g.id == h.id
        ensures ActualInteraction(g, cases) == ActualInteraction(h, cases)
      {
        assert GroupDrift(doc, g, cases).None? && GroupDrift(doc, h, cases).None?;
      }
      forall g | g in groups && IsBoundGroup(g) ensures PlansKnown(g, cases) {
        assert GroupDrift(doc, g, cases).None?;
      }
    }
  }

  lemma InteractionRowId(g: Group, cases: seq<Case>)
    ensures ActualInteraction(g, cases).id == g.id
  {}

  /** With unique ids none of the validator's later drift checks can fail. */
  lemma UniqueIdsNeverDrift(cases: seq<Case>, groups: seq<Group>, facts: Facts)
    requires Buildable(cases, groups, facts)
    requires forall c, d :: c in cases && d in cases && c.id == d.id ==> c == d
    requires forall g, h :: g in groups && h in groups && g.id == h.id ==> g == h
    ensures var doc := BuiltDocument(cases, groups, facts);
            && (forall i :: 0 <= i < |cases| ==> CaseDrift(doc, cases[i], facts).None?)
            && (forall i :: 0 <= i < |groups| ==> GroupDrift(doc, groups[i], cases).None?)
  {
    hide BuiltDocument, CaseDrift, GroupDrift, IsBoundPlan, PlansKnown;
    assert AllPlansKnown(groups, cases);
    CasesAgree(cases, groups, facts);
    GroupsAgree(cases, groups, facts);
  }
}
