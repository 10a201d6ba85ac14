/** What the rows of the plan bindings hold, and which cases and groups have one. */
module BindingRows {
  import opened Wrappers
  import opened Ordering
  import opened Sequences
  import opened Contract
  import opened Bindings

  // ----- Orders -----

  /** By suite, and by case within a suite. */
  predicate SuiteBefore(a: SuiteCase, b: SuiteCase) {
    LexLeq(a.suiteId, b.suiteId) && (a.suiteId == b.suiteId ==> LexLeq(a.caseId, b.caseId))
  }

  predicate TargetBefore(a: Target, b: Target) {
    LexLeq(a.id, b.id) && (a.id == b.id ==> LexLeq(RoleText(a.role), RoleText(b.role)))
  }

  function RoleText(role: Contract.Role): string {
    if role.Primary? then "primary" else role.name
  }

  /** By repository, path, line, kind and text, an absent text being empty. */
  predicate SourceBefore(a: Source, b: Source) {
    && LexLeq(a.repository, b.repository)
    && (a.repository == b.repository ==> LexLeq(a.path, b.path))
    && (a.repository == b.repository && a.path == b.path ==> a.line <= b.line)
    && (a.repository == b.repository && a.path == b.path && a.line == b.line ==> LexLeq(a.kind, b.kind))
    && (a.repository == b.repository && a.path == b.path && a.line == b.line && a.kind == b.kind ==>
          LexLeq(if a.text.Some? then a.text.value else "", if b.text.Some? then b.text.value else ""))
  }

  lemma TwoFields(a: seq<string>, b: seq<string>)
    requires |a| == 2 && |b| == 2
    ensures TupleLeq(a, b) <==> LexLeq(a[0], b[0]) && (a[0] == b[0] ==> LexLeq(a[1], b[1]))
  {
    hide LexLeq;
    LexTotal(a[0], b[0]);
    LexTotal(a[1], b[1]);
    assert |a[1..]| == 1 && |b[1..]| == 1 && a[1..][1..] == [] && b[1..][1..] == [];
    assert TupleLeq(a[1..][1..], b[1..][1..]);
  }

  lemma SuiteOrders()
    ensures IsOrder(SuiteOrder) && forall a, b :: SuiteOrder(a, b) <==> SuiteBefore(a, b)
  {
    hide LexLeq, TupleLeq, IsOrder, SuiteOrder, SuiteBefore;
    forall a, b ensures SuiteOrder(a, b) <==> SuiteBefore(a, b) {
      SuiteIs(a, b);
    }
    SuiteIsOrder();
  }

  lemma SuiteIs(a: SuiteCase, b: SuiteCase)
    ensures SuiteOrder(a, b) <==> SuiteBefore(a, b)
  {
    hide LexLeq, TupleLeq;
    TwoFields([a.suiteId, a.caseId], [b.suiteId, b.caseId]);
  }

  lemma SuiteIsOrder()
    ensures IsOrder(SuiteOrder)
  {
    hide TupleLeq;
    TupleIsOrder();
    forall x, y: SuiteCase ensures SuiteOrder(x, y) || SuiteOrder(y, x) {
      TupleTotal([x.suiteId, x.caseId], [y.suiteId, y.caseId]);
    }
    forall x, y, z: SuiteCase | SuiteOrder(x, y) && SuiteOrder(y, z) ensures SuiteOrder(x, z) {
      TupleTransitive([x.suiteId, x.caseId], [y.suiteId, y.caseId], [z.suiteId, z.caseId]);
    }
  }

  lemma TargetOrders()
    ensures IsOrder(TargetOrder) && forall a, b :: TargetOrder(a, b) <==> TargetBefore(a, b)
  {
    hide LexLeq, TupleLeq;
    forall a, b ensures TargetOrder(a, b) <==> TargetBefore(a, b) {
      TwoFields([a.id, RoleName(a.role)], [b.id, RoleName(b.role)]);
    }
    forall x, y: Target ensures TargetOrder(x, y) || TargetOrder(y, x) {
      TupleTotal([x.id, RoleName(x.role)], [y.id, RoleName(y.role)]);
    }
    forall x, y, z: Target | TargetOrder(x, y) && TargetOrder(y, z) ensures TargetOrder(x, z) {
      TupleTransitive([x.id, RoleName(x.role)], [y.id, RoleName(y.role)], [z.id, RoleName(z.role)]);
    }
  }

  lemma SourceOrders()
    ensures IsOrder(SourceOrder) && forall a, b :: SourceOrder(a, b) <==> SourceBefore(a, b)
  {
    hide LexLeq;
    forall a, b ensures SourceOrder(a, b) <==> SourceBefore(a, b) {
      SourceIs(a, b);
    }
    forall x, y: Source ensures SourceOrder(x, y) || SourceOrder(y, x) {
      SourceTotal(x, y);
    }
    forall x, y, z: Source | SourceOrder(x, y) && SourceOrder(y, z) ensures SourceOrder(x, z) {
      SourceTransitive(x, y, z);
    }
  }

  lemma SourceIs(a: Source, b: Source)
    ensures SourceOrder(a, b) <==> SourceBefore(a, b)
  {
    hide LexLeq;
    LexTotal(a.repository, b.repository);
    LexTotal(a.path, b.path);
    LexTotal(a.kind, b.kind);
    LexTotal(TextOf(a), TextOf(b));
  }

  lemma SourceTotal(a: Source, b: Source)
    ensures SourceOrder(a, b) || SourceOrder(b, a)
  {
    hide LexLeq;
    LexTotal(a.repository, b.repository);
    LexTotal(a.path, b.path);
    LexTotal(a.kind, b.kind);
    LexTotal(TextOf(a), TextOf(b));
  }

  lemma SourceTransitive(a: Source, b: Source, c: Source)
    requires SourceOrder(a, b) && SourceOrder(b, c)
    ensures SourceOrder(a, c)
  {
    hide LexLeq;
    OrLess(a.repository, b.repository, c.repository);
    OrLess(a.path, b.path, c.path);
    OrLess(a.kind, b.kind, c.kind);
    OrLess(TextOf(a), TextOf(b), TextOf(c));
  }

  /** Strict or equal steps compose. */
  lemma OrLess(a: string, b: string, c: string)
    ensures LexLeq(a, b) && LexLeq(b, c) ==> LexLeq(a, c)
    ensures LexLeq(a, b) && LexLeq(b, c) && (a != b || b != c) ==> a != c
    ensures LexLeq(a, a)
  {
    hide LexLeq;
    LexTotal(a, b);
    LexTotal(a, a);
    LexTotal(b, c);
    if LexLeq(a, b) && LexLeq(b, c) {
      LexTransitive(a, b, c);
    }
  }

  // ----- Primary plans -----

  /** The elements of `xs`, each as often, in order. */
  ghost predicate Arranged<T(!new)>(row: seq<T>, xs: seq<T>, before: (T, T) -> bool) {
    multiset(row) == multiset(xs) && forall i, j :: 0 <= i < j < |row| ==> before(row[i], row[j])
  }

  /** The ids of the primary targets, in the order of the case. */
  function PrimaryIds(targets: seq<Target>): seq<string> {
    if targets == [] then []
    else
      var init, last := targets[..|targets| - 1], targets[|targets| - 1];
      PrimaryIds(init) + if last.role.Primary? then [last.id] else []
  }

  lemma {:induction false} PrimaryCollected(targets: seq<Target>)
    ensures Collect(targets, PrimaryTarget) == PrimaryIds(targets)
  {
    if targets != [] {
      var n := |targets| - 1;
      PrimaryCollected(targets[..n]);
      CollectNext(targets, n, PrimaryTarget);
      assert targets[..n + 1] == targets;
    }
  }

  lemma Sorted<T(!new)>(xs: seq<T>, leq: (T, T) -> bool)
    requires IsOrder(leq)
    ensures Arranged(Sort(xs, leq), xs, leq)
  {
    SortPermutes(xs, leq);
    SortSorts(xs, leq);
  }

  /** A row names its case and carries its groups, tests, form and hashed description; it lists the
      ids of the primary targets and no others, the sources and the suite cases, each in order. */
  lemma PrimaryRowMeans(c: Case, form: string, sha256: string -> string)
    ensures var row := ActualPrimary(c, form, sha256);
            && row.id == c.id && row.behaviorGroups == c.behaviorGroups && row.upstreamTests == c.upstreamTests
            && row.boundaryForm == form && row.descriptionSha256 == sha256(c.description)
            && Arranged(row.primaryTargets, PrimaryIds(c.targets), LexLeq)
            && Arranged(row.sourceFingerprint, c.sources, SourceBefore)
            && Arranged(row.suiteCases, c.suiteCases, SuiteBefore)
  {
    hide Sort, LexLeq, SourceOrder, SourceBefore, SuiteOrder, SuiteBefore, IsOrder, Collect;
    PrimaryCollected(c.targets);
    LexIsOrder();
    SourceOrders();
    SuiteOrders();
    Sorted(Collect(c.targets, PrimaryTarget), LexLeq);
    Sorted(c.sources, SourceOrder);
    Sorted(c.suiteCases, SuiteOrder);
  }

  // ----- Critical interactions -----

  /** The last case with the id. */
  ghost predicate LastCase(cases: seq<Case>, id: string, c: Case) {
    exists i :: 0 <= i < |cases| && cases[i] == c && c.id == id && forall j :: i < j < |cases| ==> cases[j].id != id
  }

  lemma {:induction false} CaseFound(cases: seq<Case>, id: string)
    ensures CaseById(cases, id).None? <==> forall i :: 0 <= i < |cases| ==> cases[i].id != id
    ensures CaseById(cases, id).Some? ==> LastCase(cases, id, CaseById(cases, id).value)
  {
    if cases != [] {
      var n := |cases| - 1;
      var init := cases[..n];
      CaseFound(init, id);
      assert forall i :: 0 <= i < n ==> init[i] == cases[i];
      if cases[n].id != id && CaseById(cases, id).Some? {
        var c := CaseById(cases, id).value;
        var i :| 0 <= i < |init| && init[i] == c && c.id == id && forall j :: i < j < |init| ==> init[j].id != id;
        assert cases[i] == c;
        forall j | i < j < |cases| ensures cases[j].id != id {
          if j < n { assert init[j] == cases[j]; }
        }
      }
    }
  }

  /** The context of a planned case: its groups, surface and tests, and its targets in order. */
  ghost predicate IsContext(x: CaseContext, id: string, c: Case) {
    && x.id == id && x.behaviorGroups == c.behaviorGroups && x.surface == c.surface
    && x.upstreamTests == c.upstreamTests && Arranged(x.targets, c.targets, TargetBefore)
  }

  lemma ContextMeans(id: string, c: Case)
    ensures IsContext(Context(id, c), id, c)
  {
    hide Sort, TargetOrder, TargetBefore, IsOrder;
    TargetOrders();
    Sorted(c.targets, TargetOrder);
  }

  /** A row names its group and carries its domain and planned cases; it lists the members and the
      sources in order, and one context for each planned case, sorted by id. */
  lemma InteractionRowMeans(g: Group, cases: seq<Case>)
    requires PlansKnown(g, cases)
    ensures var row := ActualInteraction(g, cases);
            && row.id == g.id && row.domain == g.domain && row.plannedCases == g.plannedCases
            && Arranged(row.memberIds, g.members, LexLeq) && Arranged(row.sourceFingerprint, g.sources, SourceBefore)
            && (forall i, j :: 0 <= i < j < |row.caseContexts| ==>
                 LexLeq(row.caseContexts[i].id, row.caseContexts[j].id))
            && |row.caseContexts| == |g.plannedCases|
            && (forall x :: x in row.caseContexts ==>
                  exists c :: x.id in g.plannedCases && LastCase(cases, x.id, c) && IsContext(x, x.id, c))
            && (forall id :: id in g.plannedCases ==> exists x :: x in row.caseContexts && x.id == id)
  {
    hide Sort, LexLeq, SourceOrder, SourceBefore, IsOrder, Collect, IsContext, LastCase, SortedBy, Context;
    LexIsOrder();
    SourceOrders();
    Sorted(g.members, LexLeq);
    Sorted(g.sources, SourceOrder);
    var found := Collect(g.plannedCases, ContextOf(cases));
    ByKeyIsOrder(ContextId);
    SortPermutes(found, ByKey(ContextId));
    SortSorts(found, ByKey(ContextId));
    SortMembers(found, ByKey(ContextId));
    SortedContexts(Sort(found, ByKey(ContextId)));
    AllContexts(g.plannedCases, cases);
    forall x | x in found
      ensures exists c :: x.id in g.plannedCases && LastCase(cases, x.id, c) && IsContext(x, x.id, c)
    {
      CollectMembers(g.plannedCases, ContextOf(cases), x);
      var id :| id in g.plannedCases && ContextOf(cases)(id) == Some(x);
      CaseFound(cases, id);
      ContextMeans(id, CaseById(cases, id).value);
      ContextIdIs(id, CaseById(cases, id).value);
    }
    forall id | id in g.plannedCases ensures exists x :: x in found && x.id == id {
      var i :| 0 <= i < |g.plannedCases| && g.plannedCases[i] == id;
      var x := Context(id, CaseById(cases, id).value);
      CollectMembers(g.plannedCases, ContextOf(cases), x);
      assert ContextOf(cases)(id) == Some(x);
      ContextIdIs(id, CaseById(cases, id).value);
    }
  }

  lemma ContextIdIs(id: string, c: Case)
    ensures Context(id, c).id == id
  {}

  lemma SortedContexts(xs: seq<CaseContext>)
    requires SortedBy(xs, ByKey(ContextId))
    ensures forall i, j :: 0 <= i < j < |xs| ==> LexLeq(xs[i].id, xs[j].id)
  {
    hide LexLeq;
    forall i, j | 0 <= i < j < |xs| ensures LexLeq(xs[i].id, xs[j].id) {
      assert ByKey(ContextId)(xs[i], xs[j]);
      assert ContextId(xs[i]) == xs[i].id && ContextId(xs[j]) == xs[j].id;
    }
  }

  lemma {:induction false} AllContexts(planned: seq<string>, cases: seq<Case>)
    requires forall i :: 0 <= i < |planned| ==> CaseById(cases, planned[i]).Some?
    ensures |Collect(planned, ContextOf(cases))| == |planned|
  {
    hide CaseById, Context;
    if planned != [] {
      AllContexts(planned[1..], cases);
    }
  }

  // ----- Which rows there are -----

  /** A reviewed case that applies, is tied to a suite or to groups and upstream tests, and is no
      interaction. */
  predicate HasPlan(c: Case) {
    && c.reviewStatus == Reviewed && c.applicability != NotApplicable && c.caseClass != Interaction
    && (c.suiteCases != [] || (c.behaviorGroups != [] && c.upstreamTests != []))
  }

  /** The document has exactly the rows of the cases with a plan, and of the critical reviewed
      groups, in order of their ids. */
  lemma DocumentMeans(cases: seq<Case>, groups: seq<Group>, facts: Facts)
    requires Buildable(cases, groups, facts)
    ensures var doc := BuiltDocument(cases, groups, facts);
            && (forall row :: row in doc.primaryPlans <==>
                  exists c :: c in cases && HasPlan(c) && facts.form(c).Some?
                              && row == ActualPrimary(c, facts.form(c).value, facts.sha256))
            && (forall row :: row in doc.criticalInteractions <==>
                  exists g :: g in groups && g.critical && g.reviewStatus == Reviewed
                      && row == ActualInteraction(g, cases))
            && (forall i, j :: 0 <= i < j < |doc.primaryPlans| ==>
                 LexLeq(doc.primaryPlans[i].id, doc.primaryPlans[j].id))
            && (forall i, j :: 0 <= i < j < |doc.criticalInteractions| ==>
                  LexLeq(doc.criticalInteractions[i].id, doc.criticalInteractions[j].id))
  {
    hide Sort, LexLeq, IsOrder, Collect, SortedBy, ActualPrimary, ActualInteraction, PlansKnown;
    var rows, interactions := Collect(cases, PrimaryRowOf(facts)), Collect(groups, InteractionRowOf(cases));
    ByKeyIsOrder(PrimaryId);
    ByKeyIsOrder(InteractionId);
    SortMembers(rows, ByKey(PrimaryId));
    SortMembers(interactions, ByKey(InteractionId));
    SortSorts(rows, ByKey(PrimaryId));
    SortSorts(interactions, ByKey(InteractionId));
    InIdOrder(Sort(rows, ByKey(PrimaryId)), Sort(interactions, ByKey(InteractionId)));
    forall row ensures row in rows <==> exists c :: c in cases && HasPlan(c) && facts.form(c).Some?
                                                   && row == ActualPrimary(c, facts.form(c).value, facts.sha256)
    {
      CollectMembers(cases, PrimaryRowOf(facts), row);
      if row in rows {
        var c :| c in cases && PrimaryRowOf(facts)(c) == Some(row);
        assert HasPlan(c);
      }
      if c :| c in cases && HasPlan(c) && facts.form(c).Some?
              && row == ActualPrimary(c, facts.form(c).value, facts.sha256)
      {
        assert PrimaryRowOf(facts)(c) == Some(row);
      }
    }
    forall row ensures row in interactions <==>
                         exists g :: g in groups && g.critical && g.reviewStatus == Reviewed
                             && row == ActualInteraction(g, cases)
    {
      CollectMembers(groups, InteractionRowOf(cases), row);
      if g :| g in groups && g.critical && g.reviewStatus == Reviewed && row == ActualInteraction(g, cases) {
        assert InteractionRowOf(cases)(g) == Some(row);
      }
    }
  }

  lemma InIdOrder(rows: seq<PrimaryRow>, interactions: seq<InteractionRow>)
    requires SortedBy(rows, ByKey(PrimaryId)) && SortedBy(interactions, ByKey(InteractionId))
    ensures forall i, j :: 0 <= i < j < |rows| ==> LexLeq(rows[i].id, rows[j].id)
    ensures forall i, j :: 0 <= i < j < |interactions| ==> LexLeq(interactions[i].id, interactions[j].id)
  {
    hide LexLeq;
    forall i, j | 0 <= i < j < |rows| ensures LexLeq(rows[i].id, rows[j].id) {
      assert ByKey(PrimaryId)(rows[i], rows[j]);
      assert PrimaryId(rows[i]) == rows[i].id && PrimaryId(rows[j]) == rows[j].id;
    }
    forall i, j | 0 <= i < j < |interactions| ensures LexLeq(interactions[i].id, interactions[j].id) {
      assert ByKey(InteractionId)(interactions[i], interactions[j]);
      assert InteractionId(interactions[i]) == interactions[i].id
             && InteractionId(interactions[j]) == interactions[j].id;
    }
  }

  // ----- Which drift is reported -----

  /** A drift is reported for a plan exactly when its field is the first that differs, in this order:
      targets, form, description, sources, tests, groups, suite cases. */
  lemma PrimaryDriftIs(a: PrimaryRow, b: PrimaryRow)
    ensures var d, targets := PrimaryDrift(a, b), a.primaryTargets == b.primaryTargets;
            var form, description := a.boundaryForm == b.boundaryForm, a.descriptionSha256 == b.descriptionSha256;
            var sources := a.sourceFingerprint == b.sourceFingerprint;
            var tests, groups := a.upstreamTests == b.upstreamTests, a.behaviorGroups == b.behaviorGroups;
            var suites := a.suiteCases == b.suiteCases;
            && (d == Some(PrimaryTargetDrift) <==> !targets)
            && (d == Some(BoundaryFormDrift) <==> targets && !form)
            && (d == Some(DescriptionDrift) <==> targets && form && !description)
            && (d == Some(SourceDrift) <==> targets && form && description && !sources)
            && (d == Some(UpstreamDrift) <==> targets && form && description && sources && !tests)
            && (d == Some(BehaviorGroupDrift) <==> targets && form && description && sources && tests && !groups)
            && (d == Some(SuiteCaseDrift) <==> targets && form && description && sources && tests && groups && !suites)
            && (d == None <==> targets && form && description && sources && tests && groups && suites)
  {}

  lemma InteractionDriftIs(a: InteractionRow, b: InteractionRow)
    ensures var d, members := InteractionDrift(a, b), a.memberIds == b.memberIds;
            var planned := a.plannedCases == b.plannedCases;
            var contexts, sources := a.caseContexts == b.caseContexts, a.sourceFingerprint == b.sourceFingerprint;
            var domain := a.domain == b.domain;
            && (d == Some(MemberDrift) <==> !members)
            && (d == Some(PlannedCaseDrift) <==> members && !planned)
            && (d == Some(ContextDrift) <==> members && planned && !contexts)
            && (d == Some(InteractionSourceDrift) <==> members && planned && contexts && !sources)
            && (d == Some(DomainDrift) <==> members && planned && contexts && sources && !domain)
            && (d == None <==> members && planned && contexts && sources && domain)
  {}

  /** The last row with the id. */
  ghost predicate LastRow<R(!new)>(rows: seq<R>, rowId: R -> string, id: string, row: R) {
    exists i :: 0 <= i < |rows| && rows[i] == row && rowId(row) == id
                && forall j :: i < j < |rows| ==> rowId(rows[j]) != id
  }

  lemma {:induction false} RowFound<R(!new)>(rows: seq<R>, rowId: R -> string, id: string)
    ensures RowById(rows, rowId, id).None? <==> forall i :: 0 <= i < |rows| ==> rowId(rows[i]) != id
    ensures RowById(rows, rowId, id).Some? ==> LastRow(rows, rowId, id, RowById(rows, rowId, id).value)
  {
    if rows != [] {
      var n := |rows| - 1;
      var init := rows[..n];
      RowFound(init, rowId, id);
      assert forall i :: 0 <= i < n ==> init[i] == rows[i];
      if rowId(rows[n]) != id && RowById(rows, rowId, id).Some? {
        var row := RowById(rows, rowId, id).value;
        var i :| 0 <= i < |init| && init[i] == row && rowId(row) == id
                 && forall j :: i < j < |init| ==> rowId(init[j]) != id;
        assert rows[i] == row;
        forall j | i < j < |rows| ensures rowId(rows[j]) != id {
          if j < n { assert init[j] == rows[j]; }
        }
      }
    }
  }

  /** A case without a plan never drifts; one with a plan drifts for want of a row, for want of a form,
      or by its first field that is not that of the last row with its id. */
  lemma CaseDriftMeans(doc: Document, c: Case, facts: Facts)
    ensures var d := CaseDrift(doc, c, facts);
            if !HasPlan(c) then d == None
            else if forall i :: 0 <= i < |doc.primaryPlans| ==> doc.primaryPlans[i].id != c.id
            then d == Some(MissingPrimary)
            else if facts.form(c).None? then d == Some(NoForm)
            else exists row :: LastRow(doc.primaryPlans, PrimaryId, c.id, row)
                               && d == PrimaryDrift(ActualPrimary(c, facts.form(c).value, facts.sha256), row)
  {
    hide RowById, LastRow, PrimaryDrift, ActualPrimary;
    RowFound(doc.primaryPlans, PrimaryId, c.id);
    forall i | 0 <= i < |doc.primaryPlans| ensures PrimaryId(doc.primaryPlans[i]) == doc.primaryPlans[i].id {}
  }

  /** The same for a group that is critical and reviewed, whose planned cases have to be known. */
  lemma GroupDriftMeans(doc: Document, g: Group, cases: seq<Case>)
    ensures var d := GroupDrift(doc, g, cases);
            if !(g.critical && g.reviewStatus == Reviewed) then d == None
            else if forall i :: 0 <= i < |doc.criticalInteractions| ==> doc.criticalInteractions[i].id != g.id
            then d == Some(MissingInteraction)
            else if exists i :: 0 <= i < |g.plannedCases| && NoCase(cases, g.plannedCases[i])
            then d == Some(PlannedCaseUnknown)
            else exists row :: LastRow(doc.criticalInteractions, InteractionId, g.id, row)
                               && d == InteractionDrift(ActualInteraction(g, cases), row)
  {
    hide RowById, LastRow, InteractionDrift, ActualInteraction, CaseById;
    RowFound(doc.criticalInteractions, InteractionId, g.id);
    forall i | 0 <= i < |doc.criticalInteractions|
      ensures InteractionId(doc.criticalInteractions[i]) == doc.criticalInteractions[i].id
    {}
    forall i | 0 <= i < |g.plannedCases|
      ensures CaseById(cases, g.plannedCases[i]).None? <==> NoCase(cases, g.plannedCases[i])
    {
      CaseFound(cases, g.plannedCases[i]);
    }
  }

  predicate NoCase(cases: seq<Case>, id: string) {
    forall i :: 0 <= i < |cases| ==> cases[i].id != id
  }

  /** The document can be built exactly when every case with a plan has a form, and every critical
      reviewed group plans known cases. */
  lemma BuildableIff(cases: seq<Case>, groups: seq<Group>, facts: Facts)
    ensures Buildable(cases, groups, facts) <==>
              && (forall c :: c in cases && HasPlan(c) ==> facts.form(c).Some?)
              && (forall g, id :: g in groups && g.critical && g.reviewStatus == Reviewed && id in g.plannedCases ==>
                    !NoCase(cases, id))
  {
    hide CaseById, NoCase;
    forall g | g in groups ensures PlansKnown(g, cases) <==> forall id :: id in g.plannedCases ==> !NoCase(cases, id) {
      forall i | 0 <= i < |g.plannedCases|
        ensures CaseById(cases, g.plannedCases[i]).None? <==> NoCase(cases, g.plannedCases[i])
      {
        CaseFound(cases, g.plannedCases[i]);
        assert NoCase(cases, g.plannedCases[i]) <==>
                 forall k :: 0 <= k < |cases| ==> cases[k].id != g.plannedCases[i] by {
          NoCaseMeans(cases, g.plannedCases[i]);
        }
      }
    }
  }

  lemma NoCaseMeans(cases: seq<Case>, id: string)
    ensures NoCase(cases, id) <==> forall k :: 0 <= k < |cases| ==> cases[k].id != id
  {}
}
