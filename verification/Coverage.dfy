/** Coverage totals of the behaviour contract, computed by set comprehensions in the generator
    and by accumulating loops in the validator, and the readiness gaps that follow. */
module Coverage {
  import opened Wrappers
  import opened Ordering
  import opened Contract

  const REQUIRED_DOMAINS: seq<string> := ["callback", "error_control", "option_config", "option_option"]

  // ----- The generator's comprehensions -----

  function PrimaryAny(cases: seq<Case>, publicIds: set<string>): set<string> {
    set c, t | c in cases && t in c.targets && t.role == Primary && t.id in publicIds :: t.id
  }

  function PrimaryReviewed(cases: seq<Case>, publicIds: set<string>): set<string> {
    set c, t | c in cases && IsSubstantivePlan(c) && t in c.targets && t.role == Primary && t.id in publicIds :: t.id
  }

  function ReviewedDomains(groups: seq<Group>): set<string> {
    set g | g in groups && g.reviewStatus == Reviewed && g.critical :: g.domain
  }

  function RequiredSet(): set<string> {
    set d | d in REQUIRED_DOMAINS
  }

  datatype Totals = Totals(
    publicEntries: nat,
    primaryCoverage: nat,
    reviewedPrimary: nat,
    uncovered: nat,
    requiredDomains: nat,
    reviewedDomains: nat)

  function CalculatedTotals(cases: seq<Case>, groups: seq<Group>, publicIds: set<string>): Totals {
    Totals(|publicIds|, |PrimaryAny(cases, publicIds)|, |PrimaryReviewed(cases, publicIds)|,
           |publicIds - PrimaryReviewed(cases, publicIds)|, |REQUIRED_DOMAINS|,
           |ReviewedDomains(groups) * RequiredSet()|)
  }

  // ----- The validator -----

  datatype Gap = EntryGap(id: string) | DomainGap(domain: string)

  datatype Report = Report(publicEntries: nat, primaryCoverage: nat, reviewedPrimary: nat, gaps: seq<Gap>)

  datatype Rejection = NoPrimaryTarget | InsubstantialAcceptance | UncoveredPublic | TotalsMismatch

  function PrimaryTargets(c: Case): set<string> {
    set t | t in c.targets && t.role == Primary :: t.id
  }

  /** A reviewed, curated, applicable acceptance plan that only its label supports. */
  predicate Insubstantial(c: Case) {
    && !IsSubstantivePlan(c)
    && c.reviewStatus == Reviewed && c.origin == ManuallyCurated && c.caseClass == Acceptance
    && c.applicability != NotApplicable
    && c.suiteCases == [] && !(c.behaviorGroups != [] && c.upstreamTests != [])
  }

  /** Case `k` is the first one the loop rejects, for the given reason. */
  ghost predicate FirstFlaw(cases: seq<Case>, k: int, rejection: Rejection) {
    && 0 <= k < |cases|
    && (forall i :: 0 <= i < k ==> PrimaryTargets(cases[i]) != {} && !Insubstantial(cases[i]))
    && (if PrimaryTargets(cases[k]) == {} then rejection == NoPrimaryTarget
        else Insubstantial(cases[k]) && rejection == InsubstantialAcceptance)
  }

  /** The coverage part of the per-case loop. */
  method CoverageLoop(cases: seq<Case>, publicIds: set<string>)
    returns (rejection: Option<Rejection>, primaryAny: set<string>, primaryReviewed: set<string>)
    ensures rejection.None? <==>
              forall i :: 0 <= i < |cases| ==> PrimaryTargets(cases[i]) != {} && !Insubstantial(cases[i])
    ensures rejection.Some? ==> exists k :: FirstFlaw(cases, k, rejection.value)
    ensures rejection.None? ==>
              primaryAny == PrimaryAny(cases, publicIds) && primaryReviewed == PrimaryReviewed(cases, publicIds)
  {
    hide IsSubstantivePlan, PrimaryAny, PrimaryReviewed;
    rejection, primaryAny, primaryReviewed := None, {}, {};
    NoCoverage(publicIds);
    for k := 0 to |cases|
      invariant primaryAny == PrimaryAny(cases[..k], publicIds)
      invariant primaryReviewed == PrimaryReviewed(cases[..k], publicIds)
      invariant forall i :: 0 <= i < k ==> PrimaryTargets(cases[i]) != {} && !Insubstantial(cases[i])
    {
      var c := cases[k];
      var primary := PrimaryTargets(c);
      if primary == {} {
        assert FirstFlaw(cases, k, NoPrimaryTarget);
        return Some(NoPrimaryTarget), primaryAny, primaryReviewed;
      }
      CoverageSnoc(cases, k, publicIds);
      primaryAny := primaryAny + primary * publicIds;
      if IsSubstantivePlan(c) {
        primaryReviewed := primaryReviewed + primary * publicIds;
      } else if c.reviewStatus == Reviewed && c.origin == ManuallyCurated && c.caseClass == Acceptance
             && c.applicability != NotApplicable && c.suiteCases == []
             && !(c.behaviorGroups != [] && c.upstreamTests != []) {
        assert FirstFlaw(cases, k, InsubstantialAcceptance);
        return Some(InsubstantialAcceptance), primaryAny, primaryReviewed;
      }
    }
    assert cases[..|cases|] == cases;
  }

  lemma FlawKinds(cases: seq<Case>, rejection: Rejection)
    requires exists k :: FirstFlaw(cases, k, rejection)
    ensures rejection == NoPrimaryTarget || rejection == InsubstantialAcceptance
  {}

  lemma NoCoverage(publicIds: set<string>)
    ensures PrimaryAny([], publicIds) == {} && PrimaryReviewed([], publicIds) == {}
  {}

  lemma CoverageSnoc(cases: seq<Case>, k: nat, publicIds: set<string>)
    requires k < |cases|
    ensures PrimaryAny(cases[..k + 1], publicIds) ==
            PrimaryAny(cases[..k], publicIds) + PrimaryTargets(cases[k]) * publicIds
    ensures PrimaryReviewed(cases[..k + 1], publicIds) ==
            PrimaryReviewed(cases[..k], publicIds)
            + if IsSubstantivePlan(cases[k]) then PrimaryTargets(cases[k]) * publicIds else {}
  {
    hide IsSubstantivePlan;
    var before, after, c := cases[..k], cases[..k + 1], cases[k];
    assert after == before + [c];
    assert forall x :: x in after <==> x in before || x == c;
    forall id | id in PrimaryTargets(c) * publicIds ensures id in PrimaryAny(after, publicIds) {
      var t :| t in c.targets && t.role == Primary && t.id == id;
      assert c in after && t in c.targets;
    }
    if IsSubstantivePlan(c) {
      forall id | id in PrimaryTargets(c) * publicIds ensures id in PrimaryReviewed(after, publicIds) {
        var t :| t in c.targets && t.role == Primary && t.id == id;
        assert c in after && t in c.targets;
      }
    }
  }

  // ----- Readiness gaps -----

  predicate DomainReviewed(groups: seq<Group>, domain: string) {
    exists g :: g in groups && g.domain == domain && g.critical && g.reviewStatus == Reviewed
  }

  function EntryGaps(ids: seq<string>): seq<Gap> {
    seq(|ids|, i requires 0 <= i < |ids| => EntryGap(ids[i]))
  }

  function DomainGaps(domains: seq<string>, groups: seq<Group>): seq<Gap> {
    if domains == [] then []
    else
      var last := domains[|domains| - 1];
      DomainGaps(domains[..|domains| - 1], groups) + if DomainReviewed(groups, last) then [] else [DomainGap(last)]
  }

  /** Entry gaps in order of id come first, then the missing domains in their fixed order. */
  ghost predicate InReportOrder(gaps: seq<Gap>, groups: seq<Group>) {
    exists ids :: SortedBy(ids, LexLeq) && gaps == EntryGaps(ids) + DomainGaps(REQUIRED_DOMAINS, groups)
  }

  /** The gap list: uncovered entries, then required domains without a reviewed critical group. */
  method Gaps(groups: seq<Group>, publicIds: set<string>, primaryReviewed: set<string>) returns (gaps: seq<Gap>)
    ensures |gaps| == |publicIds - primaryReviewed| + |REQUIRED_DOMAINS| - |ReviewedDomains(groups) * RequiredSet()|
    ensures forall id :: EntryGap(id) in gaps <==> id in publicIds - primaryReviewed
    ensures forall d :: DomainGap(d) in gaps <==> d in REQUIRED_DOMAINS && !DomainReviewed(groups, d)
    ensures InReportOrder(gaps, groups)
  {
    hide REQUIRED_DOMAINS, ReviewedDomains, DomainReviewed, SortedBy, EntryGaps;
    var ids := SortedList(publicIds - primaryReviewed);
    gaps := EntryGaps(ids);
    for k := 0 to |REQUIRED_DOMAINS|
      invariant gaps == EntryGaps(ids) + DomainGaps(REQUIRED_DOMAINS[..k], groups)
    {
      var domain := REQUIRED_DOMAINS[k];
      assert REQUIRED_DOMAINS[..k + 1][..k] == REQUIRED_DOMAINS[..k];
      if !DomainReviewed(groups, domain) {
        gaps := gaps + [DomainGap(domain)];
      }
    }
    assert REQUIRED_DOMAINS[..|REQUIRED_DOMAINS|] == REQUIRED_DOMAINS;
    EntryGapsFacts(ids);
    DomainGapsFacts(REQUIRED_DOMAINS, groups);
    RequiredDistinct();
    HitsAreIntersection(REQUIRED_DOMAINS, ReviewedDomains(groups));
  }

  lemma EntryGapsFacts(ids: seq<string>)
    ensures |EntryGaps(ids)| == |ids|
    ensures forall id :: EntryGap(id) in EntryGaps(ids) <==> id in ids
    ensures forall d :: DomainGap(d) !in EntryGaps(ids)
  {
    forall id | id in ids ensures EntryGap(id) in EntryGaps(ids) {
      var i :| 0 <= i < |ids| && ids[i] == id;
      assert EntryGaps(ids)[i] == EntryGap(id);
    }
  }

  lemma {:induction false} DomainGapsFacts(domains: seq<string>, groups: seq<Group>)
    ensures |DomainGaps(domains, groups)| == |domains| - Hits(domains, ReviewedDomains(groups))
    ensures forall d :: DomainGap(d) in DomainGaps(domains, groups) <==> d in domains && !DomainReviewed(groups, d)
    ensures forall id :: EntryGap(id) !in DomainGaps(domains, groups)
  {
    hide ReviewedDomains, DomainReviewed;
    if domains != [] {
      var init, last := domains[..|domains| - 1], domains[|domains| - 1];
      assert domains == init + [last];
      DomainGapsFacts(init, groups);
      ReviewedIff(groups, last);
    }
  }

  lemma RequiredDistinct()
    ensures Distinct(REQUIRED_DOMAINS)
  {
    assert REQUIRED_DOMAINS[0][0] == 'c' && REQUIRED_DOMAINS[1][0] == 'e';
    assert REQUIRED_DOMAINS[2][7] == 'c' && REQUIRED_DOMAINS[3][7] == 'o';
    assert REQUIRED_DOMAINS[2][0] == 'o' && REQUIRED_DOMAINS[3][0] == 'o';
  }

  lemma ReviewedIff(groups: seq<Group>, domain: string)
    ensures domain in ReviewedDomains(groups) <==> DomainReviewed(groups, domain)
  {}

  /** How many list elements lie in the set. */
  function Hits(xs: seq<string>, s: set<string>): nat {
    if xs == [] then 0 else Hits(xs[..|xs| - 1], s) + if xs[|xs| - 1] in s then 1 else 0
  }

  lemma {:induction false} HitsAreIntersection(xs: seq<string>, s: set<string>)
    requires Distinct(xs)
    ensures Hits(xs, s) == |s * (set x | x in xs)|
  {
    if xs == [] {
      assert s * (set x | x in xs) == {};
    } else {
      var init := xs[..|xs| - 1];
      HitsAreIntersection(init, s);
      DistinctSnoc(xs);
      IntersectionSnoc(xs, s);
    }
  }

  lemma IntersectionSnoc(xs: seq<string>, s: set<string>)
    requires xs != [] && xs[|xs| - 1] !in xs[..|xs| - 1]
    ensures var init := xs[..|xs| - 1];
            |s * (set x | x in xs)| == |s * (set x | x in init)| + if xs[|xs| - 1] in s then 1 else 0
  {
    var init, last := xs[..|xs| - 1], xs[|xs| - 1];
    var before := s * (set x | x in init);
    assert xs == init + [last];
    assert forall x :: x in xs <==> x in init || x == last;
    assert s * (set x | x in xs) == before + if last in s then {last} else {};
    assert last !in before;
  }

  /** The coverage verdict of `validate_contract`. An accepted contract covers every public entry
      by a primary case, carries the very totals the generator's comprehensions give, and has as
      many readiness gaps as those totals say. */
  method ValidateCoverage(cases: seq<Case>, groups: seq<Group>, publicIds: set<string>, claimed: Totals)
    returns (r: Result<Report, Rejection>)
    ensures r.Ok? <==>
              && (forall i :: 0 <= i < |cases| ==> PrimaryTargets(cases[i]) != {} && !Insubstantial(cases[i]))
              && PrimaryAny(cases, publicIds) == publicIds
              && claimed == CalculatedTotals(cases, groups, publicIds)
    ensures r.Err? ==>
              match r.error
              case UncoveredPublic => PrimaryAny(cases, publicIds) != publicIds
              case TotalsMismatch => PrimaryAny(cases, publicIds) == publicIds
              case rejection => exists k :: FirstFlaw(cases, k, rejection)
    ensures r.Ok? ==>
              && |r.value.gaps| == claimed.uncovered + claimed.requiredDomains - claimed.reviewedDomains
              && r.value.reviewedPrimary == claimed.reviewedPrimary
              && claimed.reviewedPrimary + claimed.uncovered == claimed.publicEntries
              && claimed.primaryCoverage == claimed.publicEntries == r.value.publicEntries
              && (forall id :: EntryGap(id) in r.value.gaps <==> id in publicIds - PrimaryReviewed(cases, publicIds))
              && (forall d :: DomainGap(d) in r.value.gaps <==> d in REQUIRED_DOMAINS && !DomainReviewed(groups, d))
              && InReportOrder(r.value.gaps, groups)
  {
    hide PrimaryAny, PrimaryReviewed, ReviewedDomains, REQUIRED_DOMAINS, Insubstantial, PrimaryTargets, DomainReviewed,
         FirstFlaw, InReportOrder;
    var rejection, primaryAny, primaryReviewed := CoverageLoop(cases, publicIds);
    if rejection.Some? {
      FlawKinds(cases, rejection.value);
      return Err(rejection.value);
    }
    if primaryAny != publicIds { return Err(UncoveredPublic); }
    if claimed != CalculatedTotals(cases, groups, publicIds) { return Err(TotalsMismatch); }
    var gaps := Gaps(groups, publicIds, primaryReviewed);
    ReviewedWithin(cases, publicIds);
    r := Ok(Report(|publicIds|, |primaryAny|, |primaryReviewed|, gaps));
  }

  lemma ReviewedWithin(cases: seq<Case>, publicIds: set<string>)
    ensures PrimaryReviewed(cases, publicIds) <= publicIds
    ensures |PrimaryReviewed(cases, publicIds)| + |publicIds - PrimaryReviewed(cases, publicIds)| == |publicIds|
  {
    hide IsSubstantivePlan;
    var reviewed := PrimaryReviewed(cases, publicIds);
    assert reviewed <= publicIds;
    hide PrimaryReviewed;
    assert publicIds == reviewed + (publicIds - reviewed);
  }

  // ----- What is covered -----

  /** A case that has been reviewed and applies, and is tied to a suite or to behaviour groups and
      upstream tests. */
  predicate Planned(c: Case) {
    && c.reviewStatus.Reviewed? && !c.applicability.NotApplicable?
    && (|c.suiteCases| > 0 || (|c.behaviorGroups| > 0 && |c.upstreamTests| > 0))
  }

  /** An entry counts as covered, or as reviewed, when a case, or a planned case, has it among its
      primary targets and it is public. */
  lemma CoveredIff(cases: seq<Case>, publicIds: set<string>, id: string)
    ensures id in PrimaryAny(cases, publicIds) <==>
              id in publicIds && NamedBy(cases, id, (c: Case) => true)
    ensures id in PrimaryReviewed(cases, publicIds) <==>
              id in publicIds && NamedBy(cases, id, Planned)
  {
    if id in PrimaryAny(cases, publicIds) {
      var c, t :| c in cases && t in c.targets && t.role == Primary && t.id in publicIds && t.id == id;
      var i :| 0 <= i < |cases| && cases[i] == c;
      var j :| 0 <= j < |c.targets| && c.targets[j] == t;
      assert Names(cases[i], j, id);
    }
    if id in PrimaryReviewed(cases, publicIds) {
      var c, t :| c in cases && IsSubstantivePlan(c) && t in c.targets && t.role == Primary && t.id in publicIds
          && t.id == id;
      var i :| 0 <= i < |cases| && cases[i] == c;
      var j :| 0 <= j < |c.targets| && c.targets[j] == t;
      assert Names(cases[i], j, id);
    }
    if i, j :| 0 <= i < |cases| && 0 <= j < |cases[i].targets| && Names(cases[i], j, id) {
      assert cases[i] in cases && cases[i].targets[j] in cases[i].targets;
    }
  }

  /** A case of the list for which this holds has a primary target with the id. */
  predicate NamedBy(cases: seq<Case>, id: string, holds: Case -> bool) {
    exists i, j :: 0 <= i < |cases| && 0 <= j < |cases[i].targets| && Names(cases[i], j, id) && holds(cases[i])
  }

  /** Target `j` of the case is primary and has the id. */
  predicate Names(c: Case, j: int, id: string) {
    0 <= j < |c.targets| && c.targets[j].id == id && c.targets[j].role.Primary?
  }

  /** A case is flawed when no target is primary, or when it claims review, curation and acceptance of
      something that applies without a plan behind it. */
  lemma FlawsMean(c: Case)
    ensures PrimaryTargets(c) == {} <==> forall j :: 0 <= j < |c.targets| ==> !c.targets[j].role.Primary?
    ensures Insubstantial(c) <==>
              && c.reviewStatus.Reviewed? && c.origin.ManuallyCurated? && c.caseClass.Acceptance?
              && !c.applicability.NotApplicable? && !Planned(c)
  {
    if j :| 0 <= j < |c.targets| && c.targets[j].role.Primary? {
      assert c.targets[j].id in PrimaryTargets(c);
    }
  }

  /** The four required domains, and which of them have a critical group that was reviewed. */
  lemma DomainsMean(groups: seq<Group>, domain: string)
    ensures domain in REQUIRED_DOMAINS <==>
              domain == "callback" || domain == "error_control" || domain == "option_config"
                  || domain == "option_option"
    ensures DomainReviewed(groups, domain) <==>
              exists i :: 0 <= i < |groups| && groups[i].domain == domain && groups[i].critical
                  && groups[i].reviewStatus.Reviewed?
  {
    if DomainReviewed(groups, domain) {
      var g :| g in groups && g.domain == domain && g.critical && g.reviewStatus == Reviewed;
      var i :| 0 <= i < |groups| && groups[i] == g;
    }
    if i :| 0 <= i < |groups| && groups[i].domain == domain && groups[i].critical && groups[i].reviewStatus.Reviewed? {
      assert groups[i] in groups;
    }
  }
}
