/** Product evidence: what the validator demands of a case before its evidence status stands. */
module Evidence {
  import opened Wrappers
  import opened Ordering
  import opened Contract

  datatype Comparison = Comparison(dimension: string, normalizer: string)

  datatype SuiteCaseDoc = SuiteCaseDoc(
    surface: string, command: string, arguments: seq<string>, fixture: Option<string>, comparisons: seq<Comparison>)

  datatype Status = Passed | Failed | OtherStatus

  datatype ResultComparison = ResultComparison(dimension: string, normalizer: Option<string>, status: Status)

  datatype ResultDoc = ResultDoc(
    surface: string, command: string, arguments: seq<string>, fixture: Option<string>,
    compatibilityScope: bool, referenceExecutable: string, candidateExecutable: string,
    suiteId: string, caseId: string, overall: Status, comparisons: seq<ResultComparison>)

  type SuiteKey = (string, string)

  /** The loaded suites, the results that can be loaded, and whether a result's artifacts are
      as it describes them. */
  datatype Registry = Registry(
    compatibilitySuites: map<string, bool>,
    suiteCases: map<SuiteKey, SuiteCaseDoc>,
    load: string -> Option<ResultDoc>,
    artifactsValid: string -> bool)

  function KeyOf(s: SuiteCase): SuiteKey { (s.suiteId, s.caseId) }

  function ItemKey(e: EvidenceItem): SuiteKey { (e.suiteId, e.caseId) }

  // ----- Suite references -----

  function Dimensions(comparisons: seq<Comparison>): set<string> {
    set x | x in comparisons :: x.dimension
  }

  predicate ReferenceValid(c: Case, reference: SuiteCase, reg: Registry) {
    && KeyOf(reference) in reg.suiteCases
    && reference.suiteId in reg.compatibilitySuites && reg.compatibilitySuites[reference.suiteId]
    && reg.suiteCases[KeyOf(reference)].surface == c.surface
    && (set d | d in c.comparisonDimensions) <= Dimensions(reg.suiteCases[KeyOf(reference)].comparisons)
  }

  function SuiteKeys(references: seq<SuiteCase>): seq<seq<string>> {
    seq(|references|, i requires 0 <= i < |references| => [references[i].suiteId, references[i].caseId])
  }

  ghost predicate InOrder(keys: seq<seq<string>>) {
    SortedBy(keys, TupleLeq) && Distinct(keys)
  }

  /** `validate_suite_references`. */
  method ValidateSuiteReferences(c: Case, reg: Registry) returns (ok: bool)
    ensures ok <==>
              InOrder(SuiteKeys(c.suiteCases))
              && forall i :: 0 <= i < |c.suiteCases| ==> ReferenceValid(c, c.suiteCases[i], reg)
  {
    hide SortedBy, Distinct, SuiteKeys;
    ok := SortedAndUnique(SuiteKeys(c.suiteCases));
    if !ok { return; }
    var required := set d | d in c.comparisonDimensions;
    for k := 0 to |c.suiteCases|
      invariant forall i :: 0 <= i < k ==> ReferenceValid(c, c.suiteCases[i], reg)
    {
      var key := KeyOf(c.suiteCases[k]);
      if key !in reg.suiteCases { return false; }
      if key.0 !in reg.compatibilitySuites || !reg.compatibilitySuites[key.0] { return false; }
      if reg.suiteCases[key].surface != c.surface { return false; }
      if !(required <= Dimensions(reg.suiteCases[key].comparisons)) { return false; }
    }
    return true;
  }

  // ----- One result against its suite case -----

  predicate NormalizedLike(x: ResultComparison, suite: seq<Comparison>) {
    exists s :: s in suite && s.dimension == x.dimension && x.normalizer == Some(s.normalizer)
  }

  ghost predicate DimensionsDistinct(suite: seq<Comparison>) {
    forall i, j :: 0 <= i < j < |suite| ==> suite[i].dimension != suite[j].dimension
  }

  ghost predicate ResultDimensionsDistinct(xs: seq<ResultComparison>) {
    forall i, j :: 0 <= i < j < |xs| ==> xs[i].dimension != xs[j].dimension
  }

  /** The result has the suite case's invocation, exactly its dimensions once each, its
      normalisers, and the outcome claimed for it. */
  ghost predicate ResultBound(item: EvidenceItem, r: ResultDoc, s: SuiteCaseDoc) {
    && r.surface == s.surface && r.command == s.command && r.arguments == s.arguments && r.fixture == s.fixture
    && SameComparisons(r.comparisons, s.comparisons)
    && OutcomeHolds(item.passed, r.comparisons)
  }

  ghost predicate SameComparisons(xs: seq<ResultComparison>, suite: seq<Comparison>) {
    && DimensionsDistinct(suite) && ResultDimensionsDistinct(xs)
    && (set x | x in xs :: x.dimension) == Dimensions(suite)
    && (forall x :: x in xs ==> NormalizedLike(x, suite))
  }

  ghost predicate OutcomeHolds(passed: bool, xs: seq<ResultComparison>) {
    if passed then xs != [] && forall x :: x in xs ==> x.status == Passed
    else exists x :: x in xs && x.status == Failed
  }

  /** `validate_result_binding`, with its two dictionaries keyed by dimension. */
  method ValidateResultBinding(item: EvidenceItem, r: ResultDoc, s: SuiteCaseDoc) returns (ok: bool)
    ensures ok <==> ResultBound(item, r, s)
  {
    if r.surface != s.surface || r.command != s.command || r.arguments != s.arguments || r.fixture != s.fixture {
      return false;
    }
    hide SameComparisons, OutcomeHolds;
    var byDimension := CompareDimensions(r.comparisons, s.comparisons);
    if byDimension.None? { return false; }
    var statuses := set d | d in byDimension.value :: byDimension.value[d].status;
    StatusesAre(r.comparisons, byDimension.value, statuses);
    if item.passed {
      return statuses == {Passed};
    } else {
      return Failed in statuses;
    }
  }

  /** The result's comparisons by dimension, if they are the suite's, normalisers included. */
  method CompareDimensions(xs: seq<ResultComparison>, suite: seq<Comparison>)
    returns (r: Option<map<string, ResultComparison>>)
    ensures r.Some? <==> SameComparisons(xs, suite)
    ensures r.Some? ==> r.value.Keys == (set x | x in xs :: x.dimension)
    ensures r.Some? ==> forall x :: x in xs ==> r.value[x.dimension] == x
  {
    hide DimensionsDistinct, ResultDimensionsDistinct, NormalizedLike, Dimensions;
    var normalizers := NormalizerMap(suite);
    if |normalizers| != |suite| { return None; }
    r := ByDimension(xs);
    if r.None? { return; }
    if r.value.Keys != normalizers.Keys { return None; }
    NormalizersAgree(xs, suite, r.value, normalizers);
    if exists d :: d in normalizers && r.value[d].normalizer != Some(normalizers[d]) { return None; }
  }

  /** The result's comparisons by dimension, unless a dimension repeats. */
  method ByDimension(xs: seq<ResultComparison>) returns (r: Option<map<string, ResultComparison>>)
    ensures r.Some? <==> ResultDimensionsDistinct(xs)
    ensures r.Some? ==> r.value.Keys == (set x | x in xs :: x.dimension)
    ensures r.Some? ==> forall x :: x in xs ==> r.value[x.dimension] == x
  {
    var m: map<string, ResultComparison> := map[];
    for k := 0 to |xs|
      invariant forall d :: d in m <==> exists i :: 0 <= i < k && xs[i].dimension == d
      invariant forall i :: 0 <= i < k ==> m[xs[i].dimension] == xs[i]
      invariant forall i, j :: 0 <= i < j < k ==> xs[i].dimension != xs[j].dimension
    {
      if xs[k].dimension in m { return None; }
      m := m[xs[k].dimension := xs[k]];
    }
    return Some(m);
  }

  /** `{comparison["dimension"]: comparison["normalizer"]}`, shorter than the list iff a dimension repeats. */
  method NormalizerMap(suite: seq<Comparison>) returns (m: map<string, string>)
    ensures m.Keys == Dimensions(suite) && |m| <= |suite|
    ensures |m| == |suite| <==> DimensionsDistinct(suite)
    ensures DimensionsDistinct(suite) ==> forall x :: x in suite ==> m[x.dimension] == x.normalizer
  {
    m := map[];
    for k := 0 to |suite|
      invariant Normalizes(m, suite[..k])
    {
      assert suite[..k + 1] == suite[..k] + [suite[k]];
      NormalizesMore(m, suite[..k], suite[k]);
      m := m[suite[k].dimension := suite[k].normalizer];
    }
    assert suite[..|suite|] == suite;
  }

  ghost predicate Normalizes(m: map<string, string>, suite: seq<Comparison>) {
    && m.Keys == Dimensions(suite) && |m| <= |suite|
    && (|m| == |suite| <==> DimensionsDistinct(suite))
    && (DimensionsDistinct(suite) ==> forall x :: x in suite ==> m[x.dimension] == x.normalizer)
  }

  lemma NormalizesMore(m: map<string, string>, suite: seq<Comparison>, x: Comparison)
    requires Normalizes(m, suite)
    ensures Normalizes(m[x.dimension := x.normalizer], suite + [x])
  {
    var longer, m' := suite + [x], m[x.dimension := x.normalizer];
    hide DimensionsDistinct, Dimensions;
    DimensionsSnoc(suite, x);
    KeysPut(m, x.dimension, x.normalizer);
  }

  lemma KeysPut(m: map<string, string>, d: string, n: string)
    ensures m[d := n].Keys == m.Keys + {d} && |m[d := n]| == |m| + if d in m then 0 else 1
  {
    assert m[d := n].Keys == m.Keys + {d};
    assert |m[d := n].Keys| == |m.Keys| + if d in m then 0 else 1;
  }

  lemma DimensionsSnoc(suite: seq<Comparison>, x: Comparison)
    ensures DimensionsDistinct(suite + [x]) <==> DimensionsDistinct(suite) && x.dimension !in Dimensions(suite)
    ensures Dimensions(suite + [x]) == Dimensions(suite) + {x.dimension}
    ensures forall y :: y in suite ==> y.dimension in Dimensions(suite)
  {
    var longer := suite + [x];
    assert forall i :: 0 <= i < |suite| ==> longer[i] == suite[i];
    if x.dimension in Dimensions(suite) {
      var y :| y in suite && y.dimension == x.dimension;
      var i :| 0 <= i < |suite| && suite[i] == y;
      assert longer[i].dimension == longer[|suite|].dimension;
    }
    if DimensionsDistinct(longer) {
      forall i, j | 0 <= i < j < |suite| ensures suite[i].dimension != suite[j].dimension {
        assert longer[i].dimension != longer[j].dimension;
      }
    }
  }

  lemma NormalizersAgree(xs: seq<ResultComparison>, suite: seq<Comparison>,
                         byDimension: map<string, ResultComparison>, normalizers: map<string, string>)
    requires byDimension.Keys == normalizers.Keys == Dimensions(suite)
    requires byDimension.Keys == (set x | x in xs :: x.dimension)
    requires forall x :: x in xs ==> byDimension[x.dimension] == x
    requires forall s :: s in suite ==> normalizers[s.dimension] == s.normalizer
    ensures (forall d :: d in normalizers ==> byDimension[d].normalizer == Some(normalizers[d])) <==>
            (forall x :: x in xs ==> NormalizedLike(x, suite))
  {
    forall x | x in xs
      ensures NormalizedLike(x, suite) <==> x.normalizer == Some(normalizers[x.dimension])
    {
      assert x.dimension in Dimensions(suite);
      var s :| s in suite && s.dimension == x.dimension;
      assert normalizers[x.dimension] == s.normalizer;
    }
    forall d | d in normalizers ensures exists x :: x in xs && x.dimension == d {
      assert d in byDimension.Keys;
    }
  }

  lemma StatusesAre(xs: seq<ResultComparison>, byDimension: map<string, ResultComparison>, statuses: set<Status>)
    requires byDimension.Keys == (set x | x in xs :: x.dimension)
    requires forall x :: x in xs ==> byDimension[x.dimension] == x
    requires statuses == set d | d in byDimension :: byDimension[d].status
    ensures statuses == {Passed} <==> OutcomeHolds(true, xs)
    ensures Failed in statuses <==> OutcomeHolds(false, xs)
  {
    forall x | x in xs ensures x.status in statuses {
      assert x.dimension in byDimension;
    }
    forall t | t in statuses ensures exists x :: x in xs && x.status == t {
      var d :| d in byDimension && byDimension[d].status == t;
      var x :| x in xs && x.dimension == d;
    }
    if xs != [] {
      assert xs[0].status in statuses;
    }
  }

  // ----- All evidence of a case -----

  function OutcomeOf(item: EvidenceItem): Status {
    if item.passed then Passed else Failed
  }

  ghost predicate ItemValid(c: Case, item: EvidenceItem, reg: Registry) {
    && (exists s :: s in c.suiteCases && KeyOf(s) == ItemKey(item))
    && ItemKey(item) in reg.suiteCases
    && reg.load(item.resultPath).Some?
    && var r := reg.load(item.resultPath).value;
       && r.compatibilityScope && r.referenceExecutable != r.candidateExecutable
       && r.suiteId == item.suiteId && r.caseId == item.caseId && r.overall == OutcomeOf(item)
       && ResultBound(item, r, reg.suiteCases[ItemKey(item)])
       && reg.artifactsValid(item.resultPath)
  }

  /** The evidence status follows from the outcomes. */
  ghost predicate StatusFollows(c: Case) {
    match c.evidenceStatus
    case Pass => c.evidence != [] && forall e :: e in c.evidence ==> e.passed
    case Fail => exists e :: e in c.evidence && !e.passed
    case _ => c.evidence == []
  }

  function EvidenceKeys(items: seq<EvidenceItem>): seq<seq<string>> {
    seq(|items|, i requires 0 <= i < |items| =>
      [items[i].suiteId, items[i].caseId, items[i].resultPath, if items[i].passed then "pass" else "fail"])
  }

  /** `validate_evidence`. */
  method ValidateEvidence(c: Case, reg: Registry) returns (ok: bool)
    ensures ok <==>
              InOrder(EvidenceKeys(c.evidence))
              && (forall i :: 0 <= i < |c.evidence| ==> ItemValid(c, c.evidence[i], reg)) && StatusFollows(c)
  {
    hide ResultBound, SortedBy, Distinct, EvidenceKeys;
    ok := SortedAndUnique(EvidenceKeys(c.evidence));
    if !ok { return; }
    var refs := set s | s in c.suiteCases :: KeyOf(s);
    var outcomes: seq<Status> := [];
    for k := 0 to |c.evidence|
      invariant |outcomes| == k && forall i :: 0 <= i < k ==> outcomes[i] == OutcomeOf(c.evidence[i])
      invariant forall i :: 0 <= i < k ==> ItemValid(c, c.evidence[i], reg)
    {
      var item := c.evidence[k];
      if ItemKey(item) !in refs { return false; }
      if ItemKey(item) !in reg.suiteCases { return false; }
      var loaded := reg.load(item.resultPath);
      if loaded.None? { return false; }
      var r := loaded.value;
      if !r.compatibilityScope || r.referenceExecutable == r.candidateExecutable { return false; }
      if r.suiteId != item.suiteId || r.caseId != item.caseId || r.overall != OutcomeOf(item) { return false; }
      var bound := ValidateResultBinding(item, r, reg.suiteCases[ItemKey(item)]);
      if !bound || !reg.artifactsValid(item.resultPath) { return false; }
      outcomes := outcomes + [OutcomeOf(item)];
    }
    ok := StatusCheck(c, outcomes);
  }

  method StatusCheck(c: Case, outcomes: seq<Status>) returns (ok: bool)
    requires |outcomes| == |c.evidence| && forall i :: 0 <= i < |outcomes| ==> outcomes[i] == OutcomeOf(c.evidence[i])
    ensures ok <==> StatusFollows(c)
  {
    assert forall e :: e in c.evidence ==> exists i :: 0 <= i < |outcomes| && c.evidence[i] == e;
    if c.evidenceStatus == Pass {
      ok := outcomes != [] && forall t :: t in outcomes ==> t == Passed;
      assert forall i :: 0 <= i < |outcomes| ==> outcomes[i] in outcomes;
    } else if c.evidenceStatus == Fail {
      ok := Failed in outcomes;
      if e :| e in c.evidence && !e.passed {
        var i :| 0 <= i < |outcomes| && c.evidence[i] == e;
        assert outcomes[i] == Failed;
      }
    } else {
      ok := outcomes == [];
    }
  }

  // ----- What a pass means -----

  /** The result compares a dimension with the suite's own normaliser, and it passed. */
  ghost predicate PassedOn(r: ResultDoc, s: SuiteCaseDoc, dimension: string) {
    exists x :: x in r.comparisons && x.dimension == dimension && x.status == Passed && NormalizedLike(x, s.comparisons)
  }

  /** What both validators together accept. */
  ghost predicate Accepted(c: Case, reg: Registry) {
    && InOrder(SuiteKeys(c.suiteCases)) && InOrder(EvidenceKeys(c.evidence))
    && (forall i :: 0 <= i < |c.suiteCases| ==> ReferenceValid(c, c.suiteCases[i], reg))
    && (forall i :: 0 <= i < |c.evidence| ==> ItemValid(c, c.evidence[i], reg)) && StatusFollows(c)
  }

  /** A result that bears out a passing case: different executables, every comparison passed, and
      every dimension of the case among them with the suite's normaliser. */
  ghost predicate BearsOut(c: Case, item: EvidenceItem, reg: Registry) {
    && item.passed && reg.load(item.resultPath).Some? && ItemKey(item) in reg.suiteCases
    && var r := reg.load(item.resultPath).value;
       && r.referenceExecutable != r.candidateExecutable
       && r.comparisons != [] && (forall x :: x in r.comparisons ==> x.status == Passed)
       && (forall d :: d in c.comparisonDimensions ==> PassedOn(r, reg.suiteCases[ItemKey(item)], d))
  }

  /** An accepted case that claims to pass has at least one result, and every one of its results
      bears it out. */
  lemma PassMeansCompared(c: Case, reg: Registry)
    requires Accepted(c, reg) && c.evidenceStatus == Pass
    ensures c.evidence != [] && forall i :: 0 <= i < |c.evidence| ==> BearsOut(c, c.evidence[i], reg)
  {
    hide ReferenceValid, ItemValid, BearsOut;
    forall i | 0 <= i < |c.evidence| ensures BearsOut(c, c.evidence[i], reg) {
      assert c.evidence[i] in c.evidence;
      ItemBearsOut(c, c.evidence[i], reg);
    }
  }

  lemma ItemBearsOut(c: Case, item: EvidenceItem, reg: Registry)
    requires ItemValid(c, item, reg) && item.passed
    requires forall i :: 0 <= i < |c.suiteCases| ==> ReferenceValid(c, c.suiteCases[i], reg)
    ensures BearsOut(c, item, reg)
  {
    hide ReferenceValid, NormalizedLike, DimensionsDistinct, ResultDimensionsDistinct, Dimensions;
    var s :| s in c.suiteCases && KeyOf(s) == ItemKey(item);
    var j :| 0 <= j < |c.suiteCases| && c.suiteCases[j] == s;
    var r, suite := reg.load(item.resultPath).value, reg.suiteCases[ItemKey(item)];
    forall d | d in c.comparisonDimensions ensures PassedOn(r, suite, d) {
      ReferenceDimension(c, c.suiteCases[j], reg, d);
      assert d in (set x | x in r.comparisons :: x.dimension);
      var x :| x in r.comparisons && x.dimension == d;
      assert NormalizedLike(x, suite.comparisons) && x.status == Passed;
    }
  }

  lemma ReferenceDimension(c: Case, reference: SuiteCase, reg: Registry, d: string)
    requires ReferenceValid(c, reference, reg) && d in c.comparisonDimensions
    ensures KeyOf(reference) in reg.suiteCases && d in Dimensions(reg.suiteCases[KeyOf(reference)].comparisons)
  {
    assert d in (set x | x in c.comparisonDimensions);
  }

  // ----- What is checked -----

  /** A reference is good when its suite holds the case, is one for compatibility, has the surface of
      the behaviour case, and compares every dimension that the case wants compared. */
  lemma ReferenceMeans(c: Case, reference: SuiteCase, reg: Registry)
    ensures ReferenceValid(c, reference, reg) <==>
              && (reference.suiteId, reference.caseId) in reg.suiteCases
              && reference.suiteId in reg.compatibilitySuites && reg.compatibilitySuites[reference.suiteId]
              && var s := reg.suiteCases[(reference.suiteId, reference.caseId)];
                 && s.surface == c.surface
                 && forall d :: d in c.comparisonDimensions ==>
                      exists k :: 0 <= k < |s.comparisons| && s.comparisons[k].dimension == d
  {
    hide Dimensions;
    assert KeyOf(reference) == (reference.suiteId, reference.caseId);
    if KeyOf(reference) in reg.suiteCases {
      var s := reg.suiteCases[KeyOf(reference)];
      DimensionsMean(s.comparisons);
      var wanted := set d | d in c.comparisonDimensions;
      assert wanted <= Dimensions(s.comparisons) <==>
               forall d :: d in c.comparisonDimensions ==> d in Dimensions(s.comparisons);
    }
  }

  lemma DimensionsMean(comparisons: seq<Comparison>)
    ensures forall d :: d in Dimensions(comparisons) <==>
              exists k :: 0 <= k < |comparisons| && comparisons[k].dimension == d
  {
    forall d | d in Dimensions(comparisons)
      ensures exists k :: 0 <= k < |comparisons| && comparisons[k].dimension == d
    {
      var x :| x in comparisons && x.dimension == d;
      var k :| 0 <= k < |comparisons| && comparisons[k] == x;
    }
    forall k | 0 <= k < |comparisons| ensures comparisons[k].dimension in Dimensions(comparisons) {
      assert comparisons[k] in comparisons;
    }
  }

  /** Some comparison of the result is of this dimension. */
  predicate Compares(xs: seq<ResultComparison>, dimension: string) {
    exists i :: 0 <= i < |xs| && xs[i].dimension == dimension
  }

  /** The suite compares this dimension with this normaliser. */
  predicate Normalizing(suite: seq<Comparison>, dimension: string, normalizer: Option<string>) {
    exists i :: 0 <= i < |suite| && suite[i].dimension == dimension && normalizer == Some(suite[i].normalizer)
  }

  /** One comparison for each dimension of the suite case, with its normaliser, and none else. */
  ghost predicate OnePerDimension(xs: seq<ResultComparison>, suite: seq<Comparison>) {
    && (forall i, j :: 0 <= i < j < |suite| ==> suite[i].dimension != suite[j].dimension)
    && (forall i, j :: 0 <= i < j < |xs| ==> xs[i].dimension != xs[j].dimension)
    && (forall i :: 0 <= i < |suite| ==> Compares(xs, suite[i].dimension))
    && (forall i :: 0 <= i < |xs| ==> Normalizing(suite, xs[i].dimension, xs[i].normalizer))
  }

  lemma NormalizingMeans(x: ResultComparison, suite: seq<Comparison>)
    ensures NormalizedLike(x, suite) <==> Normalizing(suite, x.dimension, x.normalizer)
    ensures NormalizedLike(x, suite) ==> x.dimension in Dimensions(suite)
  {
    if NormalizedLike(x, suite) {
      var s :| s in suite && s.dimension == x.dimension && x.normalizer == Some(s.normalizer);
      var i :| 0 <= i < |suite| && suite[i] == s;
    }
  }

  lemma SameComparisonsMean(xs: seq<ResultComparison>, suite: seq<Comparison>)
    ensures SameComparisons(xs, suite) <==> OnePerDimension(xs, suite)
  {
    hide NormalizedLike, Normalizing, Dimensions, Compares;
    DimensionsMean(suite);
    forall i | 0 <= i < |xs|
      ensures NormalizedLike(xs[i], suite) <==> Normalizing(suite, xs[i].dimension, xs[i].normalizer)
      ensures NormalizedLike(xs[i], suite) ==> xs[i].dimension in Dimensions(suite)
    {
      NormalizingMeans(xs[i], suite);
    }
    var found := set x | x in xs :: x.dimension;
    forall d ensures d in found <==> Compares(xs, d) {
      ComparesMeans(xs, d);
    }
    forall i | 0 <= i < |xs| ensures xs[i].dimension in found {
      ComparesMeans(xs, xs[i].dimension);
    }
    assert (forall i :: 0 <= i < |suite| ==> Compares(xs, suite[i].dimension)) <==> Dimensions(suite) <= found;
    assert DimensionsDistinct(suite) <==>
             forall i, j :: 0 <= i < j < |suite| ==> suite[i].dimension != suite[j].dimension;
    assert ResultDimensionsDistinct(xs) <==> forall i, j :: 0 <= i < j < |xs| ==> xs[i].dimension != xs[j].dimension;
    assert (forall x :: x in xs ==> NormalizedLike(x, suite)) <==>
             forall i :: 0 <= i < |xs| ==> NormalizedLike(xs[i], suite);
  }

  lemma ComparesMeans(xs: seq<ResultComparison>, d: string)
    ensures d in (set x | x in xs :: x.dimension) <==> Compares(xs, d)
    ensures Compares(xs, d) <==> exists i :: 0 <= i < |xs| && xs[i].dimension == d
  {
    if d in (set x | x in xs :: x.dimension) {
      var x :| x in xs && x.dimension == d;
      var i :| 0 <= i < |xs| && xs[i] == x;
    }
  }

  /** A result bears out an outcome when it is of the same invocation, compares what the suite case
      compares, and passed everywhere, or failed somewhere. */
  lemma ResultBoundMeans(item: EvidenceItem, r: ResultDoc, s: SuiteCaseDoc)
    ensures ResultBound(item, r, s) <==>
              && r.surface == s.surface && r.command == s.command && r.arguments == s.arguments
                 && r.fixture == s.fixture
              && OnePerDimension(r.comparisons, s.comparisons)
              && (if item.passed then r.comparisons != [] && forall x :: x in r.comparisons ==> x.status == Passed
                  else exists x :: x in r.comparisons && x.status == Failed)
  {
    hide SameComparisons, OnePerDimension;
    SameComparisonsMean(r.comparisons, s.comparisons);
  }

  /** An item of evidence stands when the case refers to its suite case, its result can be loaded, is
      for compatibility, between different executables, of that very suite case, bears out the
      claimed outcome, and has the artifacts it describes. */
  lemma ItemMeans(c: Case, item: EvidenceItem, reg: Registry)
    ensures ItemValid(c, item, reg) <==>
              && (exists s :: s in c.suiteCases && s.suiteId == item.suiteId && s.caseId == item.caseId)
              && (item.suiteId, item.caseId) in reg.suiteCases && reg.load(item.resultPath).Some?
              && var r := reg.load(item.resultPath).value;
                 && r.compatibilityScope && r.referenceExecutable != r.candidateExecutable
                 && r.suiteId == item.suiteId && r.caseId == item.caseId
                 && (if item.passed then r.overall == Passed else r.overall == Failed)
                 && ResultBound(item, r, reg.suiteCases[(item.suiteId, item.caseId)])
                 && reg.artifactsValid(item.resultPath)
  {
    hide ResultBound;
  }

  /** References come by suite and case, evidence by suite, case, path and outcome, failures first. */
  lemma OrdersMean(references: seq<SuiteCase>, items: seq<EvidenceItem>)
    ensures |SuiteKeys(references)| == |references| && |EvidenceKeys(items)| == |items|
    ensures forall i :: 0 <= i < |references| ==>
              SuiteKeys(references)[i] == [references[i].suiteId, references[i].caseId]
    ensures forall i :: 0 <= i < |items| ==>
              EvidenceKeys(items)[i] ==
              [items[i].suiteId, items[i].caseId, items[i].resultPath] + [if items[i].passed then "pass" else "fail"]
  {
    forall i | 0 <= i < |items|
      ensures EvidenceKeys(items)[i] ==
              [items[i].suiteId, items[i].caseId, items[i].resultPath] + [if items[i].passed then "pass" else "fail"]
    {}
  }
}
