/** Benchmark results: sample grouping, sequence numbers, counts and order statistics. */
module Benchmarks {
  import opened Wrappers
  import opened Ordering
  import opened Sequences

  datatype Phase = Warmup | Measured

  datatype Metrics = Metrics(wall: int, userCpu: int, systemCpu: int, peakRss: int, outputBytes: int, outputFiles: int)

  datatype Sample = Sample(
    sampleId: string,
    caseId: string,
    family: string,
    sequence: int,
    phase: Phase,
    metrics: Metrics)

  datatype CaseContract = CaseContract(id: string, family: string, warmupRuns: nat, measuredRuns: nat)

  datatype Distribution = Distribution(minimum: int, median: int, maximum: int)

  datatype Summary = Summary(
    measuredSamples: nat, wall: Distribution, userCpu: Distribution, systemCpu: Distribution,
    peakRss: Distribution, outputBytes: int, outputFiles: int)

  datatype ResultCase = ResultCase(caseId: string, family: string, warmups: nat, measured: nat, summary: Summary)

  // ----- Order statistics -----

  function IntLeq(a: int, b: int): bool { a <= b }

  function SortedInts(values: seq<int>): (xs: seq<int>)
    ensures |xs| == |values|
  {
    SortPermutes(values, IntLeq);
    Sort(values, IntLeq)
  }

  /** `_distribution` of a non-empty list of values. */
  function DistributionOf(values: seq<int>): Distribution
    requires values != []
  {
    var xs := SortedInts(values);
    Distribution(xs[0], xs[|xs| / 2], xs[|xs| - 1])
  }

  function AtMost(m: int): int -> Option<int> {
    (x: int) => if x <= m then Some(x) else None
  }

  function AtLeast(m: int): int -> Option<int> {
    (x: int) => if x >= m then Some(x) else None
  }

  /** `m` is one of the values, with at least half of them, rounded up, on either side; of an
      even number it is the upper middle one. */
  ghost predicate IsMedian(values: seq<int>, m: int) {
    && m in values
    && |Collect(values, AtMost(m))| >= |values| / 2 + 1
    && |Collect(values, AtLeast(m))| >= (|values| + 1) / 2
  }

  ghost predicate IsLeast(values: seq<int>, m: int) {
    m in values && forall x :: x in values ==> m <= x
  }

  ghost predicate IsGreatest(values: seq<int>, m: int) {
    m in values && forall x :: x in values ==> x <= m
  }

  lemma {:induction false} CollectAll(xs: seq<int>, f: int -> Option<int>)
    requires forall i :: 0 <= i < |xs| ==> f(xs[i]).Some?
    ensures |Collect(xs, f)| == |xs|
  {
    if xs != [] {
      CollectAll(xs[1..], f);
    }
  }

  lemma IntIsOrder()
    ensures IsOrder(IntLeq) && forall xs :: Separates(IntLeq, xs)
  {}

  lemma CollectSplit(xs: seq<int>, h: nat, f: int -> Option<int>)
    requires h <= |xs|
    ensures |Collect(xs, f)| == |Collect(xs[..h], f)| + |Collect(xs[h..], f)|
  {
    hide Collect;
    assert xs == xs[..h] + xs[h..];
    CollectAppend(xs[..h], xs[h..], f);
  }

  lemma SortedCounts(xs: seq<int>)
    requires SortedBy(xs, IntLeq) && xs != []
    ensures IsMedian(xs, xs[|xs| / 2])
  {
    var n, h := |xs|, |xs| / 2;
    hide Collect;
    var m := xs[h];
    assert forall i, j :: 0 <= i < j < n ==> IntLeq(xs[i], xs[j]);
    CollectSplit(xs, h + 1, AtMost(m));
    CollectAll(xs[..h + 1], AtMost(m));
    CollectSplit(xs, h, AtLeast(m));
    CollectAll(xs[h..], AtLeast(m));
  }

  /** The reported statistics are what their names say. */
  lemma DistributionMeans(values: seq<int>)
    requires values != []
    ensures var d := DistributionOf(values);
            IsMedian(values, d.median) && IsLeast(values, d.minimum) && IsGreatest(values, d.maximum)
  {
    hide Sort, Collect, IsOrder;
    var xs := Sort(values, IntLeq);
    IntIsOrder();
    SortSorts(values, IntLeq);
    SortPermutes(values, IntLeq);
    SortMembers(values, IntLeq);
    SortedCounts(xs);
    var m := xs[|xs| / 2];
    CollectPermutes(values, xs, AtMost(m));
    CollectPermutes(values, xs, AtLeast(m));
    assert |Collect(values, AtMost(m))| == |multiset(Collect(values, AtMost(m)))| == |Collect(xs, AtMost(m))|;
    assert |Collect(values, AtLeast(m))| == |multiset(Collect(values, AtLeast(m)))| == |Collect(xs, AtLeast(m))|;
    forall x | x in values ensures xs[0] <= x <= xs[|xs| - 1] {
      assert x in xs;
      var i :| 0 <= i < |xs| && xs[i] == x;
      assert i > 0 ==> IntLeq(xs[0], xs[i]);
      assert i < |xs| - 1 ==> IntLeq(xs[i], xs[|xs| - 1]);
    }
    assert xs[0] in xs && xs[|xs| - 1] in xs && m in xs;
  }

  /** The statistics do not depend on the order of the samples. */
  lemma DistributionPermutes(values: seq<int>, reordered: seq<int>)
    requires values != [] && multiset(values) == multiset(reordered)
    ensures reordered != [] && DistributionOf(values) == DistributionOf(reordered)
  {
    hide Sort, IsOrder;
    assert |values| == |multiset(values)| == |multiset(reordered)| == |reordered|;
    IntIsOrder();
    SortCanonical(values, reordered, IntLeq);
  }

  // ----- Sequence numbers -----

  function Range(n: nat): (r: seq<int>)
    ensures |r| == n && forall i :: 0 <= i < n ==> r[i] == i
  {
    seq(n, i => i)
  }

  ghost predicate IsPermutationOfRange(xs: seq<int>) {
    multiset(xs) == multiset(Range(|xs|))
  }

  /** The contiguity test accepts exactly the permutations of 0..n-1. */
  lemma ContiguousIff(xs: seq<int>)
    ensures SortedInts(xs) == Range(|xs|) <==> IsPermutationOfRange(xs)
  {
    hide Sort, IsOrder;
    IntIsOrder();
    SortPermutes(xs, IntLeq);
    if IsPermutationOfRange(xs) {
      SortCanonical(xs, Range(|xs|), IntLeq);
      SortOfSorted(Range(|xs|), IntLeq);
    }
  }

  // ----- Grouping -----

  function InCase(id: string): Sample -> Option<Sample> {
    (s: Sample) => if s.caseId == id then Some(s) else None
  }

  function InPhase(phase: Phase): Sample -> Option<Sample> {
    (s: Sample) => if s.phase == phase then Some(s) else None
  }

  function SamplesOf(samples: seq<Sample>, id: string): seq<Sample> {
    Collect(samples, InCase(id))
  }

  function OfPhase(samples: seq<Sample>, phase: Phase): seq<Sample> {
    Collect(samples, InPhase(phase))
  }

  lemma {:induction false} PhasesSplit(samples: seq<Sample>)
    ensures |OfPhase(samples, Warmup)| + |OfPhase(samples, Measured)| == |samples|
  {
    if samples != [] {
      PhasesSplit(samples[1..]);
    }
  }

  ghost function CasesTotal(samples: seq<Sample>, contracts: seq<CaseContract>): nat {
    if contracts == [] then 0
    else CasesTotal(samples, contracts[..|contracts| - 1]) + |SamplesOf(samples, contracts[|contracts| - 1].id)|
  }

  function RunsTotal(contracts: seq<CaseContract>): nat {
    if contracts == [] then 0
    else
      var last := contracts[|contracts| - 1];
      RunsTotal(contracts[..|contracts| - 1]) + last.warmupRuns + last.measuredRuns
  }

  ghost predicate ContractsDistinct(contracts: seq<CaseContract>) {
    forall i, j :: 0 <= i < j < |contracts| ==> contracts[i].id != contracts[j].id
  }

  ghost predicate Covered(samples: seq<Sample>, contracts: seq<CaseContract>) {
    forall s :: s in samples ==> exists i :: 0 <= i < |contracts| && contracts[i].id == s.caseId
  }

  lemma {:induction false} CasesTotalStep(samples: seq<Sample>, contracts: seq<CaseContract>)
    requires samples != [] && ContractsDistinct(contracts)
    ensures CasesTotal(samples, contracts) == CasesTotal(samples[1..], contracts)
              + if (exists i :: 0 <= i < |contracts| && contracts[i].id == samples[0].caseId) then 1 else 0
  {
    if contracts != [] {
      CasesTotalStep(samples, contracts[..|contracts| - 1]);
    }
  }

  lemma {:induction false} NoSamples(contracts: seq<CaseContract>)
    ensures CasesTotal([], contracts) == 0
  {
    if contracts != [] {
      NoSamples(contracts[..|contracts| - 1]);
    }
  }

  /** Grouping by case counts every sample exactly once. */
  lemma {:induction false} GroupingConserves(samples: seq<Sample>, contracts: seq<CaseContract>)
    requires ContractsDistinct(contracts) && Covered(samples, contracts)
    ensures CasesTotal(samples, contracts) == |samples|
  {
    hide CasesTotal;
    if samples == [] {
      NoSamples(contracts);
    } else {
      CasesTotalStep(samples, contracts);
      assert samples[0] in samples;
      GroupingConserves(samples[1..], contracts);
    }
  }

  lemma {:induction false} RunsAreSamples(samples: seq<Sample>, contracts: seq<CaseContract>)
    requires forall i :: 0 <= i < |contracts| ==> CountsMatch(samples, contracts[i])
    ensures CasesTotal(samples, contracts) == RunsTotal(contracts)
  {
    hide OfPhase, SamplesOf;
    if contracts != [] {
      var last := contracts[|contracts| - 1];
      RunsAreSamples(samples, contracts[..|contracts| - 1]);
      assert CountsMatch(samples, last);
      PhasesSplit(SamplesOf(samples, last.id));
    }
  }

  // ----- Validation -----

  predicate CountsMatch(samples: seq<Sample>, c: CaseContract) {
    var mine := SamplesOf(samples, c.id);
    |OfPhase(mine, Warmup)| == c.warmupRuns && |OfPhase(mine, Measured)| == c.measuredRuns
  }

  function Values(samples: seq<Sample>, field: Metrics -> int): (xs: seq<int>)
    ensures |xs| == |samples|
  {
    seq(|samples|, i requires 0 <= i < |samples| => field(samples[i].metrics))
  }

  /** `_expected_summary` of the measured samples, if there are any and their output is stable. */
  function ExpectedSummary(measured: seq<Sample>): Option<Summary> {
    if measured != []
       && (forall s :: s in measured ==> s.metrics.outputBytes == measured[0].metrics.outputBytes)
       && (forall s :: s in measured ==> s.metrics.outputFiles == measured[0].metrics.outputFiles)
    then Some(Summary(|measured|,
      DistributionOf(Values(measured, (m: Metrics) => m.wall)),
      DistributionOf(Values(measured, (m: Metrics) => m.userCpu)),
      DistributionOf(Values(measured, (m: Metrics) => m.systemCpu)),
      DistributionOf(Values(measured, (m: Metrics) => m.peakRss)),
      measured[0].metrics.outputBytes, measured[0].metrics.outputFiles))
    else None
  }

  function ResultById(results: seq<ResultCase>, id: string): Option<ResultCase> {
    if results == [] then None
    else if results[|results| - 1].caseId == id then Some(results[|results| - 1])
    else ResultById(results[..|results| - 1], id)
  }

  /** The checks on one case of the result. */
  predicate CaseReported(samples: seq<Sample>, c: CaseContract, results: seq<ResultCase>) {
    var mine := SamplesOf(samples, c.id);
    var measured := OfPhase(mine, Measured);
    && CountsMatch(samples, c)
    && ResultById(results, c.id).Some?
    && var r := ResultById(results, c.id).value;
       && r.family == c.family && r.warmups == |OfPhase(mine, Warmup)| && r.measured == |measured|
       && ExpectedSummary(measured) == Some(r.summary)
  }

  /** The sample loop: unique ids, known cases and families, and samples grouped by case. */
  method GroupSamples(samples: seq<Sample>, contracts: seq<CaseContract>, identified: Sample -> bool)
    returns (ok: bool, groups: map<string, seq<Sample>>, sequences: seq<int>)
    ensures ok <==>
              && (forall i, j :: 0 <= i < j < |samples| ==> samples[i].sampleId != samples[j].sampleId)
              && (forall s :: s in samples ==> Known(s, contracts) && identified(s))
    ensures ok ==> sequences == seq(|samples|, i requires 0 <= i < |samples| => samples[i].sequence)
    ensures ok ==> forall i :: 0 <= i < |contracts| ==>
              contracts[i].id in groups && groups[contracts[i].id] == SamplesOf(samples, contracts[i].id)
  {
    hide Known, SamplesOf;
    groups := map c | c in contracts :: c.id := [];
    var seen: set<string> := {};
    sequences := [];
    forall i | 0 <= i < |contracts|
      ensures contracts[i].id in groups && SamplesOf(samples[..0], contracts[i].id) == []
    {
      NoneOf(contracts[i].id);
    }
    for k := 0 to |samples|
      invariant forall id :: id in seen <==> exists i :: 0 <= i < k && samples[i].sampleId == id
      invariant forall i, j :: 0 <= i < j < k ==> samples[i].sampleId != samples[j].sampleId
      invariant forall i :: 0 <= i < k ==> Known(samples[i], contracts) && identified(samples[i])
      invariant |sequences| == k && forall i :: 0 <= i < k ==> sequences[i] == samples[i].sequence
      invariant forall i :: 0 <= i < |contracts| ==>
                  contracts[i].id in groups && groups[contracts[i].id] == SamplesOf(samples[..k], contracts[i].id)
    {
      var s := samples[k];
      if s.sampleId in seen { return false, groups, sequences; }
      seen := seen + {s.sampleId};
      sequences := sequences + [s.sequence];
      if !Known(s, contracts) || !identified(s) { return false, groups, sequences; }
      KnownCase(s, contracts);
      forall i | 0 <= i < |contracts|
        ensures SamplesOf(samples[..k + 1], contracts[i].id) ==
                SamplesOf(samples[..k], contracts[i].id) + if s.caseId == contracts[i].id then [s] else []
      {
        OneMore(samples, k, contracts[i].id);
      }
      groups := groups[s.caseId := groups[s.caseId] + [s]];
    }
    ok := true;
    assert samples[..|samples|] == samples;
  }

  /** The sample belongs to a case of the suite, with that case's family. */
  predicate Known(s: Sample, contracts: seq<CaseContract>) {
    exists c :: c in contracts && c.id == s.caseId && c.family == s.family
  }

  lemma KnownCase(s: Sample, contracts: seq<CaseContract>)
    requires Known(s, contracts)
    ensures exists i :: 0 <= i < |contracts| && contracts[i].id == s.caseId
  {
    var c :| c in contracts && c.id == s.caseId && c.family == s.family;
    var i :| 0 <= i < |contracts| && contracts[i] == c;
  }

  lemma NoneOf(id: string)
    ensures SamplesOf([], id) == []
  {}

  lemma OneMore(samples: seq<Sample>, k: nat, id: string)
    requires k < |samples|
    ensures SamplesOf(samples[..k + 1], id) ==
            SamplesOf(samples[..k], id) + if samples[k].caseId == id then [samples[k]] else []
  {
    CollectNext(samples, k, InCase(id));
  }

  /** `validate_result`, given a validated suite. */
  method ValidateResult(contracts: seq<CaseContract>, samples: seq<Sample>, results: seq<ResultCase>,
                        identified: Sample -> bool)
    returns (ok: bool)
    requires ContractsDistinct(contracts)
    ensures ok <==>
              && (forall i, j :: 0 <= i < j < |samples| ==> samples[i].sampleId != samples[j].sampleId)
              && (forall s :: s in samples ==> Known(s, contracts) && identified(s))
              && IsPermutationOfRange(seq(|samples|, i requires 0 <= i < |samples| => samples[i].sequence))
              && (set r | r in results :: r.caseId) == (set c | c in contracts :: c.id)
              && (forall i :: 0 <= i < |contracts| ==> CaseReported(samples, contracts[i], results))
  {
    hide Known, CaseReported, IsPermutationOfRange, ContractsDistinct, SamplesOf;
    var grouped, groups, sequences := GroupSamples(samples, contracts, identified);
    if !grouped { return false; }
    ContiguousIff(sequences);
    if SortedInts(sequences) != Range(|sequences|) { return false; }
    if (set r | r in results :: r.caseId) != (set c | c in contracts :: c.id) { return false; }
    for k := 0 to |contracts|
      invariant forall i :: 0 <= i < k ==> CaseReported(samples, contracts[i], results)
    {
      var c := contracts[k];
      var reported := ReportCheck(samples, groups[c.id], c, results);
      if !reported { return false; }
    }
    return true;
  }

  method ReportCheck(samples: seq<Sample>, mine: seq<Sample>, c: CaseContract, results: seq<ResultCase>)
    returns (ok: bool)
    requires mine == SamplesOf(samples, c.id)
    ensures ok <==> CaseReported(samples, c, results)
  {
    hide OfPhase, SamplesOf, ExpectedSummary;
    var warmups, measured := OfPhase(mine, Warmup), OfPhase(mine, Measured);
    if |warmups| != c.warmupRuns || |measured| != c.measuredRuns { return false; }
    var found := ResultById(results, c.id);
    if found.None? { return false; }
    var r := found.value;
    if r.family != c.family || r.warmups != |warmups| || r.measured != |measured| { return false; }
    return ExpectedSummary(measured) == Some(r.summary);
  }

  /** What acceptance of a result guarantees: as many raw samples as the suite plans runs, and in
      every case statistics of its own measured samples, each median with half on either side. */
  lemma AcceptedResult(contracts: seq<CaseContract>, samples: seq<Sample>, results: seq<ResultCase>, k: nat)
    requires ContractsDistinct(contracts) && k < |contracts|
    requires forall s :: s in samples ==> Known(s, contracts)
    requires forall i :: 0 <= i < |contracts| ==> CaseReported(samples, contracts[i], results)
    ensures |samples| == RunsTotal(contracts)
    ensures ResultById(results, contracts[k].id).Some?
    ensures var measured := OfPhase(SamplesOf(samples, contracts[k].id), Measured);
            var summary := ResultById(results, contracts[k].id).value.summary;
            && summary.measuredSamples == |measured| == contracts[k].measuredRuns
            && IsMedian(Values(measured, (m: Metrics) => m.wall), summary.wall.median)
            && IsMedian(Values(measured, (m: Metrics) => m.userCpu), summary.userCpu.median)
            && IsMedian(Values(measured, (m: Metrics) => m.systemCpu), summary.systemCpu.median)
            && IsMedian(Values(measured, (m: Metrics) => m.peakRss), summary.peakRss.median)
  {
    hide Known, SamplesOf, OfPhase, ContractsDistinct, IsMedian, DistributionOf, IsLeast, IsGreatest;
    forall s | s in samples ensures exists i :: 0 <= i < |contracts| && contracts[i].id == s.caseId {
      KnownCase(s, contracts);
    }
    GroupingConserves(samples, contracts);
    RunsAreSamples(samples, contracts);
    assert CaseReported(samples, contracts[k], results);
    var measured := OfPhase(SamplesOf(samples, contracts[k].id), Measured);
    DistributionMeans(Values(measured, (m: Metrics) => m.wall));
    DistributionMeans(Values(measured, (m: Metrics) => m.userCpu));
    DistributionMeans(Values(measured, (m: Metrics) => m.systemCpu));
    DistributionMeans(Values(measured, (m: Metrics) => m.peakRss));
  }

  // ----- What a summary says -----

  /** The samples of a list that belong to a case and a phase, in order. */
  function Chosen(samples: seq<Sample>, id: string, phase: Phase): seq<Sample> {
    if samples == [] then []
    else
      var last := samples[|samples| - 1];
      Chosen(samples[..|samples| - 1], id, phase) + if last.caseId == id && last.phase == phase then [last] else []
  }

  lemma {:induction false} ChosenAre(samples: seq<Sample>, id: string, phase: Phase)
    ensures OfPhase(SamplesOf(samples, id), phase) == Chosen(samples, id, phase)
  {
    if samples != [] {
      var n := |samples| - 1;
      var init, last := samples[..n], samples[n];
      ChosenAre(init, id, phase);
      CollectNext(samples, n, InCase(id));
      assert samples[..n + 1] == samples;
      if last.caseId == id {
        var mine := SamplesOf(init, id) + [last];
        assert SamplesOf(samples, id) == mine;
        CollectNext(mine, |mine| - 1, InPhase(phase));
        assert mine[..|mine| - 1 + 1] == mine && mine[..|mine| - 1] == SamplesOf(init, id);
      } else {
        assert SamplesOf(samples, id) == SamplesOf(init, id) + [] == SamplesOf(init, id);
        assert Chosen(samples, id, phase) == Chosen(init, id, phase) + [] == Chosen(init, id, phase);
      }
    }
  }

  /** A distribution of one field of the samples: least, median and greatest value. */
  ghost predicate Describes(d: Distribution, samples: seq<Sample>, field: Metrics -> int) {
    var values := Values(samples, field);
    IsLeast(values, d.minimum) && IsMedian(values, d.median) && IsGreatest(values, d.maximum)
  }

  /** A summary counts the samples, describes each of the four measured quantities, and tells the
      output size and number of files that all samples share. */
  lemma SummaryMeans(measured: seq<Sample>)
    ensures ExpectedSummary(measured).Some? <==>
              && measured != []
              && (forall s, t :: s in measured && t in measured ==>
                    s.metrics.outputBytes == t.metrics.outputBytes && s.metrics.outputFiles == t.metrics.outputFiles)
    ensures ExpectedSummary(measured).Some? ==>
              var s := ExpectedSummary(measured).value;
              && s.measuredSamples == |measured|
              && Describes(s.wall, measured, (m: Metrics) => m.wall)
              && Describes(s.userCpu, measured, (m: Metrics) => m.userCpu)
              && Describes(s.systemCpu, measured, (m: Metrics) => m.systemCpu)
              && Describes(s.peakRss, measured, (m: Metrics) => m.peakRss)
              && (forall t :: t in measured ==>
                   t.metrics.outputBytes == s.outputBytes && t.metrics.outputFiles == s.outputFiles)
  {
    hide DistributionOf, IsMedian, IsLeast, IsGreatest;
    if measured != [] {
      assert measured[0] in measured;
      DistributionMeans(Values(measured, (m: Metrics) => m.wall));
      DistributionMeans(Values(measured, (m: Metrics) => m.userCpu));
      DistributionMeans(Values(measured, (m: Metrics) => m.systemCpu));
      DistributionMeans(Values(measured, (m: Metrics) => m.peakRss));
    }
  }

  /** The last result with an id is the one that is looked at. */
  lemma {:induction false} ResultFound(results: seq<ResultCase>, id: string)
    ensures ResultById(results, id).None? <==> forall i :: 0 <= i < |results| ==> results[i].caseId != id
    ensures ResultById(results, id).Some? ==>
              exists i :: 0 <= i < |results| && results[i] == ResultById(results, id).value && results[i].caseId == id
                          && forall j :: i < j < |results| ==> results[j].caseId != id
  {
    if results != [] {
      var n := |results| - 1;
      var init := results[..n];
      ResultFound(init, id);
      assert forall i :: 0 <= i < n ==> init[i] == results[i];
      if results[n].caseId != id && ResultById(results, id).Some? {
        var i :| 0 <= i < |init| && init[i] == ResultById(init, id).value && init[i].caseId == id
                 && forall j :: i < j < |init| ==> init[j].caseId != id;
        assert results[i] == ResultById(results, id).value;
        forall j | i < j < |results| ensures results[j].caseId != id {
          if j < n { assert init[j] == results[j]; }
        }
      } else if results[n].caseId == id {
        assert results[n] == ResultById(results, id).value;
      }
    }
  }

  /** A case is reported correctly when its last result has its family, its planned numbers of
      warm-up and measured samples, and the summary of its measured samples. */
  lemma ReportedMeans(samples: seq<Sample>, c: CaseContract, results: seq<ResultCase>)
    ensures CaseReported(samples, c, results) <==>
              && |Chosen(samples, c.id, Warmup)| == c.warmupRuns && |Chosen(samples, c.id, Measured)| == c.measuredRuns
              && exists r :: ResultById(results, c.id) == Some(r) && r.family == c.family
                             && r.warmups == c.warmupRuns && r.measured == c.measuredRuns
                             && ExpectedSummary(Chosen(samples, c.id, Measured)) == Some(r.summary)
  {
    hide ExpectedSummary, ResultById, SamplesOf, OfPhase, Chosen;
    ChosenAre(samples, c.id, Warmup);
    ChosenAre(samples, c.id, Measured);
  }
}
