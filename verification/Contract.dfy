/** The records of the behaviour contract, as far as merging, binding and coverage look at them. */
module Contract {
  import opened Wrappers

  datatype Role = Primary | OtherRole(name: string)

  datatype Target = Target(id: string, role: Role)

  datatype CaseClass = Acceptance | Interaction | OtherClass(name: string)

  datatype ReviewStatus = Reviewed | Unreviewed

  datatype Applicability = Applicable | Conditional | NotApplicable

  datatype EvidenceStatus = NoEvidence | Planned | Pass | Fail

  datatype Origin = GeneratedSkeleton | ManuallyCurated | ReviewedImport

  datatype Source = Source(repository: string, path: string, line: nat, kind: string, text: Option<string>)

  datatype SuiteCase = SuiteCase(suiteId: string, caseId: string)

  /** One piece of retained evidence. */
  datatype EvidenceItem = EvidenceItem(suiteId: string, caseId: string, resultPath: string, passed: bool)

  datatype Case = Case(
    id: string,
    origin: Origin,
    caseClass: CaseClass,
    surface: string,
    description: string,
    targets: seq<Target>,
    behaviorGroups: seq<string>,
    comparisonDimensions: seq<string>,
    applicability: Applicability,
    reviewStatus: ReviewStatus,
    evidenceStatus: EvidenceStatus,
    sources: seq<Source>,
    upstreamTests: seq<string>,
    suiteCases: seq<SuiteCase>,
    evidence: seq<EvidenceItem>)

  datatype Group = Group(
    id: string,
    domain: string,
    critical: bool,
    reviewStatus: ReviewStatus,
    members: seq<string>,
    plannedCases: seq<string>,
    sources: seq<Source>)

  /** A subject or a behaviour group, which the code below only carries along. */
  datatype Entry = Entry(id: string, content: string)

  /** A reviewed case with real planning substance. */
  predicate IsSubstantivePlan(c: Case) {
    && c.reviewStatus == Reviewed
    && c.applicability != NotApplicable
    && (c.suiteCases != [] || (c.behaviorGroups != [] && c.upstreamTests != []))
  }
}
