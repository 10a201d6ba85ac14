/**
 The capture protocol of the resource harness. One run generates an input, measures it in a
 container, checks the outcome, removes the container, keeps evidence of a failure, removes
 the two temporary directories and reports. Every call to the outside may fail: an
 `Environment` fixes what each of them does, and the contracts hold for all environments.
 */
module Capture {
  import opened Wrappers
  import opened Ordering
  import opened Text

  // ----- Outcome encoding, on both sides of the container -----

  /** A JSON value as far as the outcome check looks at it; `bool` is an `int` in Python. */
  datatype Json = Null | Int(n: int) | Bool(b: bool) | OtherJson

  function AsInt(v: Json): Option<int> {
    match v
    case Int(n) => Some(n)
    case Bool(b) => Some(if b then 1 else 0)
    case _ => None
  }

  datatype Metrics = Metrics(exitCode: Json, signal: Json)

  /** What running the measured command did: a return code, negative for a signal, or no start. */
  datatype Child = Completed(returncode: int) | NotExecutable

  /** `measure.py`: the metrics it writes and the status it returns. */
  method Measure(child: Child) returns (metrics: Metrics, status: int)
    ensures metrics == MeasuredMetrics(child) && WrapperCode(metrics) == Some(status)
    ensures child.NotExecutable? ==> metrics == Metrics(Int(127), Null)
    ensures child.Completed? && child.returncode >= 0 ==> metrics == Metrics(Int(child.returncode), Null)
    ensures child.Completed? && child.returncode < 0 ==> metrics == Metrics(Null, Int(-child.returncode))
  {
    var exitCode, signal: Option<int> := None, None;
    match child {
      case Completed(returncode) =>
        if returncode < 0 {
          signal := Some(-returncode);
        } else {
          exitCode := Some(returncode);
        }
      case NotExecutable =>
        exitCode := Some(127);
    }
    metrics := Metrics(if exitCode.Some? then Int(exitCode.value) else Null,
                       if signal.Some? then Int(signal.value) else Null);
    if signal.Some? {
      status := Min(255, 128 + signal.value);
    } else {
      status := exitCode.value;
    }
  }

  /** The wrapper status `capture_profile` expects for given metrics, if the outcome is valid. */
  function WrapperCode(m: Metrics): Option<int> {
    if AsInt(m.exitCode).Some? && m.signal.Null? then AsInt(m.exitCode)
    else if m.exitCode.Null? && AsInt(m.signal).Some? && AsInt(m.signal).value > 0 then
      Some(Min(255, 128 + AsInt(m.signal).value))
    else None
  }

  /** What the metrics of a child say, as a function. */
  function MeasuredMetrics(child: Child): Metrics {
    match child
    case NotExecutable => Metrics(Int(127), Null)
    case Completed(rc) => if rc < 0 then Metrics(Null, Int(-rc)) else Metrics(Int(rc), Null)
  }

  /** The exit status the operating system reports for a process that exits with `status`. */
  function ProcessStatus(status: int): int {
    status % 256
  }

  /** With a container that passes the status through, the two sides disagree exactly when the
      child's return code does not fit an exit status; a POSIX child's always does. */
  lemma PassThroughAgrees(child: Child)
    ensures WrapperCode(MeasuredMetrics(child)).Some?
    ensures WrapperCode(MeasuredMetrics(child)).value ==
              ProcessStatus(WrapperCode(MeasuredMetrics(child)).value)
            <==> (child.Completed? ==> child.returncode <= 255)
  {
    match child
    case NotExecutable =>
    case Completed(rc) =>
      if rc < 0 {
        assert 128 < Min(255, 128 - rc) <= 255;
      }
  }

  // ----- The outside -----

  datatype Role = MetricsFile | StdoutFile | StderrFile

  datatype Place = Evidence | Sample | Failure

  datatype Path = At(place: Place, role: Role) | FailureInput | FailureDockerStdout | FailureDockerStderr

  datatype Entry = Regular(content: Bytes) | Symlink

  type Store = map<Path, Entry>

  predicate IsRegular(files: Store, path: Path) {
    path in files && files[path].Regular?
  }

  /** Every call that may raise. Reading the metrics raises either one of the exceptions that are
      caught there, or another, such as one from JSON nested too deeply. */
  datatype Step =
    | Generate | ReadInput | RunDocker | ReadMetrics | DecodeMetrics | HashStdout | HashStderr | AnalyzeAfter | ListWork
    | MakeSample | CopySample(role: Role) | DescribeSample(role: Role)
    | ListBefore | RemoveContainer | ListAfter
    | MakeFailure | WriteFailure(path: Path) | DescribeFailure(path: Path)
    | RemoveWork | RemoveEvidence | WriteManifest

  datatype Docker =
    | Expired(stdout: Bytes, stderr: Bytes)
    | NoWrapper(message: string)
    | Finished(returncode: int, stdout: Bytes, stderr: Bytes)

  datatype Parsed = Unparsable | NotAnObject | Object(metrics: Metrics)

  datatype Environment = Environment(
    fails: Step -> Option<string>,    // the message of the exception a step raises
    partial: Path -> Bytes,           // what a failed copy leaves at its destination
    lingers: Step -> bool,            // whether a removal leaves its object behind
    input: Bytes,                     // the generated tracefile
    inputMatches: bool,               // its shape is the contract's
    docker: Docker,
    written: map<Role, Entry>,        // what the run leaves in the evidence directory
    containerLeft: bool,
    parse: Bytes -> Parsed,
    sha256: Bytes -> string,
    expectedStdout: string,
    expectedStderr: string,
    inputAfter: string,
    workEntries: seq<string>,
    removeStatus: int)

  // ----- Failures -----

  datatype FailureClass =
    | GeneratedInputDrift | HostDeadlineExceeded | DockerWrapperFailure | DockerWrapperStreamPollution
    | MeasurementArtifactMissing | MeasurementMetricsInvalid | MeasurementOutcomeInvalid
    | DockerWrapperExitMismatch | OracleSignal | OracleNonzeroExit | StdoutMismatch | StderrMismatch
    | CaptureFailure | ContainerCleanupFailure | TemporaryCleanupFailure

  datatype CleanupRole = Container | WorkDirectory | EvidenceDirectory

  datatype CleanupError = CleanupError(role: CleanupRole, message: string)

  /** The error a run reports as its cause: a classified failure, any other exception of the
      operation, or the first cleanup error. */
  datatype Cause = Classified(kind: FailureClass) | Raised(message: string) | Cleanup(error: CleanupError)

  function CauseClass(cause: Cause): FailureClass {
    match cause
    case Classified(kind) => kind
    case Raised(_) => CaptureFailure
    case Cleanup(error) => if error.role == Container then ContainerCleanupFailure else TemporaryCleanupFailure
  }

  // ----- What an environment amounts to -----

  predicate Generates(env: Environment) {
    env.fails(Generate).None? && env.fails(ReadInput).None?
  }

  /** The container run is reached once the input exists and has the contract's shape. */
  predicate RunsDocker(env: Environment) {
    Generates(env) && env.inputMatches
  }

  /** It hands over its streams unless it raises something that is no timeout. */
  predicate HasStreams(env: Environment) {
    RunsDocker(env) && env.fails(RunDocker).None? && !env.docker.NoWrapper?
  }

  function DockerStdout(env: Environment): Bytes {
    if HasStreams(env) then env.docker.stdout else []
  }

  function DockerStderr(env: Environment): Bytes {
    if HasStreams(env) then env.docker.stderr else []
  }

  predicate Measured(env: Environment, role: Role) {
    RunsDocker(env) && role in env.written && env.written[role].Regular?
  }

  function MeasuredBytes(env: Environment, role: Role): Bytes {
    if Measured(env, role) then env.written[role].content else []
  }

  predicate AllMeasured(env: Environment) {
    Measured(env, MetricsFile) && Measured(env, StdoutFile) && Measured(env, StderrFile)
  }

  /** The operation up to and including the container run. */
  function InputFailure(env: Environment): Option<Cause> {
    if env.fails(Generate).Some? then Some(Raised(env.fails(Generate).value))
    else if env.fails(ReadInput).Some? then Some(Raised(env.fails(ReadInput).value))
    else if !env.inputMatches then Some(Classified(GeneratedInputDrift))
    else if env.fails(RunDocker).Some? then Some(Raised(env.fails(RunDocker).value))
    else match env.docker
      case Expired(_, _) => Some(Classified(HostDeadlineExceeded))
      case NoWrapper(_) => Some(Classified(DockerWrapperFailure))
      case Finished(_, stdout, stderr) =>
        if stdout != [] || stderr != [] then Some(Classified(DockerWrapperStreamPollution)) else None
  }

  /** The checks on the measurement, once a run has finished cleanly. */
  function OutcomeFailure(env: Environment, returncode: int): Option<Cause> {
    if !AllMeasured(env) then Some(Classified(MeasurementArtifactMissing))
    else if env.fails(ReadMetrics).Some? then Some(Classified(MeasurementMetricsInvalid))
    else if env.fails(DecodeMetrics).Some? then Some(Raised(env.fails(DecodeMetrics).value))
    else match env.parse(MeasuredBytes(env, MetricsFile))
      case Unparsable => Some(Classified(MeasurementMetricsInvalid))
      case NotAnObject => Some(Classified(MeasurementMetricsInvalid))
      case Object(m) =>
        if WrapperCode(m).None? then Some(Classified(MeasurementOutcomeInvalid))
        else if returncode != WrapperCode(m).value then Some(Classified(DockerWrapperExitMismatch))
        else if !m.signal.Null? then Some(Classified(OracleSignal))
        else if AsInt(m.exitCode) != Some(0) then Some(Classified(OracleNonzeroExit))
        else if env.fails(HashStdout).Some? then Some(Raised(env.fails(HashStdout).value))
        else if env.sha256(MeasuredBytes(env, StdoutFile)) != env.expectedStdout then Some(Classified(StdoutMismatch))
        else if env.fails(HashStderr).Some? then Some(Raised(env.fails(HashStderr).value))
        else if env.sha256(MeasuredBytes(env, StderrFile)) != env.expectedStderr then Some(Classified(StderrMismatch))
        else None
  }

  /** A raised exception comes before whatever would have gone wrong later. */
  function Before(raised: Option<string>, later: Option<Cause>): Option<Cause> {
    if raised.Some? then Some(Raised(raised.value)) else later
  }

  /** Keeping the sample, once every check has passed. */
  function SampleFailure(env: Environment, sampleExists: bool): Option<Cause> {
    Before(env.fails(AnalyzeAfter), Before(env.fails(ListWork), Before(env.fails(MakeSample),
      if sampleExists then Some(Raised("sample directory exists"))
      else
        Before(env.fails(CopySample(MetricsFile)), Before(env.fails(CopySample(StdoutFile)),
        Before(env.fails(CopySample(StderrFile)), Before(env.fails(DescribeSample(MetricsFile)),
        Before(env.fails(DescribeSample(StdoutFile)), Before(env.fails(DescribeSample(StderrFile)), None)))))))))
  }

  /** The first thing that goes wrong in the operation, in the order it is tried. */
  function OperationFailure(env: Environment, sampleExists: bool): Option<Cause> {
    if InputFailure(env).Some? then InputFailure(env)
    else if !env.docker.Finished? then None
    else if OutcomeFailure(env, env.docker.returncode).Some? then OutcomeFailure(env, env.docker.returncode)
    else SampleFailure(env, sampleExists)
  }

  predicate LeavesContainer(env: Environment) {
    RunsDocker(env) && env.containerLeft
  }

  /** Why the container cannot be confirmed removed. */
  function ContainerFailure(env: Environment): Option<string> {
    if env.fails(ListBefore).Some? then env.fails(ListBefore)
    else if !LeavesContainer(env) then None
    else if env.fails(RemoveContainer).Some? then env.fails(RemoveContainer)
    else if env.fails(ListAfter).Some? then env.fails(ListAfter)
    else if env.lingers(RemoveContainer) then Some("container survived cleanup")
    else if env.removeStatus != 0 then Some("container cleanup failed")
    else None
  }

  predicate KeepFails(env: Environment, path: Path) {
    env.fails(WriteFailure(path)).Some? || env.fails(DescribeFailure(path)).Some?
  }

  /** A measured file that cannot be kept without an exception. */
  predicate RoleFails(env: Environment, role: Role) {
    Measured(env, role) && KeepFails(env, At(Failure, role))
  }

  predicate RolesFail(env: Environment) {
    exists role :: RoleFails(env, role)
  }

  lemma RolesFailIff(env: Environment)
    ensures RolesFail(env) <==>
              RoleFails(env, MetricsFile) || RoleFails(env, StdoutFile) || RoleFails(env, StderrFile)
  {
    hide RoleFails;
    if RolesFail(env) {
      var role :| RoleFails(env, role);
      match role case MetricsFile => case StdoutFile => case StderrFile =>
    }
  }

  /** No exception stops the retention among the measured files before this one. */
  predicate RoleReached(env: Environment, role: Role) {
    && (role != MetricsFile ==> !RoleFails(env, MetricsFile))
    && (role == StderrFile ==> !RoleFails(env, StdoutFile))
  }

  /** Retention gets as far as this measured file. */
  predicate Reached(env: Environment, role: Role) {
    env.fails(MakeFailure).None? && !KeepFails(env, FailureInput) && RoleReached(env, role)
  }

  /** Retention reaches a measured file whose write is cut short with other bytes. */
  predicate CutShort(env: Environment, role: Role) {
    && Measured(env, role) && Reached(env, role)
    && env.fails(WriteFailure(At(Failure, role))).Some? && env.partial(At(Failure, role)) != MeasuredBytes(env, role)
  }

  /** Whether keeping the evidence of a failure goes wrong anywhere. */
  predicate RetentionFails(env: Environment, failureExists: bool) {
    || env.fails(MakeFailure).Some? || failureExists
    || KeepFails(env, FailureInput) || RolesFail(env)
    || KeepFails(env, FailureDockerStdout) || KeepFails(env, FailureDockerStderr)
  }

  /** All cleanup errors of a run, in order. */
  function CleanupErrors(env: Environment): seq<CleanupError> {
    (if ContainerFailure(env).Some? then [CleanupError(Container, ContainerFailure(env).value)] else [])
    + (if env.fails(RemoveWork).Some? then [CleanupError(WorkDirectory, env.fails(RemoveWork).value)] else [])
    + (if env.fails(RemoveEvidence).Some? then [CleanupError(EvidenceDirectory, env.fails(RemoveEvidence).value)]
       else [])
  }

  /** The failure known before the temporary directories are removed. */
  function EarlyCause(env: Environment, sampleExists: bool): Option<Cause> {
    if OperationFailure(env, sampleExists).Some? then OperationFailure(env, sampleExists)
    else if ContainerFailure(env).Some? then Some(Cleanup(CleanupError(Container, ContainerFailure(env).value)))
    else None
  }

  /** The error a run must report: the operation's own, or else the first cleanup error. */
  function ExpectedCause(env: Environment, sampleExists: bool): Option<Cause> {
    if OperationFailure(env, sampleExists).Some? then OperationFailure(env, sampleExists)
    else if CleanupErrors(env) != [] then Some(Cleanup(CleanupErrors(env)[0]))
    else None
  }

  lemma LateCause(env: Environment, sampleExists: bool)
    ensures ExpectedCause(env, sampleExists) ==
            if EarlyCause(env, sampleExists).Some? then EarlyCause(env, sampleExists)
            else if CleanupErrors(env) != [] then Some(Cleanup(CleanupErrors(env)[0]))
            else None
    ensures EarlyCause(env, sampleExists).None? && CleanupErrors(env) != [] ==>
              CleanupErrors(env)[0].role != Container
    ensures CleanupErrors(env) == [] ==>
              ContainerFailure(env).None? && env.fails(RemoveWork).None? && env.fails(RemoveEvidence).None?
  {
    hide OperationFailure, ContainerFailure;
  }

  /** The hash of the input after the run is recorded but not compared: it decides nothing. */
  lemma AfterHashDecidesNothing(env: Environment, inputAfter: string, sampleExists: bool)
    ensures ExpectedCause(env.(inputAfter := inputAfter), sampleExists) == ExpectedCause(env, sampleExists)
  {}

  lemma GeneratedIfDone(env: Environment, sampleExists: bool)
    ensures OperationFailure(env, sampleExists).None? ==> Generates(env)
  {}

  /** The sample as recorded before the temporary directories are removed. */
  function DraftSample(env: Environment): SampleRecord {
    SampleRecord(
      env.inputAfter,
      match env.parse(MeasuredBytes(env, MetricsFile)) case Object(m) => m.exitCode case _ => Null,
      if env.docker.Finished? then env.docker.returncode else 0,
      MeasuredDigests(env), env.workEntries, false, false, false)
  }

  // ----- What the reported cause implies -----

  /** Everything a returned sample vouches for. */
  ghost predicate AllMatched(env: Environment) {
    && env.inputMatches && AllMeasured(env)
    && env.docker == Finished(0, [], [])
    && env.parse(MeasuredBytes(env, MetricsFile)).Object?
    && AsInt(env.parse(MeasuredBytes(env, MetricsFile)).metrics.exitCode) == Some(0)
    && env.parse(MeasuredBytes(env, MetricsFile)).metrics.signal == Null
    && env.sha256(MeasuredBytes(env, StdoutFile)) == env.expectedStdout
    && env.sha256(MeasuredBytes(env, StderrFile)) == env.expectedStderr
    && CleanupErrors(env) == []
  }

  /** A run without an error to report matched its contract in input, exit, signal and both
      streams, and cleaned up; if it matched, only an exception can have stopped it. */
  lemma SampleMeansMatched(env: Environment, sampleExists: bool)
    ensures ExpectedCause(env, sampleExists).None? ==> AllMatched(env)
    ensures AllMatched(env) ==>
              ExpectedCause(env, sampleExists).None? || ExpectedCause(env, sampleExists).value.Raised?
              || ExpectedCause(env, sampleExists) == Some(Classified(MeasurementMetricsInvalid))
  {
    hide Measured, MeasuredBytes, ContainerFailure;
  }

  /** Through a container that passes the wrapper's status on, the exit-mismatch branch is
      reachable only for a return code that is no exit status; for a POSIX child, never. */
  lemma MismatchUnreachable(env: Environment, child: Child, sampleExists: bool)
    requires env.docker.Finished?
    requires env.docker.returncode == ProcessStatus(WrapperCode(MeasuredMetrics(child)).value)
    requires env.parse(MeasuredBytes(env, MetricsFile)) == Object(MeasuredMetrics(child))
    ensures OperationFailure(env, sampleExists) == Some(Classified(DockerWrapperExitMismatch)) <==>
              && InputFailure(env).None? && AllMeasured(env)
              && env.fails(ReadMetrics).None? && env.fails(DecodeMetrics).None?
              && child.Completed? && child.returncode > 255
  {
    hide Measured, MeasuredBytes, ProcessStatus, Min;
    PassThroughAgrees(child);
  }

  // ----- One run -----

  datatype SampleRecord = SampleRecord(
    inputAfter: string,
    exitCode: Json,
    containerExitCode: int,
    digests: map<Role, string>,
    unexpectedEntries: seq<string>,
    workRemoved: bool,
    evidenceRemoved: bool,
    containerRemoved: bool)

  /** `failure.json`. */
  datatype Manifest = Manifest(
    kind: FailureClass,
    cause: Cause,
    deadlineExpired: bool,
    workRemoved: bool,
    evidenceRemoved: bool,
    containerRemoved: bool,
    errors: seq<CleanupError>)

  datatype EvidenceNote = EvidenceKept | EvidenceNotRetained | NothingGenerated

  datatype Outcome =
    | Returned(sample: SampleRecord)
    | CaptureError(cause: Cause, retention: seq<string>, cleanup: seq<CleanupError>, note: EvidenceNote)

  predicate HoldsRole(files: Store, place: Place, env: Environment, role: Role) {
    && (IsRegular(files, At(place, role)) <==> Measured(env, role))
    && (Measured(env, role) ==> files[At(place, role)].content == MeasuredBytes(env, role))
  }

  /** The measured files are at `place`, byte for byte, and those that were not measured are not. */
  ghost predicate HoldsMeasured(files: Store, place: Place, env: Environment) {
    HoldsRole(files, place, env, MetricsFile) && HoldsRole(files, place, env, StdoutFile)
    && HoldsRole(files, place, env, StderrFile)
  }

  function MeasuredDigests(env: Environment): map<Role, string> {
    map[MetricsFile := env.sha256(MeasuredBytes(env, MetricsFile)),
        StdoutFile := env.sha256(MeasuredBytes(env, StdoutFile)),
        StderrFile := env.sha256(MeasuredBytes(env, StderrFile))]
  }

  /** A measured file is kept exactly if retention reached it, as it was measured or, if writing
      that very file was cut short, as far as that got. */
  predicate KeptRole(files: Store, env: Environment, role: Role, reached: bool) {
    && (At(Failure, role) in files <==> reached && Measured(env, role))
    && (At(Failure, role) in files ==>
          files[At(Failure, role)] ==
          Regular(if env.fails(WriteFailure(At(Failure, role))).Some? then env.partial(At(Failure, role))
                  else MeasuredBytes(env, role)))
  }

  predicate InPlace(path: Path, place: Place) {
    match path
    case At(p, _) => p == place
    case _ => place == Failure
  }

  /** Two stores differ at most inside one place. */
  ghost predicate OnlyChanges(before: Store, after: Store, place: Place) {
    forall p: Path :: !InPlace(p, place) ==>
      (p in after <==> p in before) && (p in after ==> after[p] == before[p])
  }

  ghost predicate OnlyRoles(before: Store, after: Store) {
    forall p: Path :: !(p.At? && p.place == Failure) ==>
      (p in after <==> p in before) && (p in after ==> after[p] == before[p])
  }

  /** Two stores agree everywhere but at one path. */
  ghost predicate SameBut(before: Store, after: Store, path: Path) {
    forall p: Path :: p != path ==> (p in after <==> p in before) && (p in after ==> after[p] == before[p])
  }

  /** Keeping one role leaves every other role as it was, at its source and where it is kept. */
  lemma RoleFrame(before: Store, after: Store, changed: Role, place: Place, env: Environment)
    requires SameBut(before, after, At(Failure, changed)) && place != Failure
    ensures forall role :: HoldsRole(after, place, env, role) <==> HoldsRole(before, place, env, role)
    ensures forall role :: role != changed ==>
              (HoldsRole(after, Failure, env, role) <==> HoldsRole(before, Failure, env, role))
    ensures forall role, reached :: role != changed ==>
              (KeptRole(after, env, role, reached) <==> KeptRole(before, env, role, reached))
    ensures forall role :: role != changed ==> (At(Failure, role) in after <==> At(Failure, role) in before)
  {
    hide Measured, MeasuredBytes;
  }

  lemma RolesOnly(start: Store, before: Store, after: Store, changed: Role)
    requires OnlyRoles(start, before) && SameBut(before, after, At(Failure, changed))
    ensures OnlyRoles(start, after)
  {}

  lemma NotKept(files: Store, env: Environment)
    requires forall role :: At(Failure, role) !in files
    ensures forall role :: KeptRole(files, env, role, false)
  {}

  /** The measured files among the kept ones once retention has started on them. */
  predicate RolesKept(files: Store, env: Environment) {
    && KeptRole(files, env, MetricsFile, RoleReached(env, MetricsFile))
    && KeptRole(files, env, StdoutFile, RoleReached(env, StdoutFile))
    && KeptRole(files, env, StderrFile, RoleReached(env, StderrFile))
  }

  /** Exactly the measured files that retention reached are kept. */
  predicate KeptFaithfully(files: Store, env: Environment) {
    && KeptRole(files, env, MetricsFile, Reached(env, MetricsFile))
    && KeptRole(files, env, StdoutFile, Reached(env, StdoutFile))
    && KeptRole(files, env, StderrFile, Reached(env, StderrFile))
  }

  /** Every kept file is byte-identical to the measured one. */
  ghost predicate KeptIdentical(files: Store, env: Environment) {
    forall role :: At(Failure, role) in files ==> files[At(Failure, role)] == Regular(MeasuredBytes(env, role))
  }

  /** What was kept is byte-identical exactly when no write that retention reached was cut short. */
  lemma KeptIdenticalIff(files: Store, env: Environment)
    requires KeptFaithfully(files, env)
    ensures KeptIdentical(files, env) <==> forall role :: !CutShort(env, role)
  {
    hide Measured, MeasuredBytes, Reached;
    forall role ensures KeptRole(files, env, role, Reached(env, role)) {
      match role case MetricsFile => case StdoutFile => case StderrFile =>
    }
    if role :| CutShort(env, role) {
      assert At(Failure, role) in files;
    } else {
      forall role | At(Failure, role) in files
        ensures files[At(Failure, role)] == Regular(MeasuredBytes(env, role))
      {
        assert !CutShort(env, role) && KeptRole(files, env, role, Reached(env, role));
      }
    }
  }

  /** The whole evidence of a failure is kept: the measured files, the input and both streams. */
  ghost predicate EvidenceComplete(files: Store, env: Environment, input: Bytes, stdout: Bytes, stderr: Bytes) {
    && HoldsMeasured(files, Failure, env)
    && FailureInput in files && files[FailureInput] == Regular(input)
    && FailureDockerStdout in files && files[FailureDockerStdout] == Regular(stdout)
    && FailureDockerStderr in files && files[FailureDockerStderr] == Regular(stderr)
  }

  /** Nothing is kept, as it should be, when retention never came to the measured files or the
      container never ran. */
  lemma KeptNothing(files: Store, env: Environment)
    requires forall p :: InPlace(p, Failure) ==> p !in files
    requires env.fails(MakeFailure).Some? || KeepFails(env, FailureInput) || !Generates(env)
    ensures KeptFaithfully(files, env)
  {
    hide RoleReached;
    assert forall role :: InPlace(At(Failure, role), Failure);
  }

  lemma KeptSoFar(files: Store, env: Environment)
    requires RolesKept(files, env) && env.fails(MakeFailure).None? && !KeepFails(env, FailureInput)
    ensures KeptFaithfully(files, env)
  {
    hide KeptRole, RoleReached;
  }

  lemma OtherFile(files: Store, path: Path, entry: Entry, env: Environment)
    requires !path.At?
    ensures forall place :: HoldsMeasured(files[path := entry], place, env) <==> HoldsMeasured(files, place, env)
    ensures KeptFaithfully(files[path := entry], env) <==> KeptFaithfully(files, env)
    ensures RolesKept(files[path := entry], env) <==> RolesKept(files, env)
  {
    hide Measured, MeasuredBytes, RoleReached, Reached;
  }

  /** Removing the evidence directory touches neither the sample nor the kept failure files. */
  lemma OutsideEvidence(before: Store, after: Store, env: Environment)
    requires OnlyChanges(before, after, Evidence)
    ensures HoldsMeasured(after, Sample, env) <==> HoldsMeasured(before, Sample, env)
    ensures KeptFaithfully(after, env) <==> KeptFaithfully(before, env)
    ensures forall input, stdout, stderr :: EvidenceComplete(before, env, input, stdout, stderr) ==>
              EvidenceComplete(after, env, input, stdout, stderr)
    ensures (forall p :: InPlace(p, Failure) ==> p !in before) ==> (forall p :: InPlace(p, Failure) ==> p !in after)
  {
    hide Measured, MeasuredBytes, Reached;
    forall role, place | place != Evidence
      ensures At(place, role) in after <==> At(place, role) in before
      ensures At(place, role) in after ==> after[At(place, role)] == before[At(place, role)]
    {
      assert !InPlace(At(place, role), Evidence);
    }
    assert !InPlace(FailureInput, Evidence) && !InPlace(FailureDockerStdout, Evidence);
    assert !InPlace(FailureDockerStderr, Evidence);
  }

  lemma OutsideFailure(before: Store, after: Store, env: Environment)
    requires OnlyChanges(before, after, Failure)
    ensures HoldsMeasured(after, Sample, env) <==> HoldsMeasured(before, Sample, env)
  {
    hide Measured, MeasuredBytes;
    assert forall role :: !InPlace(At(Sample, role), Failure);
  }

  class Run {
    var files: Store
    var sampleExists: bool
    var failureExists: bool
    var containerPresent: bool
    var workPresent: bool
    var evidencePresent: bool
    var attempts: seq<CleanupRole>
    var retentions: nat
    var manifest: Option<Manifest>

    /** Both temporary directories have just been made. */
    constructor (sampleExists: bool, failureExists: bool)
      ensures Ready() && this.sampleExists == sampleExists && this.failureExists == failureExists
      ensures attempts == [] && retentions == 0 && manifest.None? && files == map[]
    {
      files := map[];
      this.sampleExists, this.failureExists := sampleExists, failureExists;
      containerPresent, workPresent, evidencePresent := false, true, true;
      attempts, retentions, manifest := [], 0, None;
    }

    ghost predicate Ready()
      reads this
    {
      && workPresent && evidencePresent && !containerPresent
      && (forall role :: At(Evidence, role) !in files)
      && (!failureExists ==> forall p :: InPlace(p, Failure) ==> p !in files)
    }

    /** `shutil.copyfile`, which may stop after writing something. */
    method Copy(env: Environment, source: Path, destination: Path, step: Step) returns (raised: Option<string>)
      requires IsRegular(files, source)
      modifies this`files
      ensures raised == env.fails(step)
      ensures files == old(files)[destination :=
                Regular(if raised.Some? then env.partial(destination) else old(files[source].content))]
    {
      raised := env.fails(step);
      if raised.Some? {
        files := files[destination := Regular(env.partial(destination))];
      } else {
        files := files[destination := files[source]];
      }
    }

    /** The container run and the files it leaves. */
    method RunContainer(env: Environment)
      requires Ready()
      modifies this`files, this`containerPresent
      ensures containerPresent == env.containerLeft
      ensures OnlyChanges(old(files), files, Evidence)
      ensures forall role :: At(Evidence, role) in files <==> role in env.written
      ensures forall role :: role in env.written ==> files[At(Evidence, role)] == env.written[role]
    {
      var left := map role | role in env.written :: At(Evidence, role);
      var added := map p: Path | p in left.Values :: env.written[p.role];
      assert forall role :: At(Evidence, role) in added <==> role in env.written by {
        forall role | role in env.written ensures At(Evidence, role) in added {
          assert left[role] == At(Evidence, role);
        }
      }
      files := files + added;
      containerPresent := env.containerLeft;
    }

    /** Copies and describes the sample, after every check has passed. */
    method KeepSample(env: Environment, exitCode: Json, returncode: int)
      returns (raised: Option<Cause>, sample: Option<SampleRecord>)
      requires HoldsMeasured(files, Evidence, env) && AllMeasured(env)
      modifies this`files, this`sampleExists
      ensures raised == SampleFailure(env, old(sampleExists)) && (raised.Some? ==> raised.value.Raised?)
      ensures sample.Some? <==> raised.None?
      ensures raised.None? ==> HoldsMeasured(files, Sample, env)
      ensures sample.Some? ==>
                sample.value == SampleRecord(env.inputAfter, exitCode, returncode, MeasuredDigests(env),
                                             env.workEntries, false, false, false)
      ensures OnlyChanges(old(files), files, Sample)
    {
      raised, sample := None, None;
      if env.fails(AnalyzeAfter).Some? { return Some(Raised(env.fails(AnalyzeAfter).value)), None; }
      if env.fails(ListWork).Some? { return Some(Raised(env.fails(ListWork).value)), None; }
      if env.fails(MakeSample).Some? { return Some(Raised(env.fails(MakeSample).value)), None; }
      if sampleExists { return Some(Raised("sample directory exists")), None; }
      sampleExists := true;
      var stopped := Copy(env, At(Evidence, MetricsFile), At(Sample, MetricsFile), CopySample(MetricsFile));
      if stopped.Some? { return Some(Raised(stopped.value)), None; }
      stopped := Copy(env, At(Evidence, StdoutFile), At(Sample, StdoutFile), CopySample(StdoutFile));
      if stopped.Some? { return Some(Raised(stopped.value)), None; }
      stopped := Copy(env, At(Evidence, StderrFile), At(Sample, StderrFile), CopySample(StderrFile));
      if stopped.Some? { return Some(Raised(stopped.value)), None; }
      if env.fails(DescribeSample(MetricsFile)).Some? {
        return Some(Raised(env.fails(DescribeSample(MetricsFile)).value)), None;
      }
      if env.fails(DescribeSample(StdoutFile)).Some? {
        return Some(Raised(env.fails(DescribeSample(StdoutFile)).value)), None;
      }
      if env.fails(DescribeSample(StderrFile)).Some? {
        return Some(Raised(env.fails(DescribeSample(StderrFile)).value)), None;
      }
      var digests := map[
        MetricsFile := env.sha256(files[At(Sample, MetricsFile)].content),
        StdoutFile := env.sha256(files[At(Sample, StdoutFile)].content),
        StderrFile := env.sha256(files[At(Sample, StderrFile)].content)];
      sample := Some(SampleRecord(env.inputAfter, exitCode, returncode, digests, env.workEntries, false, false, false));
    }

    /** The `try` block: everything up to the sample; the first thing that goes wrong ends it. */
    method Operate(env: Environment)
      returns (error: Option<Cause>, generated: Option<Bytes>, sample: Option<SampleRecord>)
      requires Ready()
      modifies this`files, this`containerPresent, this`sampleExists
      ensures error == OperationFailure(env, old(sampleExists))
      ensures generated == if Generates(env) then Some(env.input) else None
      ensures error.Some? ==> !error.value.Cleanup?
      ensures sample.Some? <==> error.None?
      ensures sample.Some? ==> sample.value == DraftSample(env)
      ensures error.None? ==> HoldsMeasured(files, Sample, env)
      ensures HoldsMeasured(files, Evidence, env)
      ensures containerPresent == LeavesContainer(env)
      ensures forall p :: InPlace(p, Failure) ==>
                (p in files <==> p in old(files)) && (p in files ==> files[p] == old(files[p]))
    {
      error, generated, sample := None, None, None;
      if env.fails(Generate).Some? { return Some(Raised(env.fails(Generate).value)), None, None; }
      if env.fails(ReadInput).Some? { return Some(Raised(env.fails(ReadInput).value)), None, None; }
      generated := Some(env.input);
      if !env.inputMatches { return Some(Classified(GeneratedInputDrift)), generated, None; }
      RunContainer(env);
      if env.fails(RunDocker).Some? { return Some(Raised(env.fails(RunDocker).value)), generated, None; }
      if env.docker.Expired? { return Some(Classified(HostDeadlineExceeded)), generated, None; }
      if env.docker.NoWrapper? { return Some(Classified(DockerWrapperFailure)), generated, None; }
      if env.docker.stdout != [] || env.docker.stderr != [] {
        return Some(Classified(DockerWrapperStreamPollution)), generated, None;
      }
      if !IsRegular(files, At(Evidence, MetricsFile)) || !IsRegular(files, At(Evidence, StdoutFile))
         || !IsRegular(files, At(Evidence, StderrFile)) {
        return Some(Classified(MeasurementArtifactMissing)), generated, None;
      }
      if env.fails(ReadMetrics).Some? { return Some(Classified(MeasurementMetricsInvalid)), generated, None; }
      if env.fails(DecodeMetrics).Some? { return Some(Raised(env.fails(DecodeMetrics).value)), generated, None; }
      var parsed := env.parse(files[At(Evidence, MetricsFile)].content);
      if !parsed.Object? { return Some(Classified(MeasurementMetricsInvalid)), generated, None; }
      error, sample := CheckAndKeep(env, parsed.metrics);
    }

    /** The outcome checks on parsed metrics, and then the sample. */
    method CheckAndKeep(env: Environment, m: Metrics) returns (error: Option<Cause>, sample: Option<SampleRecord>)
      requires HoldsMeasured(files, Evidence, env) && AllMeasured(env)
      requires env.docker.Finished? && InputFailure(env).None?
      requires env.fails(ReadMetrics).None? && env.fails(DecodeMetrics).None?
      requires env.parse(MeasuredBytes(env, MetricsFile)) == Object(m)
      modifies this`files, this`sampleExists
      ensures error == OperationFailure(env, old(sampleExists))
      ensures error.Some? ==> !error.value.Cleanup?
      ensures sample.Some? <==> error.None?
      ensures sample.Some? ==> sample.value == DraftSample(env)
      ensures error.None? ==> HoldsMeasured(files, Sample, env)
      ensures OnlyChanges(old(files), files, Sample)
    {
      hide SampleFailure;
      error, sample := None, None;
      var wrapper;
      if AsInt(m.exitCode).Some? && m.signal.Null? {
        wrapper := AsInt(m.exitCode).value;
      } else if m.exitCode.Null? && AsInt(m.signal).Some? && AsInt(m.signal).value > 0 {
        wrapper := Min(255, 128 + AsInt(m.signal).value);
      } else {
        return Some(Classified(MeasurementOutcomeInvalid)), None;
      }
      if env.docker.returncode != wrapper { return Some(Classified(DockerWrapperExitMismatch)), None; }
      if !m.signal.Null? { return Some(Classified(OracleSignal)), None; }
      if AsInt(m.exitCode) != Some(0) { return Some(Classified(OracleNonzeroExit)), None; }
      if env.fails(HashStdout).Some? { return Some(Raised(env.fails(HashStdout).value)), None; }
      if env.sha256(files[At(Evidence, StdoutFile)].content) != env.expectedStdout {
        return Some(Classified(StdoutMismatch)), None;
      }
      if env.fails(HashStderr).Some? { return Some(Raised(env.fails(HashStderr).value)), None; }
      if env.sha256(files[At(Evidence, StderrFile)].content) != env.expectedStderr {
        return Some(Classified(StderrMismatch)), None;
      }
      error, sample := KeepSample(env, m.exitCode, env.docker.returncode);
    }

    /** `cleanup_container`: absence is confirmed by a listing, before or after the removal. */
    method CleanupContainer(env: Environment) returns (raised: Option<string>)
      requires containerPresent == LeavesContainer(env)
      modifies this`containerPresent, this`attempts
      ensures attempts == old(attempts) + [Container]
      ensures raised == ContainerFailure(env)
      ensures raised.None? ==> !containerPresent
    {
      attempts := attempts + [Container];
      if env.fails(ListBefore).Some? { return env.fails(ListBefore); }
      if !containerPresent { return None; }
      containerPresent := env.lingers(RemoveContainer);
      if env.fails(RemoveContainer).Some? { return env.fails(RemoveContainer); }
      if env.fails(ListAfter).Some? { return env.fails(ListAfter); }
      if containerPresent { return Some("container survived cleanup"); }
      if env.removeStatus != 0 { return Some("container cleanup failed"); }
      return None;
    }

    /** Keeps one measured file, if it is there, under the failure directory. */
    method KeepRole(env: Environment, place: Place, role: Role) returns (raised: Option<string>)
      requires place != Failure && HoldsRole(files, place, env, role) && At(Failure, role) !in files
      modifies this`files
      ensures SameBut(old(files), files, At(Failure, role))
      ensures raised.Some? <==> RoleFails(env, role)
      ensures KeptRole(files, env, role, true)
      ensures raised.None? ==> HoldsRole(files, Failure, env, role)
    {
      hide Measured, MeasuredBytes;
      raised := None;
      if IsRegular(files, At(place, role)) {
        raised := Copy(env, At(place, role), At(Failure, role), WriteFailure(At(Failure, role)));
        if raised.None? {
          raised := env.fails(DescribeFailure(At(Failure, role)));
        }
      }
    }

    /** Writes one whole file under the failure directory. */
    method KeepBytes(env: Environment, path: Path, content: Bytes) returns (raised: Option<string>)
      modifies this`files
      ensures raised.Some? <==> KeepFails(env, path)
      ensures files == old(files)[path :=
                Regular(if env.fails(WriteFailure(path)).Some? then env.partial(path) else content)]
    {
      raised := env.fails(WriteFailure(path));
      if raised.Some? {
        files := files[path := Regular(env.partial(path))];
      } else {
        files := files[path := Regular(content)];
        raised := env.fails(DescribeFailure(path));
      }
    }

    /** Keeps the three measured files from `place`, stopping at the first exception. */
    method KeepRoles(env: Environment, place: Place) returns (raised: Option<string>)
      requires place != Failure && HoldsMeasured(files, place, env)
      requires forall role :: At(Failure, role) !in files
      modifies this`files
      ensures OnlyRoles(old(files), files)
      ensures raised.Some? <==> RolesFail(env)
      ensures raised.None? ==> HoldsMeasured(files, Failure, env)
      ensures RolesKept(files, env)
    {
      hide HoldsRole, KeptRole, SameBut, RoleFails, RolesFail;
      RolesFailIff(env);
      ghost var start := files;
      NotKept(files, env);
      assert At(Failure, MetricsFile) !in files && At(Failure, StdoutFile) !in files
             && At(Failure, StderrFile) !in files;
      raised := KeepRole(env, place, MetricsFile);
      ghost var one := files;
      RoleFrame(start, one, MetricsFile, place, env);
      RolesOnly(start, start, one, MetricsFile);
      if raised.Some? { return; }
      raised := KeepRole(env, place, StdoutFile);
      ghost var two := files;
      RoleFrame(one, two, StdoutFile, place, env);
      RolesOnly(start, one, two, StdoutFile);
      if raised.Some? { return; }
      raised := KeepRole(env, place, StderrFile);
      RoleFrame(two, files, StderrFile, place, env);
      RolesOnly(start, two, files, StderrFile);
    }

    /** `_failure_artifacts`: keeps the evidence of a failure from `place`. A kept measured file
        differs from its source only where the copy itself was cut short. */
    method RetainFailure(env: Environment, place: Place, input: Bytes, stdout: Bytes, stderr: Bytes)
      returns (raised: Option<string>)
      requires place != Failure && HoldsMeasured(files, place, env)
      requires !failureExists ==> forall p :: InPlace(p, Failure) ==> p !in files
      modifies this`files, this`failureExists, this`retentions
      ensures retentions == old(retentions) + 1
      ensures OnlyChanges(old(files), files, Failure)
      ensures raised.Some? <==> RetentionFails(env, old(failureExists))
      ensures raised.None? ==> EvidenceComplete(files, env, input, stdout, stderr)
      ensures !old(failureExists) ==>
                KeptFaithfully(files, env)
    {
      hide HoldsMeasured, KeptFaithfully, RolesKept, RolesFail;
      retentions := retentions + 1;
      raised := env.fails(MakeFailure);
      if raised.Some? {
        if !failureExists { KeptNothing(files, env); }
        return;
      }
      if failureExists { return Some("failure directory exists"); }
      failureExists := true;
      if KeepFails(env, FailureInput) { KeptNothing(files, env); }
      ghost var entry := Regular(if env.fails(WriteFailure(FailureInput)).Some?
          then env.partial(FailureInput) else input);
      OtherFile(files, FailureInput, entry, env);
      assert forall role :: InPlace(At(Failure, role), Failure);
      raised := KeepBytes(env, FailureInput, input);
      if raised.Some? { return; }
      raised := KeepRoles(env, place);
      KeptSoFar(files, env);
      if raised.Some? { return; }
      raised := KeepStreams(env, stdout, stderr);
    }

    /** The two Docker streams, after the measured files. */
    method KeepStreams(env: Environment, stdout: Bytes, stderr: Bytes) returns (raised: Option<string>)
      modifies this`files
      ensures forall p: Path :: p != FailureDockerStdout && p != FailureDockerStderr ==>
                (p in files <==> p in old(files)) && (p in files ==> files[p] == old(files)[p])
      ensures HoldsMeasured(files, Failure, env) <==> HoldsMeasured(old(files), Failure, env)
      ensures KeptFaithfully(files, env) <==> KeptFaithfully(old(files), env)
      ensures raised.Some? <==> KeepFails(env, FailureDockerStdout) || KeepFails(env, FailureDockerStderr)
      ensures raised.None? ==>
                && FailureDockerStdout in files && files[FailureDockerStdout] == Regular(stdout)
                && FailureDockerStderr in files && files[FailureDockerStderr] == Regular(stderr)
    {
      hide HoldsMeasured, KeptFaithfully;
      OtherFile(files, FailureDockerStdout, Regular(stdout), env);
      OtherFile(files, FailureDockerStdout, Regular(env.partial(FailureDockerStdout)), env);
      raised := KeepBytes(env, FailureDockerStdout, stdout);
      if raised.Some? { return; }
      OtherFile(files, FailureDockerStderr, Regular(stderr), env);
      OtherFile(files, FailureDockerStderr, Regular(env.partial(FailureDockerStderr)), env);
      raised := KeepBytes(env, FailureDockerStderr, stderr);
    }

    /** Both temporary directories are removed, the second even if the first fails. */
    method RemoveDirectories(env: Environment) returns (errors: seq<CleanupError>)
      requires workPresent && evidencePresent
      modifies this`workPresent, this`evidencePresent, this`files, this`attempts
      ensures attempts == old(attempts) + [WorkDirectory, EvidenceDirectory]
      ensures errors ==
        (if env.fails(RemoveWork).Some? then [CleanupError(WorkDirectory, env.fails(RemoveWork).value)] else [])
        + (if env.fails(RemoveEvidence).Some? then [CleanupError(EvidenceDirectory, env.fails(RemoveEvidence).value)]
           else [])
      ensures workPresent == (env.fails(RemoveWork).Some? && env.lingers(RemoveWork))
      ensures evidencePresent == (env.fails(RemoveEvidence).Some? && env.lingers(RemoveEvidence))
      ensures OnlyChanges(old(files), files, Evidence)
    {
      errors := [];
      attempts := attempts + [WorkDirectory];
      if env.fails(RemoveWork).Some? {
        workPresent := env.lingers(RemoveWork);
        errors := errors + [CleanupError(WorkDirectory, env.fails(RemoveWork).value)];
      } else {
        workPresent := false;
      }
      attempts := attempts + [EvidenceDirectory];
      if env.fails(RemoveEvidence).Some? {
        evidencePresent := env.lingers(RemoveEvidence);
        errors := errors + [CleanupError(EvidenceDirectory, env.fails(RemoveEvidence).value)];
      } else {
        evidencePresent := false;
      }
      if !evidencePresent {
        files := map p | p in files && !InPlace(p, Evidence) :: files[p];
      }
    }

    method WriteFailureManifest(env: Environment, document: Manifest) returns (raised: Option<string>)
      modifies this`manifest
      ensures raised == env.fails(WriteManifest)
      ensures manifest == if raised.None? then Some(document) else old(manifest)
    {
      raised := env.fails(WriteManifest);
      if raised.None? {
        manifest := Some(document);
      }
    }

    /** Evidence is kept once: complete, or with the reason it is not. */
    method Retain(env: Environment, place: Place) returns (complete: bool, errors: seq<string>)
      requires place != Failure && HoldsMeasured(files, place, env) && retentions == 0
      requires !failureExists ==> forall p :: InPlace(p, Failure) ==> p !in files
      modifies this`files, this`failureExists, this`retentions
      ensures retentions == 1 && OnlyChanges(old(files), files, Failure)
      ensures complete <==> !RetentionFails(env, old(failureExists))
      ensures complete <==> errors == []
      ensures complete ==> EvidenceComplete(files, env, env.input, DockerStdout(env), DockerStderr(env))
      ensures !old(failureExists) ==> KeptFaithfully(files, env)
    {
      hide HoldsMeasured, KeptFaithfully, EvidenceComplete, OnlyChanges, DockerStdout, DockerStderr, RetentionFails;
      var raised := RetainFailure(env, place, env.input, DockerStdout(env), DockerStderr(env));
      complete := raised.None?;
      errors := if complete then [] else [raised.value];
    }

    /** Keeps the evidence of a failure if there is one to keep, and then removes both
        directories whatever keeping it did. */
    method KeepThenRemove(env: Environment, keep: bool)
      returns (failureRoot: bool, retention: seq<string>, errors: seq<CleanupError>)
      requires workPresent && evidencePresent && retentions == 0 && HoldsMeasured(files, Evidence, env)
      requires !failureExists ==> forall p :: InPlace(p, Failure) ==> p !in files
      modifies this`files, this`failureExists, this`retentions, this`workPresent, this`evidencePresent, this`attempts
      ensures retentions == if keep then 1 else 0
      ensures attempts == old(attempts) + [WorkDirectory, EvidenceDirectory]
      ensures errors ==
        (if env.fails(RemoveWork).Some? then [CleanupError(WorkDirectory, env.fails(RemoveWork).value)] else [])
        + (if env.fails(RemoveEvidence).Some? then [CleanupError(EvidenceDirectory, env.fails(RemoveEvidence).value)]
           else [])
      ensures workPresent == (env.fails(RemoveWork).Some? && env.lingers(RemoveWork))
      ensures evidencePresent == (env.fails(RemoveEvidence).Some? && env.lingers(RemoveEvidence))
      ensures failureRoot <==> keep && !RetentionFails(env, old(failureExists))
      ensures failureRoot || !keep <==> retention == []
      ensures failureRoot ==> EvidenceComplete(files, env, env.input, DockerStdout(env), DockerStderr(env))
      ensures keep && !old(failureExists) ==> KeptFaithfully(files, env)
      ensures HoldsMeasured(files, Sample, env) <==> old(HoldsMeasured(files, Sample, env))
      ensures !keep ==> failureExists == old(failureExists)
      ensures !keep && !failureExists ==> forall p :: InPlace(p, Failure) ==> p !in files
    {
      hide DockerStdout, DockerStderr, KeptFaithfully, HoldsMeasured, EvidenceComplete, OnlyChanges, InPlace,
           RetentionFails;
      failureRoot, retention := false, [];
      if keep {
        ghost var before := files;
        failureRoot, retention := Retain(env, Evidence);
        OutsideFailure(before, files, env);
      }
      ghost var kept := files;
      errors := RemoveDirectories(env);
      OutsideEvidence(kept, files, env);
    }

    /** The run up to the removal of the temporary directories; a failure seen by then has its
        evidence kept before the directories go. */
    method OperateAndClean(env: Environment)
      returns (effective: Option<Cause>, kind: FailureClass, generated: bool, sample: Option<SampleRecord>,
               containerRemoved: bool, cleanupErrors: seq<CleanupError>, failureRoot: bool, retention: seq<string>)
      requires Ready() && attempts == [] && retentions == 0
      modifies this`files, this`containerPresent, this`sampleExists, this`failureExists, this`attempts,
               this`retentions, this`workPresent, this`evidencePresent
      ensures attempts == [Container, WorkDirectory, EvidenceDirectory]
      ensures effective == EarlyCause(env, old(sampleExists)) && cleanupErrors == CleanupErrors(env)
      ensures effective.Some? ==> kind == CauseClass(effective.value)
      ensures generated == Generates(env)
      ensures containerRemoved <==> ContainerFailure(env).None?
      ensures containerRemoved ==> !containerPresent
      ensures workPresent == (env.fails(RemoveWork).Some? && env.lingers(RemoveWork))
      ensures evidencePresent == (env.fails(RemoveEvidence).Some? && env.lingers(RemoveEvidence))
      ensures retentions == if effective.Some? && generated then 1 else 0
      ensures failureRoot <==> effective.Some? && generated && !RetentionFails(env, old(failureExists))
      ensures failureRoot || !(effective.Some? && generated) <==> retention == []
      ensures failureRoot ==> EvidenceComplete(files, env, env.input, DockerStdout(env), DockerStderr(env))
      ensures effective.Some? && !old(failureExists) ==> KeptFaithfully(files, env)
      ensures effective.None? ==>
                && HoldsMeasured(files, Sample, env) && failureExists == old(failureExists)
                && (!failureExists ==> forall p :: InPlace(p, Failure) ==> p !in files)
                && generated && sample == Some(DraftSample(env))
    {
      hide OperationFailure, ContainerFailure, DockerStdout, DockerStderr, KeptFaithfully, HoldsMeasured,
           EvidenceComplete, DraftSample, OnlyChanges, LeavesContainer, InPlace, RetentionFails;
      var operationError, input;
      operationError, input, sample := Operate(env);
      generated := input.Some?;

      containerRemoved, cleanupErrors := false, [];
      var raised := CleanupContainer(env);
      if raised.None? {
        containerRemoved := true;
      } else {
        cleanupErrors := cleanupErrors + [CleanupError(Container, raised.value)];
      }

      effective, kind := operationError, CaptureFailure;
      if operationError.Some? && operationError.value.Classified? {
        kind := operationError.value.kind;
      }
      if effective.None? && cleanupErrors != [] {
        effective := Some(Cleanup(cleanupErrors[0]));
        kind := ContainerCleanupFailure;
      }

      var removal;
      failureRoot, retention, removal := KeepThenRemove(env, effective.Some? && generated);
      cleanupErrors := cleanupErrors + removal;
      assert cleanupErrors == CleanupErrors(env);
      GeneratedIfDone(env, old(sampleExists));
      if !generated && !failureExists { KeptNothing(files, env); }
    }

    /** `capture_profile`, from the point where both temporary directories exist. */
    method CaptureProfile(env: Environment) returns (outcome: Outcome)
      requires Ready() && manifest.None? && attempts == [] && retentions == 0
      modifies this
      // Every cleanup is attempted, once, in order.
      ensures attempts == [Container, WorkDirectory, EvidenceDirectory]
      // The outcome: the first operation error is never masked, a cleanup error only fills in.
      ensures outcome.Returned? <==> ExpectedCause(env, old(sampleExists)).None?
      ensures outcome.CaptureError? ==> ExpectedCause(env, old(sampleExists)) == Some(outcome.cause)
      ensures outcome.CaptureError? ==> outcome.cleanup == CleanupErrors(env)
      // A sample is returned only when nothing remains, with byte-identical copies kept.
      ensures outcome.Returned? ==> !containerPresent && !workPresent && !evidencePresent
      ensures outcome.Returned? ==>
                && HoldsMeasured(files, Sample, env)
                && outcome.sample ==
                   DraftSample(env).(workRemoved := true, evidenceRemoved := true, containerRemoved := true)
      // Evidence of a failure is kept at most once, and exactly when there is an input to keep.
      ensures retentions == if outcome.CaptureError? && Generates(env) then 1 else 0
      ensures outcome.CaptureError? && !old(failureExists) ==>
                KeptFaithfully(files, env) && (KeptIdentical(files, env) <==> forall role :: !CutShort(env, role))
      // The manifest is written exactly when keeping and writing succeed, over complete,
      // byte-identical evidence, and tells the final state.
      ensures manifest.Some? <==>
                && outcome.CaptureError? && Generates(env)
                && !RetentionFails(env, old(failureExists)) && env.fails(WriteManifest).None?
      ensures manifest.Some? ==>
                && EvidenceComplete(files, env, env.input, DockerStdout(env), DockerStderr(env))
                && manifest.value == Manifest(CauseClass(outcome.cause), outcome.cause,
                                              outcome.cause == Classified(HostDeadlineExceeded),
                                              !workPresent, !evidencePresent, ContainerFailure(env).None?,
                                              CleanupErrors(env))
                && (manifest.value.containerRemoved ==> !containerPresent)
      ensures outcome.CaptureError? ==>
                && (outcome.note == EvidenceKept <==> manifest.Some?)
                && (outcome.note == EvidenceNotRetained <==> outcome.retention != [])
                && (outcome.note == NothingGenerated <==> !Generates(env))
    {
      hide EarlyCause, ContainerFailure, Generates, DockerStdout, DockerStderr, KeptFaithfully, HoldsMeasured,
           EvidenceComplete, DraftSample, OnlyChanges, InPlace, RetentionFails;
      var effective, kind, generated, sample, containerRemoved, cleanupErrors, failureRoot, retention :=
        OperateAndClean(env);
      LateCause(env, old(sampleExists));

      if effective.None? && cleanupErrors != [] {
        effective := Some(Cleanup(cleanupErrors[0]));
        kind := TemporaryCleanupFailure;
        if generated {
          failureRoot, retention := Retain(env, Sample);
        }
      }

      if effective.Some? {
        var note := if generated then EvidenceNotRetained else NothingGenerated;
        if generated && failureRoot {
          var raised := WriteFailureManifest(env, Manifest(kind, effective.value,
            effective.value == Classified(HostDeadlineExceeded),
            !workPresent, !evidencePresent, containerRemoved, cleanupErrors));
          if raised.Some? { retention := retention + [raised.value]; } else { note := EvidenceKept; }
        }
        if !old(failureExists) { KeptIdenticalIff(files, env); }
        return CaptureError(effective.value, retention, cleanupErrors, note);
      }
      return Returned(sample.value.(workRemoved := !workPresent, evidenceRemoved := !evidencePresent,
                                    containerRemoved := containerRemoved));
    }
  }

  /** A run past its deadline whose measured output is copied onto a full disk. */
  const FULL_DISK := Environment(
    step => if step == WriteFailure(At(Failure, StdoutFile)) then Some("no space left") else None,
    _ => "", _ => false, "", true, Expired("", ""), map[StdoutFile := Regular("partial report")], false,
    _ => Unparsable, content => content, "", "", "", [], 0)

  /** That run leaves a kept file that differs from the measured one, and no manifest. */
  method FullDiskRun() returns (run: Run, outcome: Outcome)
    ensures outcome.CaptureError? && outcome.cause == Classified(HostDeadlineExceeded) && run.manifest.None?
    ensures At(Failure, StdoutFile) in run.files && run.files[At(Failure, StdoutFile)] == Regular("")
    ensures Measured(FULL_DISK, StdoutFile) && MeasuredBytes(FULL_DISK, StdoutFile) == "partial report"
  {
    hide HoldsMeasured, OnlyChanges, EvidenceComplete, KeptIdentical, DraftSample;
    run := new Run(false, false);
    assert KeepFails(FULL_DISK, At(Failure, StdoutFile)) && RoleFails(FULL_DISK, StdoutFile);
    assert Reached(FULL_DISK, StdoutFile);
    outcome := run.CaptureProfile(FULL_DISK);
  }
}
