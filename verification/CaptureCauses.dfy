/** What a capture reports, told from the outside alone: for every failure class, and for every
    exception, exactly the environments in which it is the reported one. */
module CaptureCauses {
  import opened Wrappers
  import opened Capture

  // ----- How far a run gets -----

  /** The container is started: there is an input, and it is the contract's. */
  predicate Launched(env: Environment) {
    env.fails(Generate).None? && env.fails(ReadInput).None? && env.inputMatches
  }

  /** The container run ended by itself and kept quiet. */
  predicate Ran(env: Environment) {
    && Launched(env) && env.fails(RunDocker).None?
    && env.docker.Finished? && env.docker.stdout == [] && env.docker.stderr == []
  }

  predicate Wrote(env: Environment, role: Role) {
    role in env.written && env.written[role].Regular?
  }

  predicate Complete(env: Environment) {
    Ran(env) && forall role :: Wrote(env, role)
  }

  /** The metrics file, as JSON. */
  function MetricsText(env: Environment): Parsed
    requires Complete(env)
  {
    assert Wrote(env, MetricsFile);
    env.parse(env.written[MetricsFile].content)
  }

  predicate HasMetrics(env: Environment) {
    Complete(env) && env.fails(ReadMetrics).None? && env.fails(DecodeMetrics).None? && MetricsText(env).Object?
  }

  /** A JSON number, or a boolean in its place. */
  predicate IsInt(v: Json, n: int) {
    v == Int(n) || (v == Bool(true) && n == 1) || (v == Bool(false) && n == 0)
  }

  predicate Exited(m: Metrics, code: int) {
    IsInt(m.exitCode, code) && m.signal == Null
  }

  predicate Signaled(m: Metrics, signal: int) {
    m.exitCode == Null && IsInt(m.signal, signal) && signal > 0
  }

  /** The status a wrapper returns for a signal. */
  function SignalStatus(signal: int): int {
    if signal <= 127 then 128 + signal else 255
  }

  /** The program ended with status zero and the wrapper passed it on. */
  predicate Succeeded(env: Environment) {
    HasMetrics(env) && Exited(MetricsText(env).metrics, 0) && env.docker.returncode == 0
  }

  predicate StdoutMatches(env: Environment)
    requires Complete(env)
  {
    assert Wrote(env, StdoutFile);
    env.sha256(env.written[StdoutFile].content) == env.expectedStdout
  }

  predicate StderrMatches(env: Environment)
    requires Complete(env)
  {
    assert Wrote(env, StderrFile);
    env.sha256(env.written[StderrFile].content) == env.expectedStderr
  }

  predicate StdoutPassed(env: Environment) {
    Succeeded(env) && env.fails(HashStdout).None? && StdoutMatches(env)
  }

  /** Every check on the outcome passed. */
  predicate Passed(env: Environment) {
    StdoutPassed(env) && env.fails(HashStderr).None? && StderrMatches(env)
  }

  lemma MeasuredMeans(env: Environment, role: Role)
    ensures Measured(env, role) <==> Launched(env) && Wrote(env, role)
    ensures Measured(env, role) ==> MeasuredBytes(env, role) == env.written[role].content
  {}

  lemma AllWrote(env: Environment)
    ensures (forall role :: Wrote(env, role)) <==>
              Wrote(env, MetricsFile) && Wrote(env, StdoutFile) && Wrote(env, StderrFile)
  {
    hide Wrote;
    if Wrote(env, MetricsFile) && Wrote(env, StdoutFile) && Wrote(env, StderrFile) {
      forall role ensures Wrote(env, role) {
        match role case MetricsFile => case StdoutFile => case StderrFile =>
      }
    }
  }

  lemma WrapperMeans(m: Metrics)
    ensures forall n :: Exited(m, n) ==> WrapperCode(m) == Some(n)
    ensures forall n :: Signaled(m, n) ==> WrapperCode(m) == Some(SignalStatus(n))
    ensures WrapperCode(m).Some? ==> (exists n :: Exited(m, n)) || (exists n :: Signaled(m, n))
  {
    if WrapperCode(m).Some? {
      if m.signal.Null? {
        assert Exited(m, AsInt(m.exitCode).value);
      } else {
        assert Signaled(m, AsInt(m.signal).value);
      }
    }
  }

  // ----- Classes of the operation -----

  /** A container run that did not end well: drift before it, deadline, no wrapper, or output. */
  lemma RunCauses(env: Environment, sampleExists: bool)
    ensures var cause := ExpectedCause(env, sampleExists);
            && (cause == Some(Classified(GeneratedInputDrift)) <==>
                  env.fails(Generate).None? && env.fails(ReadInput).None? && !env.inputMatches)
            && (cause == Some(Classified(HostDeadlineExceeded)) <==>
                  Launched(env) && env.fails(RunDocker).None? && env.docker.Expired?)
            && (cause == Some(Classified(DockerWrapperFailure)) <==>
                  Launched(env) && env.fails(RunDocker).None? && env.docker.NoWrapper?)
            && (cause == Some(Classified(DockerWrapperStreamPollution)) <==>
                  && Launched(env) && env.fails(RunDocker).None? && env.docker.Finished?
                  && (env.docker.stdout != [] || env.docker.stderr != []))
  {
    hide OutcomeFailure, SampleFailure, CleanupErrors, AllMeasured;
    OutcomeKinds(env);
    SampleRaises(env, sampleExists);
  }

  /** The classes of the checks on a finished run. */
  predicate IsCheck(kind: FailureClass) {
    kind in {MeasurementArtifactMissing, MeasurementMetricsInvalid, MeasurementOutcomeInvalid,
             DockerWrapperExitMismatch, OracleSignal, OracleNonzeroExit, StdoutMismatch, StderrMismatch}
  }

  /** What the checks on the outcome can report. */
  lemma OutcomeKinds(env: Environment)
    ensures forall returncode :: var cause := OutcomeFailure(env, returncode);
              cause.Some? && cause.value.Classified? ==> IsCheck(cause.value.kind)
    ensures forall returncode :: var cause := OutcomeFailure(env, returncode);
              cause.Some? ==> !cause.value.Cleanup?
  {
    hide AllMeasured, MeasuredBytes, WrapperCode;
  }

  lemma SampleRaises(env: Environment, sampleExists: bool)
    ensures SampleFailure(env, sampleExists).Some? ==> SampleFailure(env, sampleExists).value.Raised?
  {}

  /** Up to and including the container run, everything went well. */
  lemma RanMeans(env: Environment)
    ensures Ran(env) <==> InputFailure(env).None?
    ensures Ran(env) ==> env.docker.Finished?
  {}

  /** Beyond the run, the reported cause is that of the checks, as far as they find one. */
  lemma CheckedCause(env: Environment, sampleExists: bool, kind: FailureClass)
    requires IsCheck(kind)
    ensures ExpectedCause(env, sampleExists) == Some(Classified(kind)) <==>
            Ran(env) && OutcomeFailure(env, env.docker.returncode) == Some(Classified(kind))
  {
    hide OutcomeFailure, SampleFailure, CleanupErrors;
    RanMeans(env);
    SampleRaises(env, sampleExists);
  }

  /** A missing file, metrics that cannot be read, or that say nothing valid. */
  lemma MeasurementCauses(env: Environment, sampleExists: bool)
    ensures var cause := ExpectedCause(env, sampleExists);
            && (cause == Some(Classified(MeasurementArtifactMissing)) <==>
                  Ran(env) && exists role :: !Wrote(env, role))
            && (cause == Some(Classified(MeasurementMetricsInvalid)) <==>
                  && Complete(env)
                  && (env.fails(ReadMetrics).Some? || (env.fails(DecodeMetrics).None? && !MetricsText(env).Object?)))
            && (cause == Some(Classified(MeasurementOutcomeInvalid)) <==>
                  && HasMetrics(env)
                  && forall n :: !Exited(MetricsText(env).metrics, n) && !Signaled(MetricsText(env).metrics, n))
  {
    hide ExpectedCause, Measured, MeasuredBytes, Wrote, WrapperCode, Exited, Signaled, SignalStatus, Ran, AsInt;
    Checks(env, sampleExists);
    if HasMetrics(env) {
      WrapperMeans(MetricsText(env).metrics);
    }
  }

  /** What the checks read is what the run wrote. */
  lemma Checks(env: Environment, sampleExists: bool)
    ensures forall kind | IsCheck(kind) ::
              ExpectedCause(env, sampleExists) == Some(Classified(kind)) <==>
              Ran(env) && OutcomeFailure(env, env.docker.returncode) == Some(Classified(kind))
    ensures Ran(env) ==> (AllMeasured(env) <==> Complete(env)) && env.docker.Finished?
    ensures Complete(env) ==>
              && Wrote(env, MetricsFile) && MeasuredBytes(env, MetricsFile) == env.written[MetricsFile].content
              && Wrote(env, StdoutFile) && MeasuredBytes(env, StdoutFile) == env.written[StdoutFile].content
              && Wrote(env, StderrFile) && MeasuredBytes(env, StderrFile) == env.written[StderrFile].content
  {
    hide ExpectedCause, OutcomeFailure, Measured, MeasuredBytes, Wrote;
    forall kind | IsCheck(kind)
      ensures ExpectedCause(env, sampleExists) == Some(Classified(kind)) <==>
              Ran(env) && OutcomeFailure(env, env.docker.returncode) == Some(Classified(kind))
    {
      CheckedCause(env, sampleExists, kind);
    }
    AllWrote(env);
    MeasuredMeans(env, MetricsFile);
    MeasuredMeans(env, StdoutFile);
    MeasuredMeans(env, StderrFile);
  }

  /** A wrapper status that does not follow from the metrics, a signal, or a nonzero exit. */
  lemma ExitCauses(env: Environment, sampleExists: bool)
    ensures var cause := ExpectedCause(env, sampleExists);
            && (cause == Some(Classified(DockerWrapperExitMismatch)) <==>
                  && HasMetrics(env)
                  && var m := MetricsText(env).metrics;
                     || (exists n :: Exited(m, n) && env.docker.returncode != n)
                     || (exists n :: Signaled(m, n) && env.docker.returncode != SignalStatus(n)))
            && (cause == Some(Classified(OracleSignal)) <==>
                  && HasMetrics(env)
                  && exists n :: Signaled(MetricsText(env).metrics, n) && env.docker.returncode == SignalStatus(n))
            && (cause == Some(Classified(OracleNonzeroExit)) <==>
                  && HasMetrics(env)
                  && exists n :: Exited(MetricsText(env).metrics, n) && env.docker.returncode == n && n != 0)
  {
    hide ExpectedCause, Measured, MeasuredBytes, Wrote, WrapperCode, SignalStatus, Ran;
    Checks(env, sampleExists);
    if HasMetrics(env) {
      WrapperMeans(MetricsText(env).metrics);
    }
  }

  /** The first of the two streams whose hash is not the expected one. */
  lemma StreamCauses(env: Environment, sampleExists: bool)
    ensures var cause := ExpectedCause(env, sampleExists);
            && (cause == Some(Classified(StdoutMismatch)) <==>
                  Succeeded(env) && env.fails(HashStdout).None? && !StdoutMatches(env))
            && (cause == Some(Classified(StderrMismatch)) <==>
                  StdoutPassed(env) && env.fails(HashStderr).None? && !StderrMatches(env))
  {
    hide ExpectedCause, Measured, MeasuredBytes, Wrote, WrapperCode, SignalStatus, Ran;
    Checks(env, sampleExists);
    if HasMetrics(env) {
      WrapperMeans(MetricsText(env).metrics);
    }
  }

  // ----- Exceptions -----

  /** The operation gets to a step that may raise what nobody catches. */
  predicate Reaches(env: Environment, sampleExists: bool, step: Step) {
    match step
    case Generate => true
    case ReadInput => env.fails(Generate).None?
    case RunDocker => Launched(env)
    case DecodeMetrics => Complete(env) && env.fails(ReadMetrics).None?
    case HashStdout => Succeeded(env)
    case HashStderr => StdoutPassed(env)
    case AnalyzeAfter => Passed(env)
    case ListWork => Passed(env) && env.fails(AnalyzeAfter).None?
    case MakeSample => Passed(env) && env.fails(AnalyzeAfter).None? && env.fails(ListWork).None?
    case CopySample(role) =>
      && HasSampleDirectory(env, sampleExists)
      && (role != MetricsFile ==> env.fails(CopySample(MetricsFile)).None?)
      && (role == StderrFile ==> env.fails(CopySample(StdoutFile)).None?)
    case DescribeSample(role) =>
      && HasSampleDirectory(env, sampleExists) && (forall r :: env.fails(CopySample(r)).None?)
      && (role != MetricsFile ==> env.fails(DescribeSample(MetricsFile)).None?)
      && (role == StderrFile ==> env.fails(DescribeSample(StdoutFile)).None?)
    case _ => false
  }

  predicate HasSampleDirectory(env: Environment, sampleExists: bool) {
    && Passed(env) && env.fails(AnalyzeAfter).None? && env.fails(ListWork).None? && env.fails(MakeSample).None?
    && !sampleExists
  }

  /** The operation gets all the way: every check passed and the sample is kept. */
  predicate Finishes(env: Environment, sampleExists: bool) {
    HasSampleDirectory(env, sampleExists)
    && forall role :: env.fails(CopySample(role)).None? && env.fails(DescribeSample(role)).None?
  }

  lemma PassedMeans(env: Environment)
    ensures Passed(env) <==> Ran(env) && OutcomeFailure(env, env.docker.returncode).None?
  {
    hide ExpectedCause, Measured, MeasuredBytes, Wrote, WrapperCode, SignalStatus, Ran;
    Checks(env, false);
    if HasMetrics(env) {
      WrapperMeans(MetricsText(env).metrics);
    }
  }

  lemma EachRole(env: Environment)
    ensures (forall role :: env.fails(CopySample(role)).None?) <==>
              && env.fails(CopySample(MetricsFile)).None? && env.fails(CopySample(StdoutFile)).None?
              && env.fails(CopySample(StderrFile)).None?
    ensures (forall role :: env.fails(DescribeSample(role)).None?) <==>
              && env.fails(DescribeSample(MetricsFile)).None? && env.fails(DescribeSample(StdoutFile)).None?
              && env.fails(DescribeSample(StderrFile)).None?
  {
    if env.fails(CopySample(MetricsFile)).None? && env.fails(CopySample(StdoutFile)).None?
       && env.fails(CopySample(StderrFile)).None?
    {
      forall role ensures env.fails(CopySample(role)).None? {
        match role case MetricsFile => case StdoutFile => case StderrFile =>
      }
    }
    if env.fails(DescribeSample(MetricsFile)).None? && env.fails(DescribeSample(StdoutFile)).None?
       && env.fails(DescribeSample(StderrFile)).None?
    {
      forall role ensures env.fails(DescribeSample(role)).None? {
        match role case MetricsFile => case StdoutFile => case StderrFile =>
      }
    }
  }

  lemma FinishesMeans(env: Environment, sampleExists: bool)
    ensures Finishes(env, sampleExists) <==> OperationFailure(env, sampleExists).None?
  {
    hide Passed, OutcomeFailure, Ran, InputFailure;
    PassedMeans(env);
    RanMeans(env);
    EachRole(env);
  }

  /** The step is reached and raises this. */
  predicate Raises(env: Environment, sampleExists: bool, step: Step, message: string) {
    Reaches(env, sampleExists, step) && env.fails(step) == Some(message)
  }

  predicate SampleInTheWay(env: Environment, sampleExists: bool) {
    Reaches(env, sampleExists, MakeSample) && env.fails(MakeSample).None? && sampleExists
  }

  lemma InputRaises(env: Environment, sampleExists: bool, message: string)
    ensures InputFailure(env) == Some(Raised(message)) <==>
              || Raises(env, sampleExists, Generate, message) || Raises(env, sampleExists, ReadInput, message)
              || Raises(env, sampleExists, RunDocker, message)
  {}

  lemma CheckRaises(env: Environment, sampleExists: bool, message: string)
    ensures Ran(env) && OutcomeFailure(env, env.docker.returncode) == Some(Raised(message)) <==>
              || Raises(env, sampleExists, DecodeMetrics, message) || Raises(env, sampleExists, HashStdout, message)
              || Raises(env, sampleExists, HashStderr, message)
  {
    hide ExpectedCause, Measured, MeasuredBytes, Wrote, WrapperCode, SignalStatus, Ran;
    Checks(env, sampleExists);
    if HasMetrics(env) {
      WrapperMeans(MetricsText(env).metrics);
    }
  }

  lemma KeepingRaises(env: Environment, sampleExists: bool, message: string)
    ensures Passed(env) && SampleFailure(env, sampleExists) == Some(Raised(message)) <==>
              || Raises(env, sampleExists, AnalyzeAfter, message) || Raises(env, sampleExists, ListWork, message)
              || Raises(env, sampleExists, MakeSample, message)
              || Raises(env, sampleExists, CopySample(MetricsFile), message)
              || Raises(env, sampleExists, CopySample(StdoutFile), message)
              || Raises(env, sampleExists, CopySample(StderrFile), message)
              || Raises(env, sampleExists, DescribeSample(MetricsFile), message)
              || Raises(env, sampleExists, DescribeSample(StdoutFile), message)
              || Raises(env, sampleExists, DescribeSample(StderrFile), message)
              || (SampleInTheWay(env, sampleExists) && message == "sample directory exists")
  {
    hide Passed;
    EachRole(env);
  }

  /** An exception of the operation that is no classified failure is reported exactly when the step
      that raises it is reached; or a sample of an earlier run is in the way. */
  lemma RaisedCauses(env: Environment, sampleExists: bool, message: string)
    ensures ExpectedCause(env, sampleExists) == Some(Raised(message)) <==>
              || (exists step :: Raises(env, sampleExists, step, message))
              || (SampleInTheWay(env, sampleExists) && message == "sample directory exists")
  {
    hide InputFailure, OutcomeFailure, SampleFailure, CleanupErrors, Ran, Passed, Raises, SampleInTheWay;
    InputRaises(env, sampleExists, message);
    CheckRaises(env, sampleExists, message);
    KeepingRaises(env, sampleExists, message);
    SomeStepRaises(env, sampleExists, message);
    RanMeans(env);
    PassedMeans(env);
  }

  /** The steps of the operation that may raise, in order. */
  predicate SomeRaises(env: Environment, sampleExists: bool, message: string) {
    || Raises(env, sampleExists, Generate, message) || Raises(env, sampleExists, ReadInput, message)
    || Raises(env, sampleExists, RunDocker, message) || Raises(env, sampleExists, DecodeMetrics, message)
    || Raises(env, sampleExists, HashStdout, message) || Raises(env, sampleExists, HashStderr, message)
    || Raises(env, sampleExists, AnalyzeAfter, message) || Raises(env, sampleExists, ListWork, message)
    || Raises(env, sampleExists, MakeSample, message)
    || Raises(env, sampleExists, CopySample(MetricsFile), message)
    || Raises(env, sampleExists, CopySample(StdoutFile), message)
    || Raises(env, sampleExists, CopySample(StderrFile), message)
    || Raises(env, sampleExists, DescribeSample(MetricsFile), message)
    || Raises(env, sampleExists, DescribeSample(StdoutFile), message)
    || Raises(env, sampleExists, DescribeSample(StderrFile), message)
  }

  lemma SomeStepRaises(env: Environment, sampleExists: bool, message: string)
    ensures (exists step :: Raises(env, sampleExists, step, message)) <==> SomeRaises(env, sampleExists, message)
  {
    hide Raises;
    if step :| Raises(env, sampleExists, step, message) {
      NothingElseRaises(env, sampleExists, step, message);
      match step
      case CopySample(role) =>
        match role { case MetricsFile => case StdoutFile => case StderrFile => }
      case DescribeSample(role) =>
        match role { case MetricsFile => case StdoutFile => case StderrFile => }
      case _ =>
    }
  }

  lemma NothingElseRaises(env: Environment, sampleExists: bool, step: Step, message: string)
    requires Raises(env, sampleExists, step, message)
    ensures step in {Generate, ReadInput, RunDocker, DecodeMetrics, HashStdout, HashStderr, AnalyzeAfter, ListWork,
                     MakeSample}
            || step.CopySample? || step.DescribeSample?
  {
    hide Launched, Complete, Succeeded, StdoutPassed, Passed, HasSampleDirectory;
  }

  // ----- Cleanup -----

  /** The container is confirmed to be gone. */
  predicate ContainerGone(env: Environment) {
    && env.fails(ListBefore).None?
    && (Launched(env) && env.containerLeft ==>
          && env.fails(RemoveContainer).None? && env.fails(ListAfter).None?
          && !env.lingers(RemoveContainer) && env.removeStatus == 0)
  }

  /** A cleanup is the cause exactly when the operation went well: the container first, then the
      two directories. */
  lemma CleanupCauses(env: Environment, sampleExists: bool)
    ensures var cause := ExpectedCause(env, sampleExists);
            && (cause.Some? && CauseClass(cause.value) == ContainerCleanupFailure <==>
                  Finishes(env, sampleExists) && !ContainerGone(env))
            && (cause.Some? && CauseClass(cause.value) == TemporaryCleanupFailure <==>
                  && Finishes(env, sampleExists) && ContainerGone(env)
                  && (env.fails(RemoveWork).Some? || env.fails(RemoveEvidence).Some?))
            && (cause.Some? && CauseClass(cause.value) == CaptureFailure <==> cause.Some? && cause.value.Raised?)
            && (cause.None? <==>
                  && Finishes(env, sampleExists) && ContainerGone(env)
                  && env.fails(RemoveWork).None? && env.fails(RemoveEvidence).None?)
  {
    hide OutcomeFailure, Finishes, OperationFailure;
    FinishesMeans(env, sampleExists);
    OperationKinds(env, sampleExists);
    assert LeavesContainer(env) == (Launched(env) && env.containerLeft);
  }

  /** The operation reports neither a cleanup nor one of the classes kept for cleanups. */
  lemma OperationKinds(env: Environment, sampleExists: bool)
    ensures var cause := OperationFailure(env, sampleExists);
            cause.Some? ==> cause.value.Raised? || (cause.value.Classified? && IsOperationClass(cause.value.kind))
  {
    hide OutcomeFailure, SampleFailure;
    OutcomeKinds(env);
    SampleRaises(env, sampleExists);
  }

  predicate IsOperationClass(kind: FailureClass) {
    || kind in {GeneratedInputDrift, HostDeadlineExceeded, DockerWrapperFailure, DockerWrapperStreamPollution}
    || IsCheck(kind)
  }

  /** What is said of a container that is not confirmed to be gone. */
  lemma ContainerMessages(env: Environment)
    ensures ContainerGone(env) <==> ContainerFailure(env).None?
    ensures env.fails(ListBefore).Some? ==> ContainerFailure(env) == env.fails(ListBefore)
    ensures var left := env.fails(ListBefore).None? && Launched(env) && env.containerLeft;
            var listed := left && env.fails(RemoveContainer).None? && env.fails(ListAfter).None?;
            && (left && env.fails(RemoveContainer).Some? ==> ContainerFailure(env) == env.fails(RemoveContainer))
            && (left && env.fails(RemoveContainer).None? && env.fails(ListAfter).Some? ==>
                  ContainerFailure(env) == env.fails(ListAfter))
            && (listed && env.lingers(RemoveContainer) ==> ContainerFailure(env) == Some("container survived cleanup"))
            && (listed && !env.lingers(RemoveContainer) && env.removeStatus != 0 ==>
                  ContainerFailure(env) == Some("container cleanup failed"))
  {}

  /** The recorded cleanup errors: those of the container, the work directory and the evidence
      directory, each with its own message, in this order. */
  lemma CleanupErrorsAre(env: Environment)
    ensures var errors := CleanupErrors(env);
            && (forall e :: e in errors ==>
                  match e.role
                  case Container => ContainerFailure(env) == Some(e.message)
                  case WorkDirectory => env.fails(RemoveWork) == Some(e.message)
                  case EvidenceDirectory => env.fails(RemoveEvidence) == Some(e.message))
            && (!ContainerGone(env) <==> exists e :: e in errors && e.role == Container)
            && (env.fails(RemoveWork).Some? <==> exists e :: e in errors && e.role == WorkDirectory)
            && (env.fails(RemoveEvidence).Some? <==> exists e :: e in errors && e.role == EvidenceDirectory)
            && forall i, j :: 0 <= i < j < |errors| ==> Rank(errors[i].role) < Rank(errors[j].role)
  {
    hide ContainerFailure, ContainerGone;
    ContainerMessages(env);
    var errors := CleanupErrors(env);
    var c, w, v := ContainerFailure(env), env.fails(RemoveWork), env.fails(RemoveEvidence);
    if c.Some? { assert errors[0] == CleanupError(Container, c.value); }
    if w.Some? { assert errors[if c.Some? then 1 else 0] == CleanupError(WorkDirectory, w.value); }
    if v.Some? { assert errors[|errors| - 1] == CleanupError(EvidenceDirectory, v.value); }
  }

  function Rank(role: CleanupRole): nat {
    match role case Container => 0 case WorkDirectory => 1 case EvidenceDirectory => 2
  }

  // ----- What is kept -----

  /** The two streams that are kept are those of the container run, and empty if it raised or there
      was no wrapper to run. */
  lemma StreamsAre(env: Environment)
    ensures var ran := Launched(env) && env.fails(RunDocker).None? && !env.docker.NoWrapper?;
            && DockerStdout(env) == (if ran then env.docker.stdout else "")
            && DockerStderr(env) == (if ran then env.docker.stderr else "")
  {}

  /** What a failed run keeps: its input, the measured files and both streams. */
  predicate IsKept(env: Environment, path: Path) {
    match path
    case FailureInput => true
    case FailureDockerStdout => true
    case FailureDockerStderr => true
    case At(place, role) => place == Failure && Launched(env) && Wrote(env, role)
  }

  /** Retention fails exactly when its directory cannot be made, or one of the files cannot be
      written or described. */
  lemma RetentionFailsIff(env: Environment, failureExists: bool)
    ensures RetentionFails(env, failureExists) <==>
              || env.fails(MakeFailure).Some? || failureExists
              || exists path :: IsKept(env, path)
                                && (env.fails(WriteFailure(path)).Some? || env.fails(DescribeFailure(path)).Some?)
  {
    hide Wrote, Launched;
    forall role ensures RoleFails(env, role) <==>
                          && IsKept(env, At(Failure, role))
                          && (env.fails(WriteFailure(At(Failure, role))).Some?
                             || env.fails(DescribeFailure(At(Failure, role))).Some?)
    {
      MeasuredMeans(env, role);
    }
    if exists path :: IsKept(env, path)
                      && (env.fails(WriteFailure(path)).Some? || env.fails(DescribeFailure(path)).Some?)
    {
      var path :| IsKept(env, path) && (env.fails(WriteFailure(path)).Some? || env.fails(DescribeFailure(path)).Some?);
      match path
      case At(place, role) => assert RoleFails(env, role);
      case _ =>
    }
    if RolesFail(env) {
      var role :| RoleFails(env, role);
      assert IsKept(env, At(Failure, role));
    }
    assert IsKept(env, FailureInput) && IsKept(env, FailureDockerStdout) && IsKept(env, FailureDockerStderr);
  }

  /** The measured files are kept in the order metrics, stdout, stderr, up to the first that fails. */
  lemma ReachedIff(env: Environment, role: Role)
    ensures Reached(env, role) <==>
              && env.fails(MakeFailure).None?
              && env.fails(WriteFailure(FailureInput)).None? && env.fails(DescribeFailure(FailureInput)).None?
              && (role != MetricsFile && Launched(env) && Wrote(env, MetricsFile) ==> Keeps(env, MetricsFile))
              && (role == StderrFile && Launched(env) && Wrote(env, StdoutFile) ==> Keeps(env, StdoutFile))
  {
    hide Wrote, Launched;
    MeasuredMeans(env, MetricsFile);
    MeasuredMeans(env, StdoutFile);
  }

  predicate Keeps(env: Environment, role: Role) {
    env.fails(WriteFailure(At(Failure, role))).None? && env.fails(DescribeFailure(At(Failure, role))).None?
  }

  /** The record of a sample, before the directories are removed: the exit code the metrics tell, the
      status of the container, and the hashes of the three measured files. */
  lemma DraftIs(env: Environment)
    requires Passed(env)
    ensures var d := DraftSample(env);
            && d.inputAfter == env.inputAfter && d.unexpectedEntries == env.workEntries
            && d.exitCode == MetricsText(env).metrics.exitCode && d.containerExitCode == env.docker.returncode == 0
            && (forall role :: role in env.written && env.written[role].Regular? && role in d.digests
                                 && d.digests[role] == env.sha256(env.written[role].content))
            && !d.workRemoved && !d.evidenceRemoved && !d.containerRemoved
  {
    hide Measured, MeasuredBytes, Wrote;
    Checks(env, false);
    RanMeans(env);
    forall role
      ensures role in env.written && env.written[role].Regular?
      ensures role in DraftSample(env).digests
              && DraftSample(env).digests[role] == env.sha256(env.written[role].content)
    {
      WroteEach(env, role);
      match role {
        case MetricsFile =>
        case StdoutFile =>
        case StderrFile =>
      }
    }
  }

  lemma WroteEach(env: Environment, role: Role)
    requires Complete(env)
    ensures role in env.written && env.written[role].Regular?
  {
    assert Wrote(env, role);
  }
}
