// Engine commands and their results: correlation ids, command lines, and the checks that every result
// parser makes before it looks at the output.

module CommandProtocol {
  import opened JsonValues
  import opened Prelude
  import opened Paths
  import opened Texts

  datatype Step =
    | Create | RecoveryQuery | RecoveryInspect | ResourceRecoveryQuery | ResourceRecoveryInspect
    | Start | GateReady | MountProof | StageProof | Inspect | Release | Wait | FinalInspect | Logs
    | Remove | RemovalCheck | VolumeRemove | VolumeRemovalCheck

  /** The command id is a truncated SHA-256 of attempt, step and ordinal; it is kept injective here. */
  datatype CommandId = CommandId(attemptId: string, step: Step, ordinal: int)

  datatype Outcome = Exited | TimedOut | SpawnFailed | Cancelled | ParentFailed

  /** A finished command. `lines` is what its output lines decode to and `document` what the whole
      output does; `None` where that is no JSON. */
  datatype CommandResult = CommandResult(
    attemptId: string,
    commandId: CommandId,
    eventSequence: int,
    step: Step,
    argv: seq<string>,
    outcome: Outcome,
    exitCode: Option<int>,
    stdout: string,
    stderr: string,
    complete: bool,
    started: int,
    finished: int,
    roots: seq<Path>,
    revision: int,
    lines: Option<seq<Json>>,
    document: Option<Json>)

  /** The checks of the result constructor that the protocols rely on. */
  predicate ResultValid(r: CommandResult) {
    && r.eventSequence >= 1
    && r.outcome.Exited? == r.exitCode.Some?
    && 0 <= r.started <= r.finished
    && r.revision >= 0
  }

  datatype Engine = Engine(executable: string, prefix: seq<string>, roots: seq<Path>, revision: int)

  function EngineCommand(e: Engine, arguments: seq<string>): seq<string> {
    [e.executable] + e.prefix + arguments
  }

  /** What the file system answers while one result is parsed. */
  datatype Now = Now(workspaceCurrent: bool, engineCurrent: bool)

  datatype Failure =
    | CorrelationMismatch
    | EventSequenceMismatch
    | RetryTooEarly
    | WorkspaceAuthorityChanged
    | Ended(outcome: Outcome)      // the command did not exit by itself
    | NonZeroExit
    | OutputIncomplete
    | UnexpectedStderr
    | EngineChanged

  /** The command whose result is awaited, and from when on it may be accepted. */
  datatype Expected = Expected(
    attemptId: string, step: Step, ordinal: int, argv: seq<string>, minimumSequence: int, notBefore: int)

  datatype Strictness = Strictness(success: bool, complete: bool, quiet: bool)

  const STRICT := Strictness(true, true, false)

  function ResultFailure(e: Engine, x: Expected, s: Strictness, r: CommandResult, now: Now): Option<Failure> {
    if r.attemptId != x.attemptId || r.commandId != CommandId(x.attemptId, x.step, x.ordinal)
       || r.step != x.step || r.argv != x.argv
    then Some(CorrelationMismatch)
    else if r.eventSequence < x.minimumSequence then Some(EventSequenceMismatch)
    else if r.started < x.notBefore then Some(RetryTooEarly)
    else if r.roots != e.roots || r.revision != e.revision || !now.workspaceCurrent
    then Some(WorkspaceAuthorityChanged)
    else if !r.outcome.Exited? then Some(Ended(r.outcome))
    else if s.success && r.exitCode != Some(0) then Some(NonZeroExit)
    else if s.complete && !r.complete then Some(OutputIncomplete)
    else if s.quiet && r.stderr != "" then Some(UnexpectedStderr)
    else if !now.engineCurrent then Some(EngineChanged)
    else None
  }

  /** The failures after which asking again is allowed. */
  predicate Retryable(f: Failure) {
    f.Ended? || f.NonZeroExit?
  }

  predicate IsContainerId(s: string) {
    |s| == 64 && forall i :: 0 <= i < |s| ==> '0' <= s[i] <= '9' || 'a' <= s[i] <= 'f'
  }

  /** `normalized_container_id`: 64 hexadecimal digits, with or without the `sha256:` prefix. */
  function NormalizedId(v: Json): Option<string> {
    if !v.JText? then None
    else if IsContainerId(v.text) then Some(v.text)
    else if |v.text| == 71 && v.text[..7] == "sha256:" && IsContainerId(v.text[7..]) then Some(v.text[7..])
    else None
  }

  function NormalizedIds(vs: seq<Json>): Option<seq<string>> {
    if vs == [] then Some([])
    else
      var head :- NormalizedId(vs[0]);
      var rest :- NormalizedIds(vs[1..]);
      Some([head] + rest)
  }

  /** A container name with the engine's leading slash removed. */
  function PlainName(v: Json): Json {
    if v.JText? && v.text != "" && v.text[0] == '/' then JText(v.text[1..]) else v
  }
}
