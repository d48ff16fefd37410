// The life of one execution container, from the create result to proved absence: a chain of stages,
// each carrying the cleanup obligation, driven by whatever results the engine gives.

module InstanceProtocol {
  import opened JsonValues
  import opened Prelude
  import opened Numerals
  import opened Texts
  import opened CommandProtocol
  import MountMatching
  import MountPlanning

  /** How the workspace reached the container, and what the gate must prove about it. */
  datatype Transport =
    | DirectBind(destinations: seq<string>, identities: seq<(int, int)>)
    | StagedCopy(arguments: seq<string>, digests: seq<string>)

  datatype Plan = Plan(
    engine: Engine, attemptId: string, createArgv: seq<string>, transport: Transport, mounts: seq<MountPlanning.Mount>)

  datatype Cleanup = Cleanup(plan: Plan, containerId: string, removeArgv: seq<string>, checkArgv: seq<string>, ordinal: int)

  function CleanupFor(p: Plan, id: string): Cleanup {
    Cleanup(
      p, id,
      EngineCommand(p.engine, ["rm", "--force", "--volumes", id]),
      EngineCommand(p.engine, ["ps", "--all", "--no-trunc", "--filter", "id=" + id, "--format", "{{json .ID}}"]),
      1)
  }

  datatype ProofKind = MountObjectIdentity | StagedManifest

  datatype Stage =
    | Created(plan: Plan, id: string, cleanup: Cleanup, argv: seq<string>)
    | Started(plan: Plan, id: string, cleanup: Cleanup, argv: seq<string>)
    | Ready(plan: Plan, id: string, cleanup: Cleanup, argv: seq<string>)
    | MountVerified(plan: Plan, id: string, cleanup: Cleanup, argv: seq<string>,
                    kind: ProofKind, identities: seq<(int, int)>, digests: seq<string>)
    | Verified(plan: Plan, id: string, cleanup: Cleanup, argv: seq<string>, instanceId: string)
    | Released(plan: Plan, id: string, cleanup: Cleanup, argv: seq<string>)
    | Waited(plan: Plan, id: string, cleanup: Cleanup, argv: seq<string>, exitCode: int)
    | Exited(plan: Plan, id: string, cleanup: Cleanup, argv: seq<string>, exitCode: int, oomKilled: bool)
    | Captured(plan: Plan, id: string, cleanup: Cleanup, exitCode: int, stdout: string, stderr: string)

  // ---- Commands ----

  const GATE_READY_CHECK := "/opt/local-agent/bin/isolation-gate-ready"
  const GATE_MOUNT_PROOF := "/opt/local-agent/bin/isolation-gate-mount-proof"
  const GATE_STAGE_PROOF := "/opt/local-agent/bin/isolation-gate-stage-proof"
  const INSPECT_TEMPLATE := "{{container}}"

  function StartArgv(p: Plan, id: string): seq<string> {
    EngineCommand(p.engine, ["start", id])
  }

  function ReadyArgv(p: Plan, id: string): seq<string> {
    EngineCommand(p.engine, ["exec", id, GATE_READY_CHECK, "--attempt-id", p.attemptId,
                             "--attempts", "100", "--delay-seconds", "0.05"])
  }

  function ProofArgv(p: Plan, id: string): seq<string> {
    match p.transport
    case DirectBind(destinations, _) => EngineCommand(p.engine, ["exec", id, GATE_MOUNT_PROOF] + destinations)
    case StagedCopy(arguments, _) => EngineCommand(p.engine, ["exec", id, GATE_STAGE_PROOF] + arguments)
  }

  function InspectArgv(p: Plan, id: string): seq<string> {
    EngineCommand(p.engine, ["inspect", "--type=container", "--format", INSPECT_TEMPLATE, id])
  }

  function ReleaseArgv(p: Plan, id: string): seq<string> {
    EngineCommand(p.engine, ["kill", "--signal=SIGUSR1", id])
  }

  /** The command that a stage waits for. */
  function NextStep(s: Stage): Step
    requires !s.Captured?
  {
    match s
    case Created(_, _, _, _) => Start
    case Started(_, _, _, _) => GateReady
    case Ready(_, _, _, _) => if s.plan.transport.DirectBind? then MountProof else StageProof
    case MountVerified(_, _, _, _, _, _, _) => Inspect
    case Verified(_, _, _, _, _) => Release
    case Released(_, _, _, _) => Wait
    case Waited(_, _, _, _, _) => FinalInspect
    case Exited(_, _, _, _, _, _) => Logs
  }

  function NextArgv(s: Stage): seq<string>
    requires !s.Captured?
  {
    match s
    case Created(_, _, _, _) => StartArgv(s.plan, s.id)
    case Started(_, _, _, _) => ReadyArgv(s.plan, s.id)
    case Ready(_, _, _, _) => ProofArgv(s.plan, s.id)
    case MountVerified(_, _, _, _, _, _, _) => InspectArgv(s.plan, s.id)
    case Verified(_, _, _, _, _) => ReleaseArgv(s.plan, s.id)
    case Released(_, _, _, _) => EngineCommand(s.plan.engine, ["wait", s.id])
    case Waited(_, _, _, _, _) => InspectArgv(s.plan, s.id)
    case Exited(_, _, _, _, _, _) => EngineCommand(s.plan.engine, ["logs", s.id])
  }

  /** The constructor checks of every stage: the cleanup handle is the one of this plan and container,
      and the prepared command line names this container. */
  predicate StageValid(s: Stage) {
    && IsContainerId(s.id)
    && s.cleanup == CleanupFor(s.plan, s.id)
    && (!s.Captured? ==> s.argv == NextArgv(s))
    && match s
       case MountVerified(_, _, _, _, kind, identities, digests) =>
         (match s.plan.transport
          case DirectBind(_, expected) => kind.MountObjectIdentity? && identities == expected && digests == []
          case StagedCopy(_, expected) => kind.StagedManifest? && identities == [] && digests == expected)
       case Verified(_, _, _, _, instanceId) => instanceId == s.id
       case Waited(_, _, _, _, code) => 0 <= code <= 255
       case _ => true
  }

  // ---- The parsers ----

  /** What else is looked at while a result is parsed: the decoded proof output, whether the mount
      sources, the staging authority and the inspected fields other than those below are as planned. */
  datatype Seen = Seen(identities: Option<seq<(int, int)>>, sourcesUnchanged: bool, stagingCurrent: bool, policyMatches: bool)

  datatype Input = Input(result: CommandResult, now: Now, seen: Seen)

  const CONTROL_LIMIT := 4_096
  const CREATE_LIMIT := 256
  const INSPECT_LIMIT := 262_144
  const LOGS_STRICTNESS := Strictness(true, false, false)
  const QUIET := Strictness(true, true, true)

  /** Recovering, held or unresolved: what a create result leaves. */
  datatype Protocol =
    | Idle(plan: Plan)
    | Holding(stage: Stage)
    | Recovering(plan: Plan)           // a recovery obligation for the correlated create
    | Uncorrelated(plan: Plan)         // unresolved: the result was not this plan's create
    | Removing(cleanup: Cleanup)
    | Checking(cleanup: Cleanup)
    | StillOwed(cleanup: Cleanup)      // the check failed: the obligation is handed back
    | Discharged(cleanup: Cleanup)

  function ParseCreate(p: Plan, i: Input): Protocol {
    var r := i.result;
    var failure := ResultFailure(p.engine, Expected(p.attemptId, Create, 1, p.createArgv, 0, 0), STRICT, r, i.now);
    if failure == Some(CorrelationMismatch) then Uncorrelated(p)
    else if failure.Some? || r.stderr != "" || |r.stdout| > CREATE_LIMIT then Recovering(p)
    else
      var id := NormalizedId(JText(Strip(r.stdout)));
      if id.None? then Recovering(p)
      else Holding(Created(p, id.value, CleanupFor(p, id.value), StartArgv(p, id.value)))
  }

  function ParseWaitCode(stdout: string): Option<int> {
    var text := Strip(stdout);
    if 1 <= |text| <= 3 && (forall k :: 0 <= k < |text| ==> '0' <= text[k] <= '9') && DecimalValue(text) <= 255
    then Some(DecimalValue(text)) else None
  }

  predicate RunningPayload(v: Json) {
    && Get(v, "state_status") == JText("running") && Get(v, "state_running") == JBool(true)
    && Get(v, "state_oom_killed") == JBool(false) && Get(v, "state_error") in {JText(""), JNull}
  }

  predicate ExitedPayload(v: Json, code: int) {
    && Get(v, "state_status") == JText("exited") && Get(v, "state_running") == JBool(false)
    && Get(v, "state_exit_code") == JInt(code) && Get(v, "state_error") == JText("")
    && Get(v, "state_oom_killed").JBool?
  }

  /** Ownership of the inspected container, its mounts, and every other planned field. */
  predicate StaticMatch(s: Stage, v: Json, seen: Seen) {
    && NormalizedId(Get(v, "id")) == Some(s.id)
    && PlainName(Get(v, "name")) == JText("lca-" + s.plan.attemptId)
    && Get(v, "instance_label") == JText(s.plan.attemptId)
    && Get(v, "resource_label") == JText("execution")
    && MountMatching.HostAccepted(s.plan.mounts, Get(v, "host_mounts"))
    && MountMatching.RuntimeAccepted(s.plan.mounts, Get(v, "mounts"))
    && seen.policyMatches
  }

  function Inspected(r: CommandResult): Option<Json> {
    if r.stderr == "" && |r.stdout| <= INSPECT_LIMIT && r.document.Some? && r.document.value.JDict?
    then r.document else None
  }

  /** The parser of each stage: the next stage, or `None` with whatever reason. */
  function ParseStage(s: Stage, i: Input): Option<Stage>
    requires !s.Captured?
  {
    var r := i.result;
    var p, id, c := s.plan, s.id, s.cleanup;
    var strictness := if s.Exited? then LOGS_STRICTNESS else STRICT;
    if ResultFailure(p.engine, Expected(p.attemptId, NextStep(s), 1, s.argv, 0, 0), strictness, r, i.now).Some? then None
    else match s
      case Created(_, _, _, _) =>
        if r.stderr != "" || |r.stdout| > CONTROL_LIMIT then None
        else Some(Started(p, id, c, ReadyArgv(p, id)))
      case Started(_, _, _, _) =>
        if r.stdout != "" || r.stderr != "" then None else Some(Ready(p, id, c, ProofArgv(p, id)))
      case Ready(_, _, _, _) =>
        (match p.transport
         case DirectBind(_, expected) =>
           if r.stderr != "" || |r.stdout| > CONTROL_LIMIT || i.seen.identities != Some(expected)
              || !i.seen.sourcesUnchanged
           then None
           else Some(MountVerified(p, id, c, InspectArgv(p, id), MountObjectIdentity, expected, []))
         case StagedCopy(_, expected) =>
           if r.stdout != "" || r.stderr != "" || !i.seen.stagingCurrent then None
           else Some(MountVerified(p, id, c, InspectArgv(p, id), StagedManifest, [], expected)))
      case MountVerified(_, _, _, _, _, _, _) =>
        var v :- Inspected(r);
        if !StaticMatch(s, v, i.seen) || !RunningPayload(v) then None
        else Some(Verified(p, id, c, ReleaseArgv(p, id), id))
      case Verified(_, _, _, _, _) =>
        if r.stderr != "" || |r.stdout| > CONTROL_LIMIT then None
        else Some(Released(p, id, c, EngineCommand(p.engine, ["wait", id])))
      case Released(_, _, _, _) =>
        if r.stderr != "" || |r.stdout| > CONTROL_LIMIT then None
        else
          var code :- ParseWaitCode(r.stdout);
          Some(Waited(p, id, c, InspectArgv(p, id), code))
      case Waited(_, _, _, _, code) =>
        var v :- Inspected(r);
        if !StaticMatch(s, v, i.seen) || !ExitedPayload(v, code) then None
        else Some(Stage.Exited(p, id, c, EngineCommand(p.engine, ["logs", id]), code, Get(v, "state_oom_killed").flag))
      case Exited(_, _, _, _, code, _) => Some(Captured(p, id, c, code, r.stdout, r.stderr))
  }

  predicate AbsenceShown(c: Cleanup, i: Input) {
    && ResultFailure(c.plan.engine, Expected(c.plan.attemptId, RemovalCheck, c.ordinal, c.checkArgv, 0, 0), QUIET,
                     i.result, i.now).None?
    && i.result.stdout == ""
  }

  /** One step of the runtime. A stage that fails, and the last one, goes on to removal; whatever the
      remove command answers, the absence check follows. */
  function Advance(s: Protocol, i: Input): Protocol {
    match s
    case Idle(p) => ParseCreate(p, i)
    case Holding(stage) =>
      if stage.Captured? then Checking(stage.cleanup)
      else
        var next := ParseStage(stage, i);
        if next.Some? then Holding(next.value) else Removing(stage.cleanup)
    case Removing(c) => Checking(c)
    case Checking(c) => if AbsenceShown(c, i) then Discharged(c) else StillOwed(c)
    case _ => s
  }

  function StateAt(s: Protocol, inputs: seq<Input>, k: nat): Protocol
    requires k <= |inputs|
  {
    if k == 0 then s else Advance(StateAt(s, inputs, k - 1), inputs[k - 1])
  }

  /** The cleanup handle that a state still carries or has discharged. */
  function Handle(s: Protocol): Option<Cleanup> {
    match s
    case Holding(stage) => Some(stage.cleanup)
    case Removing(c) => Some(c)
    case Checking(c) => Some(c)
    case StillOwed(c) => Some(c)
    case Discharged(c) => Some(c)
    case _ => None
  }

  predicate ProtocolValid(s: Protocol) {
    s.Holding? ==> StageValid(s.stage)
  }

  // ---- What every run keeps ----

  lemma WaitCodeRange(stdout: string)
    requires ParseWaitCode(stdout).Some?
    ensures 0 <= ParseWaitCode(stdout).value <= 255
  {
  }

  lemma AdvanceKeepsValid(s: Protocol, i: Input)
    requires ProtocolValid(s)
    ensures ProtocolValid(Advance(s, i))
    ensures Handle(s).Some? ==> Handle(Advance(s, i)) == Handle(s)
  {
    hide Strip, StaticMatch, RunningPayload, ExitedPayload, IsContainerId;
    if s.Holding? && s.stage.Released? && ParseWaitCode(i.result.stdout).Some? {
      WaitCodeRange(i.result.stdout);
    }
    if s.Idle? && NormalizedId(JText(Strip(i.result.stdout))).Some? {
      assert IsContainerId(NormalizedId(JText(Strip(i.result.stdout))).value);
    }
  }

  /** After a create result exactly one obligation is outstanding in every later state of every run: a
      cleanup handle of this plan for one container that never changes, the recovery obligation, or
      the unresolved mark; only `Discharged` has none left. */
  lemma {:induction false} ObligationIsConserved(p: Plan, inputs: seq<Input>, j: nat, k: nat)
    requires 1 <= j <= k <= |inputs|
    ensures ProtocolValid(StateAt(Idle(p), inputs, k))
    ensures var a, b := StateAt(Idle(p), inputs, j), StateAt(Idle(p), inputs, k);
            || (a == b == Recovering(p))
            || (a == b == Uncorrelated(p))
            || (&& Handle(a).Some? && Handle(b) == Handle(a) && IsContainerId(Handle(a).value.containerId)
                && Handle(a).value == CleanupFor(p, Handle(a).value.containerId))
    decreases k
  {
    hide Advance, StageValid;
    if k == 1 {
      CreateLeavesOne(p, inputs[0]);
      assert StateAt(Idle(p), inputs, 0) == Idle(p);
    } else {
      ObligationIsConserved(p, inputs, if j < k then j else k - 1, k - 1);
      var before := StateAt(Idle(p), inputs, k - 1);
      AdvanceKeepsValid(before, inputs[k - 1]);
      EndsStay(before, inputs[k - 1]);
    }
  }

  lemma CreateLeavesOne(p: Plan, i: Input)
    ensures var s := Advance(Idle(p), i);
            && ProtocolValid(s)
            && (s == Recovering(p) || s == Uncorrelated(p) ||
                (Handle(s).Some? && IsContainerId(Handle(s).value.containerId)
                 && Handle(s).value == CleanupFor(p, Handle(s).value.containerId)))
    ensures Advance(Idle(p), i).Uncorrelated? <==>
              ResultFailure(p.engine, Expected(p.attemptId, Create, 1, p.createArgv, 0, 0), STRICT, i.result, i.now)
                == Some(CorrelationMismatch)
  {
    AdvanceKeepsValid(Idle(p), i);
  }

  lemma EndsStay(s: Protocol, i: Input)
    ensures s.Recovering? || s.Uncorrelated? || s.StillOwed? || s.Discharged? ==> Advance(s, i) == s
  {
  }

  /** An obligation is discharged by one thing only: a correlated, complete, exit-0 absence check of that
      very container with empty output, and this whatever the remove command had answered. */
  lemma {:induction false} DischargedOnlyByAbsence(p: Plan, inputs: seq<Input>, k: nat)
    requires k <= |inputs| && StateAt(Idle(p), inputs, k).Discharged?
    ensures exists m: nat :: m < k
              && StateAt(Idle(p), inputs, m) == Checking(StateAt(Idle(p), inputs, k).cleanup)
              && AbsenceShown(StateAt(Idle(p), inputs, k).cleanup, inputs[m])
    decreases k
  {
    hide ParseStage, ParseCreate, AbsenceShown;
    var before := StateAt(Idle(p), inputs, k - 1);
    if before.Discharged? {
      DischargedOnlyByAbsence(p, inputs, k - 1);
    } else {
      IdleIsNotDischarged(before, inputs[k - 1]);
    }
  }

  lemma IdleIsNotDischarged(s: Protocol, i: Input)
    ensures s.Idle? ==> !Advance(s, i).Discharged?
  {
  }

  lemma AbsenceShownMeans(c: Cleanup, i: Input)
    requires AbsenceShown(c, i)
    ensures i.result.commandId == CommandId(c.plan.attemptId, RemovalCheck, c.ordinal)
    ensures i.result.argv == c.checkArgv && i.result.outcome.Exited? && i.result.exitCode == Some(0)
    ensures i.result.complete && i.result.stdout == "" && i.result.stderr == ""
    ensures i.now.workspaceCurrent && i.now.engineCurrent
  {
  }

  function Order(s: Stage): nat {
    match s
    case Created(_, _, _, _) => 0
    case Started(_, _, _, _) => 1
    case Ready(_, _, _, _) => 2
    case MountVerified(_, _, _, _, _, _, _) => 3
    case Verified(_, _, _, _, _) => 4
    case Released(_, _, _, _) => 5
    case Waited(_, _, _, _, _) => 6
    case Exited(_, _, _, _, _, _) => 7
    case Captured(_, _, _, _, _, _) => 8
  }

  /** A result that its stage accepted: correlated with that container's command, and exit status 0. */
  predicate AcceptedAt(s: Protocol, i: Input) {
    && s.Holding? && !s.stage.Captured? && ParseStage(s.stage, i).Some?
    && i.result.argv == NextArgv(s.stage) && i.result.step == NextStep(s.stage)
    && i.result.outcome.Exited? && i.result.exitCode == Some(0)
  }

  /** A run that holds a stage after `k` results has accepted the result of every earlier stage, one a
      step and in order, for the same container: in particular nothing is released before its start,
      readiness, workspace proof and inspect were accepted. */
  lemma {:induction false} StagesAreEarned(p: Plan, inputs: seq<Input>, k: nat, n: nat)
    requires k <= |inputs| && StateAt(Idle(p), inputs, k).Holding?
    requires n <= Order(StateAt(Idle(p), inputs, k).stage)
    ensures k == Order(StateAt(Idle(p), inputs, k).stage) + 1
    ensures var last, passed := StateAt(Idle(p), inputs, k), StateAt(Idle(p), inputs, n + 1);
            && passed.Holding? && Order(passed.stage) == n
            && passed.stage.id == last.stage.id && passed.stage.plan == last.stage.plan == p
            && (n + 1 < k ==> AcceptedAt(passed, inputs[n + 1]))
    decreases k
  {
    hide Advance, ParseStage, StageValid;
    var before := StateAt(Idle(p), inputs, k - 1);
    if k >= 2 {
      ObligationIsConserved(p, inputs, 1, k - 1);
    }
    HoldingStep(before, inputs[k - 1]);
    if before.Holding? {
      var m := Order(before.stage);
      StagesAreEarned(p, inputs, k - 1, if n <= m then n else m);
    }
  }

  lemma HoldingStep(s: Protocol, i: Input)
    requires ProtocolValid(s) && Advance(s, i).Holding?
    ensures s.Idle? || s.Holding?
    ensures s.Idle? ==> Order(Advance(s, i).stage) == 0 && Advance(s, i).stage.plan == s.plan
    ensures s.Holding? ==>
              && AcceptedAt(s, i) && Order(Advance(s, i).stage) == Order(s.stage) + 1
              && Advance(s, i).stage.id == s.stage.id && Advance(s, i).stage.plan == s.stage.plan
  {
    hide Strip, StaticMatch, RunningPayload, ExitedPayload, ParseWaitCode;
  }

  // ---- The chain can be walked to its end ----

  /** A result of a command that went well, under unchanged authority. */
  function GoodInput(p: Plan, step: Step, argv: seq<string>, stdout: string, document: Option<Json>): Input {
    Input(
      CommandResult(p.attemptId, CommandId(p.attemptId, step, 1), 1, step, argv, Outcome.Exited, Some(0), stdout, "", true,
                    0, 0, p.engine.roots, p.engine.revision, None, document),
      Now(true, true),
      Seen(if p.transport.DirectBind? then Some(p.transport.identities) else None, true, true, true))
  }

  function StateMembers(status: string, running: bool): Members {
    Member("state_error", JText(""),
    Member("state_exit_code", JInt(0),
    Member("state_oom_killed", JBool(false),
    Member("state_running", JBool(running),
    Member("state_status", JText(status), End)))))
  }

  function InspectedAs(p: Plan, id: string, status: string, running: bool): Json {
    var resource := Member("resource_label", JText("execution"), StateMembers(status, running));
    var name := Member("name", JText("lca-" + p.attemptId), resource);
    var mounts := Member("mounts", MountMatching.RuntimeReport(p.mounts), name);
    var instance := Member("instance_label", JText(p.attemptId), mounts);
    var identity := Member("id", JText(id), instance);
    JDict(Member("host_mounts", MountMatching.HostReport(p.mounts), identity))
  }

  lemma FindSteps(m: Members, name: string)
    ensures m.Member? ==> Find(m, name) == if m.name == name then m.value else Find(m.rest, name)
    ensures m.Member? && m.rest.Member? ==>
      Find(m.rest, name) == if m.rest.name == name then m.rest.value else Find(m.rest.rest, name)
  {
  }

  lemma StateFound(status: string, running: bool)
    ensures var m := StateMembers(status, running);
            && Find(m, "state_error") == JText("") && Find(m, "state_exit_code") == JInt(0)
            && Find(m, "state_oom_killed") == JBool(false) && Find(m, "state_running") == JBool(running)
            && Find(m, "state_status") == JText(status)
  {
    var m := StateMembers(status, running);
    FindSteps(m.rest.rest, "state_oom_killed");
    FindSteps(m.rest.rest, "state_running");
    FindSteps(m.rest.rest, "state_status");
    FindSteps(m.rest.rest.rest.rest, "state_status");
  }

  lemma PayloadFound(p: Plan, id: string, status: string, running: bool, name: string)
    ensures name !in ["host_mounts", "id", "instance_label", "mounts", "name", "resource_label"] ==>
      Get(InspectedAs(p, id, status, running), name) == Find(StateMembers(status, running), name)
  {
    hide StateMembers, MountMatching.HostReport, MountMatching.RuntimeReport;
    var m := InspectedAs(p, id, status, running).members;
    FindSteps(m, name);
    FindSteps(m.rest.rest, name);
    FindSteps(m.rest.rest.rest.rest, name);
  }

  /** What an engine answers for one container from its creation to its absence. */
  function GoodInputs(p: Plan, id: string): (inputs: seq<Input>)
    ensures |inputs| == 11
  {
    [
      GoodInput(p, Create, p.createArgv, id, None),
      GoodInput(p, Start, StartArgv(p, id), "", None),
      GoodInput(p, GateReady, ReadyArgv(p, id), "", None),
      GoodInput(p, if p.transport.DirectBind? then MountProof else StageProof, ProofArgv(p, id), "", None),
      GoodInput(p, Inspect, InspectArgv(p, id), "", Some(InspectedAs(p, id, "running", true))),
      GoodInput(p, Release, ReleaseArgv(p, id), "", None),
      GoodInput(p, Wait, EngineCommand(p.engine, ["wait", id]), "0", None),
      GoodInput(p, FinalInspect, InspectArgv(p, id), "", Some(InspectedAs(p, id, "exited", false))),
      GoodInput(p, Logs, EngineCommand(p.engine, ["logs", id]), "", None),
      GoodInput(p, Remove, CleanupFor(p, id).removeArgv, id, None),
      GoodInput(p, RemovalCheck, CleanupFor(p, id).checkArgv, "", None)
    ]
  }

  lemma IdIsStripped(id: string)
    requires IsContainerId(id)
    ensures Strip(id) == id && NormalizedId(JText(id)) == Some(id)
  {
  }

  lemma GoodResult(p: Plan, step: Step, argv: seq<string>, stdout: string, document: Option<Json>, s: Strictness)
    ensures var i := GoodInput(p, step, argv, stdout, document);
            ResultFailure(p.engine, Expected(p.attemptId, step, 1, argv, 0, 0), s, i.result, i.now).None?
  {
  }

  lemma GoodPayload(p: Plan, id: string, status: string, running: bool)
    requires IsContainerId(id) && Mountable(p)
    ensures var v := InspectedAs(p, id, status, running);
            && NormalizedId(Get(v, "id")) == Some(id) && PlainName(Get(v, "name")) == JText("lca-" + p.attemptId)
            && Get(v, "instance_label") == JText(p.attemptId) && Get(v, "resource_label") == JText("execution")
            && MountMatching.HostAccepted(p.mounts, Get(v, "host_mounts"))
            && MountMatching.RuntimeAccepted(p.mounts, Get(v, "mounts"))
  {
    hide StateMembers, MountMatching.HostReport, MountMatching.RuntimeReport, MountMatching.HostAccepted,
      MountMatching.RuntimeAccepted;
    MountMatching.ReportsAccepted(p.mounts);
    var m := InspectedAs(p, id, status, running).members;
    FindSteps(m, "id");
    FindSteps(m, "instance_label");
    FindSteps(m.rest.rest, "instance_label");
    FindSteps(m, "mounts");
    FindSteps(m.rest.rest, "mounts");
    FindSteps(m, "name");
    FindSteps(m.rest.rest, "name");
    FindSteps(m.rest.rest.rest.rest, "name");
    FindSteps(m, "resource_label");
    FindSteps(m.rest.rest, "resource_label");
    FindSteps(m.rest.rest.rest.rest, "resource_label");
  }

  /** A plan whose mounts the matchers can accept: distinct targets, and none in place of the scratch
      directory. `MountPlanning.PlannedTargets` says that a valid root layout gives such a plan. */
  predicate Mountable(p: Plan) {
    Distinct(MountPlanning.Targets(p.mounts)) && "/tmp" !in MountPlanning.Targets(p.mounts)
  }

  lemma GoodStatus(p: Plan, id: string, status: string, running: bool)
    ensures var v := InspectedAs(p, id, status, running);
            && Get(v, "state_oom_killed") == JBool(false)
            && (status == "running" && running ==> RunningPayload(v))
            && (status == "exited" && !running ==> ExitedPayload(v, 0))
  {
    StateFound(status, running);
    PayloadFound(p, id, status, running, "state_error");
    PayloadFound(p, id, status, running, "state_exit_code");
    PayloadFound(p, id, status, running, "state_oom_killed");
    PayloadFound(p, id, status, running, "state_running");
    PayloadFound(p, id, status, running, "state_status");
    hide Get, InspectedAs, StateMembers, Find;
  }

  lemma ZeroWait()
    ensures ParseWaitCode("0") == Some(0)
  {
    assert "0"[..0] == "";
  }

  /** Where that run stands after `k` results. */
  function GoodState(p: Plan, id: string, k: nat): Protocol
    requires k <= 11
  {
    var c := CleanupFor(p, id);
    match k
    case 0 => Idle(p)
    case 1 => Holding(Created(p, id, c, StartArgv(p, id)))
    case 2 => Holding(Started(p, id, c, ReadyArgv(p, id)))
    case 3 => Holding(Ready(p, id, c, ProofArgv(p, id)))
    case 4 =>
      Holding(match p.transport
              case DirectBind(_, expected) => MountVerified(p, id, c, InspectArgv(p, id), MountObjectIdentity, expected, [])
              case StagedCopy(_, expected) => MountVerified(p, id, c, InspectArgv(p, id), StagedManifest, [], expected))
    case 5 => Holding(Verified(p, id, c, ReleaseArgv(p, id), id))
    case 6 => Holding(Released(p, id, c, EngineCommand(p.engine, ["wait", id])))
    case 7 => Holding(Waited(p, id, c, InspectArgv(p, id), 0))
    case 8 => Holding(Stage.Exited(p, id, c, EngineCommand(p.engine, ["logs", id]), 0, false))
    case 9 => Holding(Captured(p, id, c, 0, "", ""))
    case 10 => Checking(c)
    case _ => Discharged(c)
  }

  lemma GoodCreate(p: Plan, id: string)
    requires IsContainerId(id)
    ensures Advance(GoodState(p, id, 0), GoodInputs(p, id)[0]) == GoodState(p, id, 1)
  {
    hide ResultFailure, Strip, NormalizedId, InspectedAs;
    GoodResult(p, Create, p.createArgv, id, None, STRICT);
    IdIsStripped(id);
  }

  lemma GoodControl(p: Plan, id: string, k: nat)
    requires IsContainerId(id) && k in {1, 2, 3, 5}
    ensures Advance(GoodState(p, id, k), GoodInputs(p, id)[k]) == GoodState(p, id, k + 1)
  {
    hide ResultFailure, IsContainerId, InspectedAs;
    var i := GoodInputs(p, id)[k].result;
    GoodResult(p, i.step, i.argv, "", None, STRICT);
  }

  lemma GoodInspect(p: Plan, id: string, k: nat)
    requires IsContainerId(id) && Mountable(p) && k in {4, 7}
    ensures Advance(GoodState(p, id, k), GoodInputs(p, id)[k]) == GoodState(p, id, k + 1)
  {
    hide ResultFailure, EngineCommand, InspectArgv, Get, NormalizedId, PlainName, RunningPayload, ExitedPayload, InspectedAs,
      StateMembers, IsContainerId, Mountable, MountMatching.HostAccepted, MountMatching.RuntimeAccepted;
    var step, status := if k == 4 then Inspect else FinalInspect, if k == 4 then "running" else "exited";
    var document := InspectedAs(p, id, status, k == 4);
    IsDictionary(p, id, status, k == 4);
    GoodResult(p, step, InspectArgv(p, id), "", Some(document), STRICT);
    GoodPayload(p, id, status, k == 4);
    GoodStatus(p, id, status, k == 4);
  }

  lemma IsDictionary(p: Plan, id: string, status: string, running: bool)
    ensures InspectedAs(p, id, status, running).JDict?
  {
  }

  lemma GoodWait(p: Plan, id: string)
    ensures Advance(GoodState(p, id, 6), GoodInputs(p, id)[6]) == GoodState(p, id, 7)
  {
    hide ResultFailure, EngineCommand, InspectArgv, ParseWaitCode;
    var i := GoodInputs(p, id)[6].result;
    GoodResult(p, i.step, i.argv, "0", None, STRICT);
    ZeroWait();
  }

  lemma GoodLogs(p: Plan, id: string)
    ensures Advance(GoodState(p, id, 8), GoodInputs(p, id)[8]) == GoodState(p, id, 9)
  {
    hide ResultFailure, EngineCommand;
    var i := GoodInputs(p, id)[8].result;
    GoodResult(p, i.step, i.argv, "", None, LOGS_STRICTNESS);
  }

  lemma GoodCleanup(p: Plan, id: string, k: nat)
    requires k in {9, 10}
    ensures Advance(GoodState(p, id, k), GoodInputs(p, id)[k]) == GoodState(p, id, k + 1)
  {
    hide ResultFailure, EngineCommand;
    var i := GoodInputs(p, id)[10].result;
    GoodResult(p, i.step, i.argv, "", None, QUIET);
  }

  lemma {:induction false} GoodRun(p: Plan, id: string, k: nat)
    requires IsContainerId(id) && Mountable(p) && k <= 11
    ensures StateAt(Idle(p), GoodInputs(p, id), k) == GoodState(p, id, k)
  {
    hide Advance, GoodState, GoodInputs, IsContainerId, Mountable;
    GoodStart(p, id);
    if k > 0 {
      GoodRun(p, id, k - 1);
      if k == 1 {
        GoodCreate(p, id);
      } else if k - 1 in {1, 2, 3, 5} {
        GoodControl(p, id, k - 1);
      } else if k - 1 in {4, 7} {
        GoodInspect(p, id, k - 1);
      } else if k == 7 {
        GoodWait(p, id);
      } else if k == 9 {
        GoodLogs(p, id);
      } else {
        GoodCleanup(p, id, k - 1);
      }
    }
  }

  lemma GoodStart(p: Plan, id: string)
    ensures |GoodInputs(p, id)| == 11 && GoodState(p, id, 0) == Idle(p)
  {
  }

  /** For every plan with mounts that can be matched, and every container, there is a run that goes
      through all stages and discharges the obligation: no check is beyond what an engine can answer. */
  lemma {:induction false} GoodRunDischarges(p: Plan, id: string)
    requires IsContainerId(id) && Mountable(p)
    ensures |GoodInputs(p, id)| == 11
    ensures StateAt(Idle(p), GoodInputs(p, id), 9) == Holding(Captured(p, id, CleanupFor(p, id), 0, "", ""))
    ensures StateAt(Idle(p), GoodInputs(p, id), 11) == Discharged(CleanupFor(p, id))
  {
    hide StateAt, GoodInputs;
    GoodRun(p, id, 9);
    GoodRun(p, id, 11);
  }

  predicate Ended(s: Protocol) {
    s.Recovering? || s.Uncorrelated? || s.StillOwed? || s.Discharged?
  }

  /** How many results a state can still take before it has ended. */
  function StepsLeft(s: Protocol): nat {
    match s
    case Idle(_) => 11
    case Holding(stage) => 10 - Order(stage)
    case Removing(_) => 2
    case Checking(_) => 1
    case _ => 0
  }

  lemma StepTaken(s: Protocol, i: Input)
    ensures StepsLeft(s) > 0 ==> StepsLeft(Advance(s, i)) < StepsLeft(s)
    ensures StepsLeft(s) == 0 <==> Ended(s)
  {
    hide ParseCreate, ParseStage, Order, AbsenceShown;
    if s.Idle? {
      CreateLeavesOne(s.plan, i);
      CreatedIsFirst(s.plan, i);
    }
    if s.Holding? {
      OrderRises(s.stage, i);
    }
  }

  lemma OrderRises(s: Stage, i: Input)
    ensures Order(s) <= 8 && (s.Captured? <==> Order(s) == 8)
    ensures !s.Captured? && ParseStage(s, i).Some? ==> Order(ParseStage(s, i).value) == Order(s) + 1
  {
    hide Strip, StaticMatch, RunningPayload, ExitedPayload, ParseWaitCode, Inspected, ResultFailure;
  }

  lemma CreatedIsFirst(p: Plan, i: Input)
    ensures ParseCreate(p, i).Holding? ==> Order(ParseCreate(p, i).stage) == 0
    ensures ParseCreate(p, i).Holding? || Ended(ParseCreate(p, i))
  {
  }

  /** Every run has ended after 11 results, whatever they are: a recovery obligation, the unresolved
      mark, the cleanup handed back, or the cleanup discharged. */
  lemma {:induction false} RunEnds(p: Plan, inputs: seq<Input>, k: nat)
    requires k <= |inputs|
    ensures StepsLeft(StateAt(Idle(p), inputs, k)) <= if k < 11 then 11 - k else 0
    ensures k >= 11 ==> Ended(StateAt(Idle(p), inputs, k))
  {
    hide Advance, Ended;
    if k > 0 {
      RunEnds(p, inputs, k - 1);
      StepTaken(StateAt(Idle(p), inputs, k - 1), inputs[k - 1]);
      EndsStay(StateAt(Idle(p), inputs, k - 1), inputs[k - 1]);
    }
    if k >= 11 {
      EndedAtZero(StateAt(Idle(p), inputs, k));
    }
  }

  lemma EndedAtZero(s: Protocol)
    ensures StepsLeft(s) == 0 <==> Ended(s)
  {
  }

  /** Release is reachable only behind four accepted answers for this container, in this order: start,
      gate readiness, the workspace proof, and an inspect that showed it running, owned and as planned,
      with exactly the planned mounts. */
  lemma ReleaseNeedsEveryProof(p: Plan, inputs: seq<Input>, k: nat)
    requires k <= |inputs| && StateAt(Idle(p), inputs, k).Holding? && Order(StateAt(Idle(p), inputs, k).stage) >= 5
    ensures k >= 6
    ensures var id := StateAt(Idle(p), inputs, k).stage.id;
            && inputs[1].result.argv == StartArgv(p, id) && inputs[1].result.exitCode == Some(0)
            && inputs[2].result.argv == ReadyArgv(p, id) && inputs[2].result.exitCode == Some(0)
            && inputs[3].result.argv == ProofArgv(p, id) && inputs[3].result.exitCode == Some(0)
            && (p.transport.DirectBind? ==>
                  inputs[3].seen.identities == Some(p.transport.identities) && inputs[3].seen.sourcesUnchanged)
            && (p.transport.StagedCopy? ==> inputs[3].result.stdout == "" && inputs[3].seen.stagingCurrent)
            && inputs[4].result.argv == InspectArgv(p, id) && inputs[4].result.exitCode == Some(0)
            && inputs[4].result.document.Some? && RunningPayload(inputs[4].result.document.value)
            && NormalizedId(Get(inputs[4].result.document.value, "id")) == Some(id)
            && Mountable(p)
            && MountMatching.MountsAsPlanned(p.mounts, Get(inputs[4].result.document.value, "host_mounts"),
                                             Get(inputs[4].result.document.value, "mounts"))
            && inputs[4].seen.policyMatches
            && inputs[5].result.argv == ReleaseArgv(p, id) && inputs[5].result.exitCode == Some(0)
  {
    hide Advance, ParseStage, StageValid, RunningPayload, NormalizedId, Get, Mountable, MountMatching.MountsAsPlanned;
    StagesAreEarned(p, inputs, k, 0);
    StagesAreEarned(p, inputs, k, 1);
    StagesAreEarned(p, inputs, k, 2);
    StagesAreEarned(p, inputs, k, 3);
    StagesAreEarned(p, inputs, k, 4);
    ProofAccepted(StateAt(Idle(p), inputs, 3).stage, inputs[3]);
    InspectAccepted(StateAt(Idle(p), inputs, 4).stage, inputs[4]);
  }

  lemma ProofAccepted(s: Stage, i: Input)
    requires s.Ready? && ParseStage(s, i).Some?
    ensures s.plan.transport.DirectBind? ==>
              i.seen.identities == Some(s.plan.transport.identities) && i.seen.sourcesUnchanged
    ensures s.plan.transport.StagedCopy? ==> i.result.stdout == "" && i.seen.stagingCurrent
  {
  }

  lemma InspectAccepted(s: Stage, i: Input)
    requires s.MountVerified? && ParseStage(s, i).Some?
    ensures i.result.document.Some? && RunningPayload(i.result.document.value)
    ensures NormalizedId(Get(i.result.document.value, "id")) == Some(s.id) && i.seen.policyMatches
    ensures Mountable(s.plan)
    ensures MountMatching.MountsAsPlanned(s.plan.mounts, Get(i.result.document.value, "host_mounts"),
                                          Get(i.result.document.value, "mounts"))
  {
    hide MountMatching.HostAccepted, MountMatching.RuntimeAccepted, ResultFailure, NormalizedId, RunningPayload;
    MountMatching.BothAcceptedIff(s.plan.mounts, Get(i.result.document.value, "host_mounts"),
                                  Get(i.result.document.value, "mounts"));
  }
}
