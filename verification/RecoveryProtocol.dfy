// The bounded recovery protocols: for a container whose creation is in doubt (from the live plan or
// from the journal's binding) and for a journalled volume. Each asks the engine which resource
// exists, inspects the one candidate, and hands out a cleanup only for a resource it owns.

module RecoveryProtocol {
  import opened JsonValues
  import opened Prelude
  import opened Numerals
  import opened Texts
  import opened CommandProtocol

  const QUERY_LIMIT := 10
  const RETRY_AFTER_NS := 500_000_000

  /** What is looked for. `Live` follows a create command of this process; the others are rebuilt from
      the journal after a restart. */
  datatype Target =
    | Live(originSequence: int, originFinished: int)
    | DurableContainer(cleanupOrdinal: int)
    | DurableVolume(root: int, absenceAllowed: bool)

  /** The attempt as the plan or the journal binding names it. */
  datatype Subject = Subject(engine: Engine, attemptId: string, volumeNames: seq<string>, runtimeImage: string)

  datatype Plan = Plan(
    subject: Subject,
    target: Target,
    queryOrdinal: int,
    queryId: CommandId,
    minimumSequence: int,
    notBefore: int,
    queryArgv: seq<string>,
    retryAfter: real)

  // ---- Commands ----

  function QueryStep(t: Target): Step {
    if t.Live? then RecoveryQuery else ResourceRecoveryQuery
  }

  function InspectStep(t: Target): Step {
    if t.Live? then RecoveryInspect else ResourceRecoveryInspect
  }

  /** One ordinal a query round, in ten consecutive ordinals a resource. */
  function CommandOrdinal(t: Target, queryOrdinal: int): int {
    match t
    case Live(_, _) => queryOrdinal
    case DurableContainer(cleanup) => (cleanup - 1) * QUERY_LIMIT + queryOrdinal
    case DurableVolume(root, _) => (2 + root) * QUERY_LIMIT + queryOrdinal
  }

  function ResourceName(s: Subject, t: Target): string {
    match t
    case Live(_, _) => "lca-" + s.attemptId
    case DurableContainer(cleanup) => "lca-" + s.attemptId + if cleanup == 1 then "" else "-prep"
    case DurableVolume(root, _) => if 0 <= root < |s.volumeNames| then s.volumeNames[root] else ""
  }

  function ResourceLabel(t: Target): string {
    match t
    case Live(_, _) => "execution"
    case DurableContainer(cleanup) => if cleanup == 1 then "execution" else "staging-prep"
    case DurableVolume(root, _) => if root >= 0 then "root-" + FourDigits(root) else ""
  }

  function QueryArgv(s: Subject, t: Target): seq<string> {
    match t
    case Live(_, _) =>
      EngineCommand(s.engine, ["ps", "--all", "--no-trunc", "--filter",
                               "label=io.local-agent.instance=" + s.attemptId, "--format", "{{json .ID}}"])
    case DurableContainer(_) =>
      EngineCommand(s.engine, ["ps", "--all", "--no-trunc", "--filter", "name=" + ResourceName(s, t),
                               "--format", "{{json .ID}}"])
    case DurableVolume(_, _) =>
      EngineCommand(s.engine, ["volume", "ls", "--filter", "name=" + ResourceName(s, t), "--format", "{{json .Name}}"])
  }

  // The two inspect templates are long constants; only that they are constants matters here.
  const CONTAINER_TEMPLATE := "{{container}}"
  const VOLUME_TEMPLATE := "{{volume}}"

  function InspectArgv(s: Subject, t: Target, found: string): seq<string> {
    if t.DurableVolume? then EngineCommand(s.engine, ["volume", "inspect", "--format", VOLUME_TEMPLATE, found])
    else EngineCommand(s.engine, ["inspect", "--type=container", "--format", CONTAINER_TEMPLATE, found])
  }

  function Query(p: Plan): Expected {
    Expected(p.subject.attemptId, QueryStep(p.target), CommandOrdinal(p.target, p.queryOrdinal), p.queryArgv,
             p.minimumSequence, p.notBefore)
  }

  function RetryDelay(queryOrdinal: int): real {
    if queryOrdinal == 1 then 0.0 else 0.5
  }

  /** The constructor checks of the three obligation and plan types. */
  predicate PlanValid(p: Plan) {
    && 1 <= p.queryOrdinal <= QUERY_LIMIT
    && p.queryId == CommandId(p.subject.attemptId, QueryStep(p.target), CommandOrdinal(p.target, p.queryOrdinal))
    && p.queryArgv == QueryArgv(p.subject, p.target)
    && p.retryAfter == RetryDelay(p.queryOrdinal)
    && match p.target
       case Live(sequence, finished) =>
         sequence >= 1 && finished >= 0 && p.minimumSequence > sequence && p.notBefore >= finished
       case DurableContainer(cleanup) => cleanup in {1, 2} && p.minimumSequence >= 1 && p.notBefore >= 0
       case DurableVolume(root, _) =>
         0 <= root < |p.subject.volumeNames| && p.minimumSequence >= 1 && p.notBefore >= 0
  }

  function FirstPlan(s: Subject, t: Target): Plan {
    Plan(s, t, 1, CommandId(s.attemptId, QueryStep(t), CommandOrdinal(t, 1)),
         if t.Live? then t.originSequence + 1 else 1,
         if t.Live? then t.originFinished else 0,
         QueryArgv(s, t), 0.0)
  }

  datatype Candidate = Candidate(
    plan: Plan, found: string, inspectId: CommandId, minimumSequence: int, notBefore: int, inspectArgv: seq<string>)

  predicate CandidateValid(c: Candidate) {
    && PlanValid(c.plan)
    && (if c.plan.target.DurableVolume? then c.found == ResourceName(c.plan.subject, c.plan.target)
        else IsContainerId(c.found))
    && c.inspectId == CommandId(c.plan.subject.attemptId, InspectStep(c.plan.target),
                                CommandOrdinal(c.plan.target, c.plan.queryOrdinal))
    && c.minimumSequence >= c.plan.minimumSequence
    && c.notBefore >= c.plan.notBefore
    && c.inspectArgv == InspectArgv(c.plan.subject, c.plan.target, c.found)
  }

  function Inspection(c: Candidate): Expected {
    Expected(c.plan.subject.attemptId, InspectStep(c.plan.target), CommandOrdinal(c.plan.target, c.plan.queryOrdinal),
             c.inspectArgv, c.minimumSequence, c.notBefore)
  }

  // ---- The parsers ----

  /** Where a recovery run stands. */
  datatype Stage =
    | Asking(plan: Plan)
    | Inspecting(candidate: Candidate)
    | CleanupOwed(plan: Plan, found: string)
    | AbsenceVerified(plan: Plan)
    | Unresolved(plan: Plan)

  function NextPlan(p: Plan, r: CommandResult): Plan {
    var ordinal := p.queryOrdinal + 1;
    p.(queryOrdinal := ordinal,
       queryId := CommandId(p.subject.attemptId, QueryStep(p.target), CommandOrdinal(p.target, ordinal)),
       minimumSequence := r.eventSequence + 1,
       notBefore := r.finished + RETRY_AFTER_NS,
       retryAfter := 0.5)
  }

  function RetryOrExhausted(p: Plan, r: CommandResult): Stage {
    if p.queryOrdinal == QUERY_LIMIT then Unresolved(p) else Asking(NextPlan(p, r))
  }

  function ObservedCandidate(p: Plan, r: CommandResult, found: string): Stage {
    Inspecting(Candidate(
      p, found,
      CommandId(p.subject.attemptId, InspectStep(p.target), CommandOrdinal(p.target, p.queryOrdinal)),
      r.eventSequence + 1, r.finished, InspectArgv(p.subject, p.target, found)))
  }

  const CONTAINER_OUTPUT_LIMIT := 4_096
  const VOLUME_OUTPUT_LIMIT := 16_384

  function ParseQuery(p: Plan, r: CommandResult, now: Now): Stage {
    var failure := ResultFailure(p.subject.engine, Query(p), STRICT, r, now);
    if failure.Some? then
      if Retryable(failure.value) then RetryOrExhausted(p, r) else Unresolved(p)
    else if p.target.DurableVolume? then ParseVolumeNames(p, r)
    else if r.stderr != "" || |r.stdout| > CONTAINER_OUTPUT_LIMIT then Unresolved(p)
    else if IsBlank(r.stdout) then RetryOrExhausted(p, r)
    else if r.lines.None? then Unresolved(p)
    else
      var ids := NormalizedIds(r.lines.value);
      if ids.None? || |ids.value| != 1 then Unresolved(p) else ObservedCandidate(p, r, ids.value[0])
  }

  function ParseVolumeNames(p: Plan, r: CommandResult): Stage {
    if r.stderr != "" || |r.stdout| > VOLUME_OUTPUT_LIMIT then Unresolved(p)
    else if r.stdout == "" then
      if p.target.DurableVolume? && p.target.absenceAllowed then AbsenceVerified(p) else RetryOrExhausted(p, r)
    else
      var name := ResourceName(p.subject, p.target);
      if r.lines != Some([JText(name)]) then Unresolved(p) else ObservedCandidate(p, r, name)
  }

  /** Whether an inspected payload belongs to this attempt and this resource. */
  predicate Owned(p: Plan, found: string, payload: Json) {
    match p.target
    case Live(_, _) =>
      && NormalizedId(Get(payload, "id")) == Some(found)
      && PlainName(Get(payload, "name")) == JText(ResourceName(p.subject, p.target))
      && Get(payload, "instance_label") == JText(p.subject.attemptId)
      && Get(payload, "resource_label") == JText(ResourceLabel(p.target))
    case DurableContainer(_) =>
      && NormalizedId(Get(payload, "id")) == Some(found)
      && PlainName(Get(payload, "name")) == JText(ResourceName(p.subject, p.target))
      && Get(payload, "instance_label") == JText(p.subject.attemptId)
      && Get(payload, "resource_label") == JText(ResourceLabel(p.target))
      && Get(payload, "config_image") == JText(p.subject.runtimeImage)
      && NormalizedId(Get(payload, "image_id")) == Some(WithoutDigestPrefix(p.subject.runtimeImage))
    case DurableVolume(_, _) =>
      match payload
      case JDict(Member("driver", driver, Member("labels", labels, Member("name", name,
                 Member("options", options, Member("scope", scope, End)))))) =>
        && driver == JText("local") && scope == JText("local")
        && name == JText(ResourceName(p.subject, p.target))
        && labels == JDict(Member("io.local-agent.instance", JText(p.subject.attemptId),
                           Member("io.local-agent.resource", JText(ResourceLabel(p.target)), End)))
        && options in {JNull, JDict(End)}
      case _ => false
  }

  function WithoutDigestPrefix(image: string): string {
    if |image| >= 7 && image[..7] == "sha256:" then image[7..] else image
  }

  const INSPECT_OUTPUT_LIMIT := 262_144

  function ParseInspect(c: Candidate, r: CommandResult, now: Now): Stage {
    var p := c.plan;
    var failure := ResultFailure(p.subject.engine, Inspection(c), STRICT, r, now);
    if failure.Some? then
      if Retryable(failure.value) then RetryOrExhausted(p, r) else Unresolved(p)
    else if r.stderr != "" then Unresolved(p)
    else if |r.stdout| > if p.target.DurableVolume? then VOLUME_OUTPUT_LIMIT else INSPECT_OUTPUT_LIMIT then
      Unresolved(p)
    else if r.document.None? || !r.document.value.JDict? then Unresolved(p)
    else if !Owned(p, c.found, r.document.value) then Unresolved(p)
    else CleanupOwed(p, c.found)
  }

  // ---- Runs ----

  datatype Input = Input(result: CommandResult, now: Now)

  predicate Final(s: Stage) {
    s.CleanupOwed? || s.AbsenceVerified? || s.Unresolved?
  }

  function Advance(s: Stage, i: Input): Stage {
    match s
    case Asking(p) => ParseQuery(p, i.result, i.now)
    case Inspecting(c) => ParseInspect(c, i.result, i.now)
    case _ => s
  }

  /** The recovery loop of the runtime, fed with whatever results the engine gives. */
  function Run(s: Stage, inputs: seq<Input>): Stage
    decreases |inputs|
  {
    if inputs == [] then s else Run(Advance(s, inputs[0]), inputs[1..])
  }

  predicate StageValid(s: Stage) {
    match s
    case Inspecting(c) => CandidateValid(c)
    case _ => PlanValid(s.plan)
  }

  function PlanOf(s: Stage): Plan {
    if s.Inspecting? then s.candidate.plan else s.plan
  }

  lemma NextPlanValid(p: Plan, r: CommandResult)
    requires PlanValid(p) && ResultValid(r) && p.queryOrdinal < QUERY_LIMIT
    requires r.eventSequence >= p.minimumSequence && r.started >= p.notBefore
    ensures PlanValid(NextPlan(p, r))
  {
  }

  lemma ObservedValid(p: Plan, r: CommandResult, found: string)
    requires PlanValid(p) && ResultValid(r) && r.eventSequence >= p.minimumSequence && r.started >= p.notBefore
    requires if p.target.DurableVolume? then found == ResourceName(p.subject, p.target) else IsContainerId(found)
    ensures CandidateValid(ObservedCandidate(p, r, found).candidate)
  {
  }

  lemma SoleIdIsId(vs: seq<Json>)
    requires NormalizedIds(vs).Some? && |NormalizedIds(vs).value| == 1
    ensures IsContainerId(NormalizedIds(vs).value[0])
    ensures |vs| == 1 && NormalizedId(vs[0]) == Some(NormalizedIds(vs).value[0])
  {
  }

  /** Everything the parsers build passes its constructor: no `ValueError` can leave the protocol, and
      a run never changes what it is looking for. */
  lemma AdvanceKeepsValid(s: Stage, i: Input)
    requires StageValid(s) && ResultValid(i.result)
    ensures StageValid(Advance(s, i))
    ensures PlanOf(Advance(s, i)).subject == PlanOf(s).subject && PlanOf(Advance(s, i)).target == PlanOf(s).target
  {
    hide PlanValid, QueryArgv, InspectArgv, ResourceName, CommandOrdinal, Owned, IsBlank, NormalizedIds, IsContainerId;
    var p, r := PlanOf(s), i.result;
    if p.queryOrdinal != QUERY_LIMIT && r.eventSequence >= p.minimumSequence && r.started >= p.notBefore {
      OrdinalBelowLimit(p);
      NextPlanValid(p, r);
    }
    if s.Asking? && Advance(s, i).Inspecting? {
      if !p.target.DurableVolume? {
        SoleIdIsId(r.lines.value);
      }
      ObservedValid(p, r, Advance(s, i).candidate.found);
    }
  }

  lemma OrdinalBelowLimit(p: Plan)
    requires PlanValid(p)
    ensures 1 <= p.queryOrdinal <= QUERY_LIMIT
  {
  }

  /** The event sequence and the time before which no result is accepted. */
  function Boundary(s: Stage): (int, int) {
    if s.Inspecting? then (s.candidate.minimumSequence, s.candidate.notBefore)
    else (s.plan.minimumSequence, s.plan.notBefore)
  }

  /** The result answers the command that the stage waits for, and does so in time. */
  predicate Accepted(s: Stage, r: CommandResult) {
    !Final(s) &&
    var x := if s.Inspecting? then Inspection(s.candidate) else Query(s.plan);
    && r.attemptId == x.attemptId && r.commandId == CommandId(x.attemptId, x.step, x.ordinal)
    && r.step == x.step && r.argv == x.argv
    && r.eventSequence >= Boundary(s).0 && r.started >= Boundary(s).1
  }

  function Remaining(s: Stage): int {
    match s
    case Asking(p) => 2 * (QUERY_LIMIT - p.queryOrdinal) + 2
    case Inspecting(c) => 2 * (QUERY_LIMIT - c.plan.queryOrdinal) + 1
    case _ => 0
  }

  /** One result either ends the run or is accepted, moves both boundaries forward and uses up a turn. */
  lemma AdvanceProgresses(s: Stage, i: Input)
    requires !Final(s) && StageValid(s) && ResultValid(i.result)
    ensures var t := Advance(s, i);
            Final(t) ||
              (&& Accepted(s, i.result)
               && Remaining(t) < Remaining(s)
               && Boundary(t).0 == i.result.eventSequence + 1 > Boundary(s).0
               && Boundary(t).1 == i.result.finished + (if t.Asking? then RETRY_AFTER_NS else 0)
               && Boundary(t).1 >= Boundary(s).1
                    + (PlanOf(t).queryOrdinal - PlanOf(s).queryOrdinal) * RETRY_AFTER_NS
               && PlanOf(t).queryOrdinal == PlanOf(s).queryOrdinal + (if t.Asking? then 1 else 0))
  {
    hide PlanValid, QueryArgv, InspectArgv, ResourceName, Owned, IsBlank, NormalizedIds, IsContainerId, CommandOrdinal;
    OrdinalBelowLimit(PlanOf(s));
  }

  predicate AllValid(inputs: seq<Input>) {
    forall i :: 0 <= i < |inputs| ==> ResultValid(inputs[i].result)
  }

  /** Whatever the engine answers, a run is over after at most ten query rounds of two results each. */
  lemma {:induction false} RunTerminates(s: Stage, inputs: seq<Input>)
    requires StageValid(s) && AllValid(inputs) && |inputs| >= Remaining(s)
    ensures Final(Run(s, inputs))
    ensures s.Asking? && s.plan.queryOrdinal == 1 ==> Remaining(s) == 2 * QUERY_LIMIT
    decreases |inputs|
  {
    hide StageValid, Advance;
    RemainingPositive(s);
    if inputs != [] {
      AdvanceKeepsValid(s, inputs[0]);
      if !Final(s) {
        AdvanceProgresses(s, inputs[0]);
      } else {
        FinalStays(s, inputs[0]);
      }
      RemainingPositive(Advance(s, inputs[0]));
      RunTerminates(Advance(s, inputs[0]), inputs[1..]);
    }
  }

  lemma RemainingPositive(s: Stage)
    requires StageValid(s)
    ensures if Final(s) then Remaining(s) == 0 else Remaining(s) > 0
  {
    OrdinalBelowLimit(PlanOf(s));
  }

  lemma FinalStays(s: Stage, i: Input)
    requires Final(s)
    ensures Advance(s, i) == s
  {
  }

  function StageAt(s: Stage, inputs: seq<Input>, k: nat): Stage
    requires k <= |inputs|
  {
    if k == 0 then s else Advance(StageAt(s, inputs, k - 1), inputs[k - 1])
  }

  lemma {:induction false} RunIsStageAt(s: Stage, inputs: seq<Input>, k: nat)
    requires k <= |inputs|
    ensures Run(StageAt(s, inputs, k), inputs[k..]) == Run(s, inputs)
  {
    hide Advance;
    if k > 0 {
      RunIsStageAt(s, inputs, k - 1);
      assert inputs[k - 1..][1..] == inputs[k..];
    } else {
      assert inputs[0..] == inputs;
    }
  }

  lemma {:induction false} StageAtValid(s: Stage, inputs: seq<Input>, k: nat)
    requires StageValid(s) && AllValid(inputs) && k <= |inputs|
    ensures StageValid(StageAt(s, inputs, k))
    ensures PlanOf(StageAt(s, inputs, k)).subject == PlanOf(s).subject
    ensures PlanOf(StageAt(s, inputs, k)).target == PlanOf(s).target
  {
    hide Advance, StageValid;
    if k > 0 {
      StageAtValid(s, inputs, k - 1);
      AdvanceKeepsValid(StageAt(s, inputs, k - 1), inputs[k - 1]);
    }
  }

  /** Along the whole chain of retries: a stage reached after result `i` accepts only later event
      sequences, and each further query round starts at least half a second later still. */
  lemma {:induction false} BoundariesAdvance(s: Stage, inputs: seq<Input>, i: nat, j: nat)
    requires StageValid(s) && AllValid(inputs) && i < j <= |inputs|
    requires !Final(StageAt(s, inputs, j))
    ensures !Final(StageAt(s, inputs, i)) && Accepted(StageAt(s, inputs, i), inputs[i].result)
    ensures Boundary(StageAt(s, inputs, j)).0 > inputs[i].result.eventSequence >= Boundary(StageAt(s, inputs, i)).0
    ensures Boundary(StageAt(s, inputs, j)).1 >= inputs[i].result.finished
              + (PlanOf(StageAt(s, inputs, j)).queryOrdinal - PlanOf(StageAt(s, inputs, i)).queryOrdinal) * RETRY_AFTER_NS
    ensures PlanOf(StageAt(s, inputs, j)).queryOrdinal >= PlanOf(StageAt(s, inputs, i)).queryOrdinal
    decreases j
  {
    hide Advance, StageValid;
    var before := StageAt(s, inputs, j - 1);
    StageAtValid(s, inputs, j - 1);
    if Final(before) {
      FinalStays(before, inputs[j - 1]);
    } else {
      AdvanceProgresses(before, inputs[j - 1]);
      if i < j - 1 {
        BoundariesAdvance(s, inputs, i, j - 1);
      }
    }
  }

  /** A result that a run has consumed is never accepted by it again. */
  lemma ConsumedNeverAccepted(s: Stage, inputs: seq<Input>, i: nat, j: nat)
    requires StageValid(s) && AllValid(inputs) && i < j <= |inputs|
    ensures !Accepted(StageAt(s, inputs, j), inputs[i].result)
  {
    if !Final(StageAt(s, inputs, j)) {
      BoundariesAdvance(s, inputs, i, j);
    }
  }

  /** A query accepted as a retry was started at least 500 ms after the result that caused it. */
  lemma RetriesArePaced(s: Stage, inputs: seq<Input>, i: nat, r: CommandResult)
    requires StageValid(s) && AllValid(inputs) && i < |inputs|
    requires StageAt(s, inputs, i + 1).Asking? && Accepted(StageAt(s, inputs, i + 1), r)
    ensures r.started >= inputs[i].result.finished + 500_000_000
    ensures r.eventSequence > inputs[i].result.eventSequence
  {
    hide Advance, StageValid;
    StageAtValid(s, inputs, i);
    if Final(StageAt(s, inputs, i)) {
      FinalStays(StageAt(s, inputs, i), inputs[i]);
    } else {
      AdvanceProgresses(StageAt(s, inputs, i), inputs[i]);
    }
  }

  /** An answer that counts: in time, correlated, exit status 0, complete, and silent on stderr. */
  predicate CleanAnswer(s: Stage, r: CommandResult) {
    Accepted(s, r) && r.outcome.Exited? && r.exitCode == Some(0) && r.complete && r.stderr == ""
  }

  /** A cleanup is handed out only for the one resource that a clean query named and that a clean
      inspect, started after it, showed to be owned by this attempt. */
  lemma {:induction false} CleanupIsEarned(s: Stage, inputs: seq<Input>)
    requires s.Asking? && StageValid(s) && AllValid(inputs) && Run(s, inputs).CleanupOwed?
    ensures exists k: nat :: 0 < k < |inputs|
              && StageAt(s, inputs, k - 1).Asking? && CleanAnswer(StageAt(s, inputs, k - 1), inputs[k - 1].result)
              && Names(s.plan, inputs[k - 1].result, Run(s, inputs).found)
              && StageAt(s, inputs, k).Inspecting? && CleanAnswer(StageAt(s, inputs, k), inputs[k].result)
              && inputs[k].result.document.Some?
              && Owned(s.plan, Run(s, inputs).found, inputs[k].result.document.value)
              && inputs[k].result.started >= inputs[k - 1].result.finished
  {
    RunIsStageAt(s, inputs, |inputs|);
    assert inputs[|inputs|..] == [];
    CleanupStep(s, inputs, |inputs|);
  }

  /** The query output names exactly one resource. */
  predicate Names(p: Plan, r: CommandResult, found: string) {
    if p.target.DurableVolume? then r.lines == Some([JText(found)]) && found == ResourceName(p.subject, p.target)
    else r.lines.Some? && |r.lines.value| == 1 && NormalizedId(r.lines.value[0]) == Some(found)
  }

  lemma {:induction false} CleanupStep(s: Stage, inputs: seq<Input>, n: nat)
    requires s.Asking? && StageValid(s) && AllValid(inputs) && n <= |inputs| && StageAt(s, inputs, n).CleanupOwed?
    ensures exists k: nat :: 0 < k < n
              && StageAt(s, inputs, k - 1).Asking? && CleanAnswer(StageAt(s, inputs, k - 1), inputs[k - 1].result)
              && Names(s.plan, inputs[k - 1].result, StageAt(s, inputs, n).found)
              && StageAt(s, inputs, k).Inspecting? && CleanAnswer(StageAt(s, inputs, k), inputs[k].result)
              && inputs[k].result.document.Some?
              && Owned(s.plan, StageAt(s, inputs, n).found, inputs[k].result.document.value)
              && inputs[k].result.started >= inputs[k - 1].result.finished
    decreases n
  {
    hide Advance, StageValid, CleanAnswer, Names, Owned;
    var k := n - 1;
    var before := StageAt(s, inputs, k);
    if before.CleanupOwed? {
      FinalStays(before, inputs[k]);
      CleanupStep(s, inputs, k);
    } else {
      assert StageAt(s, inputs, n) == Advance(before, inputs[k]);
      StageAtValid(s, inputs, k);
      OnlyInspectionOwes(before, inputs[k]);
      assert k > 0 && before == Advance(StageAt(s, inputs, k - 1), inputs[k - 1]);
      StageAtValid(s, inputs, k - 1);
      OnlyQueryObserves(StageAt(s, inputs, k - 1), inputs[k - 1]);
      OwnedIsOfTarget(s.plan, before.candidate.plan, before.candidate.found);
      assert Names(s.plan, inputs[k - 1].result, StageAt(s, inputs, n).found);
    }
  }

  lemma OwnedIsOfTarget(a: Plan, b: Plan, found: string)
    requires a.subject == b.subject && a.target == b.target
    ensures forall v :: Owned(a, found, v) == Owned(b, found, v)
    ensures forall r :: Names(a, r, found) == Names(b, r, found)
  {
  }

  lemma OnlyInspectionOwes(s: Stage, i: Input)
    requires Advance(s, i).CleanupOwed? && !s.CleanupOwed?
    ensures s.Inspecting? && CleanAnswer(s, i.result) && Advance(s, i).found == s.candidate.found
    ensures i.result.document.Some? && Owned(s.candidate.plan, s.candidate.found, i.result.document.value)
    ensures Advance(s, i).plan == s.candidate.plan && i.result.started >= s.candidate.notBefore
  {
    hide Owned;
  }

  lemma OnlyQueryObserves(s: Stage, i: Input)
    requires Advance(s, i).Inspecting? && StageValid(s)
    ensures s.Asking? && CleanAnswer(s, i.result)
    ensures Names(s.plan, i.result, Advance(s, i).candidate.found)
    ensures Advance(s, i).candidate.notBefore == i.result.finished && Advance(s, i).candidate.plan == s.plan
  {
    if s.Asking? && !s.plan.target.DurableVolume? && NormalizedIds(i.result.lines.value).Some? {
      SoleIdIsId(i.result.lines.value);
    }
  }

  /** Nothing is wrong with a result, it is silent on stderr and not over long. */
  predicate Sound(p: Plan, x: Expected, r: CommandResult, now: Now, limit: int) {
    ResultFailure(p.subject.engine, x, STRICT, r, now).None? && r.stderr == "" && |r.stdout| <= limit
  }

  /** A query leads to an inspect exactly when its answer is sound, not empty, and names one resource,
      for a volume the journalled one; and it leads to the inspect of that resource. */
  lemma QueryObservesIff(p: Plan, i: Input, found: string)
    ensures Advance(Asking(p), i) == ObservedCandidate(p, i.result, found) <==>
      && Sound(p, Query(p), i.result, i.now, if p.target.DurableVolume? then VOLUME_OUTPUT_LIMIT else CONTAINER_OUTPUT_LIMIT)
      && (if p.target.DurableVolume? then i.result.stdout != "" else !IsBlank(i.result.stdout))
      && Names(p, i.result, found)
  {
    hide ResultFailure, IsBlank, NormalizedId, ResourceName, InspectArgv, Query;
    var lines := i.result.lines;
    if lines.Some? && NormalizedIds(lines.value).Some? && |NormalizedIds(lines.value).value| == 1 {
      SoleIdIsId(lines.value);
    }
    if lines.Some? && |lines.value| == 1 {
      OneId(lines.value);
    }
  }

  lemma OneId(vs: seq<Json>)
    requires |vs| == 1
    ensures NormalizedIds(vs) == match NormalizedId(vs[0])
                                 case None => None
                                 case Some(id) => Some([id])
  {
    assert vs[1..] == [] && NormalizedIds(vs[1..]) == Some([]);
    if NormalizedId(vs[0]).Some? {
      assert [NormalizedId(vs[0]).value] + [] == [NormalizedId(vs[0]).value];
    }
  }

  /** An inspect leads to a cleanup exactly when its answer is sound and shows the resource owned. */
  lemma InspectOwesIff(c: Candidate, i: Input)
    ensures Advance(Inspecting(c), i) == CleanupOwed(c.plan, c.found) <==>
      && Sound(c.plan, Inspection(c), i.result, i.now,
               if c.plan.target.DurableVolume? then VOLUME_OUTPUT_LIMIT else INSPECT_OUTPUT_LIMIT)
      && i.result.document.Some? && i.result.document.value.JDict?
      && Owned(c.plan, c.found, i.result.document.value)
  {
    hide ResultFailure, Owned, Inspection;
  }

  /** Asking again is possible exactly below the limit, after a command that did not exit or exited
      non-zero, or after a sound empty query answer where absence may not be concluded. */
  lemma RetryIff(s: Stage, i: Input)
    requires !Final(s)
    ensures var p := PlanOf(s);
            var x := if s.Inspecting? then Inspection(s.candidate) else Query(s.plan);
            var failure := ResultFailure(p.subject.engine, x, STRICT, i.result, i.now);
            Advance(s, i) == Asking(NextPlan(p, i.result)) <==>
              && p.queryOrdinal != QUERY_LIMIT
              && ((failure.Some? && Retryable(failure.value))
                  || (&& s.Asking?
                      && Sound(p, x, i.result, i.now, if p.target.DurableVolume? then VOLUME_OUTPUT_LIMIT else CONTAINER_OUTPUT_LIMIT)
                      && if p.target.DurableVolume? then i.result.stdout == "" && !p.target.absenceAllowed
                         else IsBlank(i.result.stdout)))
  {
    hide ResultFailure, IsBlank, NormalizedIds, Owned, Inspection, Query, ResourceName;
  }

  /** What counts as an empty query answer: blank output for a container, none at all for a volume. */
  predicate EmptyAnswer(t: Target, r: CommandResult) {
    if t.DurableVolume? then r.stdout == "" else IsBlank(r.stdout)
  }

  /** Empty answers prove nothing: however many a run gets, it never owes a cleanup and never calls a
      container absent; a volume is called absent only if the plan was built with `absenceAllowed`. */
  lemma {:induction false} EmptyAnswersProveNothing(s: Stage, inputs: seq<Input>)
    requires s.Asking? || s.Unresolved?
    requires forall i :: 0 <= i < |inputs| ==> EmptyAnswer(s.plan.target, inputs[i].result)
    ensures var t := Run(s, inputs);
            t.Asking? || t.Unresolved? ||
              (t.AbsenceVerified? && s.plan.target.DurableVolume? && s.plan.target.absenceAllowed)
    decreases |inputs|
  {
    if inputs != [] {
      hide IsBlank;
      var t := Advance(s, inputs[0]);
      if t.AbsenceVerified? {
        FinalRun(t, inputs[1..]);
      } else {
        EmptyAnswersProveNothing(t, inputs[1..]);
      }
    }
  }

  lemma {:induction false} FinalRun(s: Stage, inputs: seq<Input>)
    requires Final(s)
    ensures Run(s, inputs) == s
    decreases |inputs|
  {
    if inputs != [] {
      FinalStays(s, inputs[0]);
      FinalRun(s, inputs[1..]);
    }
  }

  /** Over any run whatever: absence is answered only for a volume whose plan allows it, and then on a
      clean, empty query answer. */
  lemma {:induction false} AbsenceIsEarned(s: Stage, inputs: seq<Input>, n: nat)
    requires s.Asking? && StageValid(s) && AllValid(inputs) && n <= |inputs| && StageAt(s, inputs, n).AbsenceVerified?
    ensures s.plan.target.DurableVolume? && s.plan.target.absenceAllowed
    ensures exists k: nat :: k < n && CleanAnswer(StageAt(s, inputs, k), inputs[k].result) && inputs[k].result.stdout == ""
    decreases n
  {
    hide StageValid, Advance, CleanAnswer;
    var before := StageAt(s, inputs, n - 1);
    StageAtValid(s, inputs, n - 1);
    if before.AbsenceVerified? {
      FinalStays(before, inputs[n - 1]);
      AbsenceIsEarned(s, inputs, n - 1);
    } else {
      OnlyQueryShowsAbsence(before, inputs[n - 1]);
    }
  }

  lemma OnlyQueryShowsAbsence(s: Stage, i: Input)
    requires Advance(s, i).AbsenceVerified? && !s.AbsenceVerified?
    ensures s.Asking? && s.plan.target.DurableVolume? && s.plan.target.absenceAllowed
    ensures CleanAnswer(s, i.result) && i.result.stdout == ""
  {
    hide Owned, IsBlank, NormalizedIds;
  }

  // ---- A healthy engine ----

  /** What a run can settle: a resource that is there by finding it, one that is not only where the plan
      allows its absence. */
  predicate Settles(t: Target, there: bool) {
    there || (t.DurableVolume? && t.absenceAllowed)
  }

  /** A sound and truthful answer: a query names the resource that is there, or nothing, and an inspect
      shows it owned. */
  predicate TrueAnswer(s: Stage, i: Input, there: Option<string>) {
    match s
    case Asking(p) =>
      && Sound(p, Query(p), i.result, i.now, if p.target.DurableVolume? then VOLUME_OUTPUT_LIMIT else CONTAINER_OUTPUT_LIMIT)
      && if there.Some? then !EmptyAnswer(p.target, i.result) && Names(p, i.result, there.value)
         else EmptyAnswer(p.target, i.result)
    case Inspecting(c) =>
      && Sound(c.plan, Inspection(c), i.result, i.now,
               if c.plan.target.DurableVolume? then VOLUME_OUTPUT_LIMIT else INSPECT_OUTPUT_LIMIT)
      && i.result.document.Some? && i.result.document.value.JDict?
      && Owned(c.plan, c.found, i.result.document.value)
    case _ => true
  }

  predicate AllTrue(s: Stage, inputs: seq<Input>, there: Option<string>)
    decreases |inputs|
  {
    inputs == [] || (TrueAnswer(s, inputs[0], there) && AllTrue(Advance(s, inputs[0]), inputs[1..], there))
  }

  /** With a healthy engine a run hands out the cleanup of what is there; of what is not there it says so
      only where the plan allows it; and otherwise, after ten empty answers, it ends unresolved. */
  lemma {:induction false} HealthyRunSettles(s: Stage, inputs: seq<Input>, there: Option<string>)
    requires s.Asking? && StageValid(s) && AllValid(inputs) && |inputs| >= Remaining(s)
    requires AllTrue(s, inputs, there)
    ensures Final(Run(s, inputs))
    ensures Run(s, inputs).CleanupOwed? <==> there.Some?
    ensures there.Some? ==> Run(s, inputs).found == there.value
    ensures Run(s, inputs).Unresolved? <==> !Settles(s.plan.target, there.Some?)
    decreases |inputs|
  {
    hide StageValid, ResultFailure, IsBlank, Owned, Names, ObservedCandidate;
    RemainingPositive(s);
    var t := Advance(s, inputs[0]);
    if there.Some? {
      FoundIsOwed(s, inputs, there.value);
    } else {
      EmptyAnswerSteps(s.plan, inputs[0]);
      if t.Asking? {
        AdvanceKeepsValid(s, inputs[0]);
        HealthyRunSettles(t, inputs[1..], there);
      } else {
        FinalRun(t, inputs[1..]);
      }
    }
  }

  lemma EmptyAnswerSteps(p: Plan, i: Input)
    requires TrueAnswer(Asking(p), i, None)
    ensures Advance(Asking(p), i) ==
              if Settles(p.target, false) then AbsenceVerified(p)
              else if p.queryOrdinal == QUERY_LIMIT then Unresolved(p)
              else Asking(NextPlan(p, i.result))
  {
    hide ResultFailure, IsBlank;
  }

  lemma {:induction false} FoundIsOwed(s: Stage, inputs: seq<Input>, found: string)
    requires s.Asking? && |inputs| >= 2 && AllTrue(s, inputs, Some(found))
    ensures Run(s, inputs) == CleanupOwed(s.plan, found)
  {
    hide ResultFailure, IsBlank, Owned, Names;
    QueryObservesIff(s.plan, inputs[0], found);
    var observed := Advance(s, inputs[0]);
    assert inputs[1..][0] == inputs[1] && inputs[1..][1..] == inputs[2..];
    InspectOwesIff(observed.candidate, inputs[1]);
    FinalRun(Advance(observed, inputs[1]), inputs[2..]);
    assert Run(s, inputs) == Run(observed, inputs[1..]);
  }

  // ---- Correlation ----

  predicate DurableTargetValid(t: Target) {
    match t
    case Live(_, _) => false
    case DurableContainer(cleanup) => cleanup in {1, 2}
    case DurableVolume(root, _) => root >= 0
  }

  /** Which resource an ordinal belongs to: 0 for execution, 1 for prep, `2 + root` for a volume. */
  function ResourceIndex(t: Target): int
    requires DurableTargetValid(t)
  {
    match t
    case DurableContainer(cleanup) => cleanup - 1
    case DurableVolume(root, _) => 2 + root
  }

  /** The ordinals of all resources of an attempt are pairwise disjoint, and an ordinal decodes to its
      resource and its query round. */
  lemma OrdinalDecodes(t: Target, q: int)
    requires DurableTargetValid(t) && 1 <= q <= QUERY_LIMIT
    ensures (CommandOrdinal(t, q) - 1) / QUERY_LIMIT == ResourceIndex(t)
    ensures (CommandOrdinal(t, q) - 1) % QUERY_LIMIT + 1 == q
  {
    assert CommandOrdinal(t, q) - 1 == ResourceIndex(t) * QUERY_LIMIT + (q - 1);
  }

  /** No two recovery queries of one attempt, for whatever resources and rounds, share a command id. */
  lemma RecoveryQueriesAreDistinct(a: Plan, b: Plan)
    requires PlanValid(a) && PlanValid(b) && !a.target.Live? && !b.target.Live?
    requires a.queryId == b.queryId
    ensures a.subject.attemptId == b.subject.attemptId && a.queryOrdinal == b.queryOrdinal
    ensures ResourceIndex(a.target) == ResourceIndex(b.target)
  {
    OrdinalDecodes(a.target, a.queryOrdinal);
    OrdinalDecodes(b.target, b.queryOrdinal);
  }
}
