// Everything that outlives the process: the staging root, its journal and the container resources
// that exist or have been asked for, with the steps by which the staging code and the container runtime change it.
// A crash may strike between any two steps, so every world on a run is a possible crash state.

module StagingWorld {
  import opened Prelude
  import opened FileIdentities
  import opened Paths
  import opened StagingRecords

  datatype Resource = PrepContainer | Volume(ordinal: nat) | ExecutionContainer

  /** An attempt directory: its identity, its change time, and how many objects are left directly in
      it and deeper down. Only direct changes move its change time. */
  datatype Attempt = Attempt(identity: RootIdentity, changed: nat, direct: nat, nested: nat)

  /** A journal file: its record and its file version. No two versions of any file are equal. */
  datatype Cell = Cell(record: Record, version: nat)

  datatype World = World(
    clock: nat,
    root: Path,
    rootIdentity: RootIdentity,
    rootChanged: nat,
    attempts: map<string, Attempt>,
    journal: map<string, Cell>,
    strays: nat,                    // journal names that are not `<attempt>.json`, such as a `.tmp`
    pending: set<Resource>,         // asked for, and neither confirmed nor seen since
    present: set<Resource>)         // really there
  {
    /** What has to be treated as existing: a pending creation can take effect at any later time. */
    function MayExist(): set<Resource> {
      pending + present
    }
  }

  function RootPathIdentity(w: World): DirectoryIdentity {
    AtTime(w.rootIdentity, w.rootChanged)
  }

  function AttemptPathIdentity(w: World, id: string): DirectoryIdentity
    requires id in w.attempts
  {
    AtTime(w.attempts[id].identity, w.attempts[id].changed)
  }

  /** Both path identities of a record match the directories as they are now. */
  predicate PathsCurrent(w: World, r: Record) {
    && r.authorityRoot == w.root
    && r.authorityPathIdentity == RootPathIdentity(w)
    && (r.attemptPathIdentity.Some? ==>
          r.attemptId in w.attempts && r.attemptPathIdentity.value == AttemptPathIdentity(w, r.attemptId))
  }

  predicate Empty(w: World) {
    w.attempts == map[] && w.journal == map[] && w.strays == 0 && w.MayExist() == {}
  }

  const CONTAINER_POSSIBLE: set<State> := {CreatePossible, ExecutionCreatePossible, ExecutionAbsent}

  /** The resources that the runtime asks the engine to create in a journal state. */
  predicate Issuable(r: Record, resource: Resource) {
    match resource
    case PrepContainer => r.state.CreatePossible?
    case Volume(i) => r.state.CreatePossible? && r.container.Some? && i < |r.container.value.volumeNames|
    case ExecutionContainer => r.state.ExecutionCreatePossible?
  }

  /** The resources that can still exist in a journal state. */
  predicate Creatable(r: Record, resource: Resource) {
    match resource
    case PrepContainer => r.state.CreatePossible?
    case Volume(i) => r.state in CONTAINER_POSSIBLE && r.container.Some? && i < |r.container.value.volumeNames|
    case ExecutionContainer => r.state.ExecutionCreatePossible?
  }

  // ---- Steps ----

  ghost predicate StrayStep(w: World, w': World) {
    w' == w.(strays := w'.strays, clock := w.clock + 1)
  }

  /** `os.link` of a first record into an empty authority. */
  ghost predicate ReserveStep(w: World, w': World, r: Record) {
    && w.attempts == map[] && w.journal == map[]
    && RecordValid(r) && r.state.Reserved?
    && PathsCurrent(w, r) && r.authorityIdentity == w.rootIdentity
    && w' == w.(journal := map[r.attemptId := Cell(r, w.clock)], clock := w.clock + 1)
  }

  /** What the container runtime owes before a state may be recorded: settled creations and proved absences. */
  predicate AbsenceProved(w: World, s: State) {
    match s
    case ExecutionCreatePossible => PrepContainer !in w.present && w.pending == {}
    case ExecutionAbsent => ExecutionContainer !in w.MayExist()
    case ContainerAbsent => w.MayExist() == {}
    case _ => true
  }

  /** `os.replace` of an attempt's record by a valid successor; it consumes the temporary file. */
  ghost predicate ReplaceStep(w: World, w': World, r: Record) {
    && r.attemptId in w.journal && w.strays > 0
    && TransitionValid(w.journal[r.attemptId].record, r) && RecordValid(r)
    && PathsCurrent(w, r)
    && (w.journal[r.attemptId].record.state.Reserved? ==>
          r.attemptIdentity == Some(w.attempts[r.attemptId].identity))
    && AbsenceProved(w, r.state)
    && w' == w.(journal := w.journal[r.attemptId := Cell(r, w.clock)], strays := w.strays - 1, clock := w.clock + 1)
  }

  ghost predicate MakeAttemptStep(w: World, w': World, id: string, identity: RootIdentity) {
    && id in w.journal && w.journal[id].record.state.Reserved? && w.attempts == map[]
    && RootIdentityValid(identity)
    && w' == w.(attempts := map[id := Attempt(identity, w.clock, 0, 0)], rootChanged := w.clock, clock := w.clock + 1)
  }

  /** Staged content arrives in the attempt directory. */
  ghost predicate PopulateStep(w: World, w': World, id: string, attempt: Attempt) {
    && id in w.attempts && id in w.journal && w.journal[id].record.state.Allocated?
    && attempt.identity == w.attempts[id].identity
    && attempt.changed == (if attempt.direct == w.attempts[id].direct then w.attempts[id].changed else w.clock)
    && w' == w.(attempts := w.attempts[id := attempt], clock := w.clock + 1)
  }

  predicate Removable(w: World, id: string) {
    && id in w.attempts && id in w.journal
    && w.journal[id].record.state in {Reserved, Allocated, Prepared, CleanupStarted}
  }

  /** One object below the attempt directory disappears. */
  ghost predicate RemoveObjectStep(w: World, w': World, id: string, direct: bool) {
    && Removable(w, id)
    && var a := w.attempts[id];
    && (if direct then a.direct > 0 else a.nested > 0)
    && var a' := if direct then a.(direct := a.direct - 1, changed := w.clock) else a.(nested := a.nested - 1);
    && w' == w.(attempts := w.attempts[id := a'], clock := w.clock + 1)
  }

  ghost predicate RemoveAttemptStep(w: World, w': World, id: string) {
    && Removable(w, id) && w.attempts[id].direct == 0 && w.attempts[id].nested == 0
    && w' == w.(attempts := w.attempts - {id}, rootChanged := w.clock, clock := w.clock + 1)
  }

  ghost predicate RemoveRecordStep(w: World, w': World, id: string) {
    && id in w.journal && id !in w.attempts
    && w' == w.(journal := w.journal - {id}, clock := w.clock + 1)
  }

  /** A creation is requested: from here on the resource may exist, whatever the engine answers. */
  ghost predicate IssueStep(w: World, w': World, id: string, resource: Resource) {
    && id in w.journal && Issuable(w.journal[id].record, resource) && resource !in w.MayExist()
    && w' == w.(pending := w.pending + {resource}, clock := w.clock + 1)
  }

  /** A requested creation takes effect, at once or long after the engine's client has given up. */
  ghost predicate AppearStep(w: World, w': World, resource: Resource) {
    && resource in w.pending
    && w' == w.(pending := w.pending - {resource}, present := w.present + {resource}, clock := w.clock + 1)
  }

  /** A resource is removed from the engine. */
  ghost predicate VanishStep(w: World, w': World, resource: Resource) {
    w' == w.(present := w.present - {resource}, clock := w.clock + 1)
  }

  datatype Event =
    | Stray
    | Reserve(record: Record)
    | Replace(record: Record)
    | MakeAttempt(id: string, identity: RootIdentity)
    | Populate(id: string, attempt: Attempt)
    | RemoveObject(id: string, direct: bool)
    | RemoveAttempt(id: string)
    | RemoveRecord(id: string)
    | Issue(id: string, resource: Resource)
    | Appear(resource: Resource)
    | Vanish(resource: Resource)

  ghost predicate Step(w: World, w': World, e: Event) {
    match e
    case Stray => StrayStep(w, w')
    case Reserve(r) => ReserveStep(w, w', r)
    case Replace(r) => ReplaceStep(w, w', r)
    case MakeAttempt(id, identity) => MakeAttemptStep(w, w', id, identity)
    case Populate(id, attempt) => PopulateStep(w, w', id, attempt)
    case RemoveObject(id, direct) => RemoveObjectStep(w, w', id, direct)
    case RemoveAttempt(id) => RemoveAttemptStep(w, w', id)
    case RemoveRecord(id) => RemoveRecordStep(w, w', id)
    case Issue(id, resource) => IssueStep(w, w', id, resource)
    case Appear(resource) => AppearStep(w, w', resource)
    case Vanish(resource) => VanishStep(w, w', resource)
  }

  // ---- The invariant ----

  /** Which resources can exist beside a record: once the execution container is possible every volume
      is settled, and once its absence is recorded nothing is pending any more. */
  ghost predicate ResourcesFit(w: World, r: Record) {
    && (forall x :: x in w.MayExist() ==> Creatable(r, x))
    && (r.state.ExecutionCreatePossible? ==> w.pending <= {ExecutionContainer})
    && (r.state.ExecutionAbsent? ==> w.pending == {})
  }

  /** How the directory and the resources must look beside a record. */
  ghost predicate RecordFits(w: World, id: string)
    requires id in w.journal
  {
    var r := w.journal[id].record;
    && RecordValid(r) && r.attemptId == id
    && w.journal[id].version < w.clock
    && r.authorityRoot == w.root && r.authorityIdentity == w.rootIdentity
    && r.authorityPathIdentity == AtTime(w.rootIdentity, r.authorityPathIdentity.changedNs)
    && r.authorityPathIdentity.changedNs <= w.rootChanged
    && ResourcesFit(w, r)
    && (id in w.attempts ==> RootIdentityValid(w.attempts[id].identity) && w.attempts[id].changed < w.clock)
    && (r.attemptIdentity.Some? ==>
          && r.attemptPathIdentity == Some(AtTime(r.attemptIdentity.value, r.attemptPathIdentity.value.changedNs))
          && (id in w.attempts ==>
                && w.attempts[id].identity == r.attemptIdentity.value
                && r.attemptPathIdentity.value.changedNs <= w.attempts[id].changed
                && r.authorityPathIdentity == RootPathIdentity(w)))
    && (r.state in CONTAINER_POSSIBLE + {ContainerAbsent} ==> PathsCurrent(w, r))
  }

  /** At most one attempt is alive: one record, one directory, one name. */
  ghost predicate Inv(w: World) {
    && RootIdentityValid(w.rootIdentity) && w.rootChanged < w.clock && w.pending !! w.present
    && (w.journal == map[] ==> w.attempts == map[] && w.MayExist() == {})
    && (forall id :: id in w.journal ==>
          w.journal.Keys == {id} && w.attempts.Keys <= {id} && RecordFits(w, id))
  }

  lemma ReplaceAdmitsResources(w: World, r: Record)
    requires r.attemptId in w.journal && RecordValid(r) && RecordValid(w.journal[r.attemptId].record)
    requires TransitionValid(w.journal[r.attemptId].record, r) && AbsenceProved(w, r.state)
    requires ResourcesFit(w, w.journal[r.attemptId].record)
    ensures ResourcesFit(w, r)
  {
    assert r.state.CleanupStarted? ==> forall x :: x !in w.MayExist();
  }

  lemma ReplaceKeepsInv(w: World, w': World, r: Record)
    requires Inv(w) && ReplaceStep(w, w', r)
    ensures Inv(w')
  {
    var id := r.attemptId;
    assert w'.journal.Keys == {id};
    assert RecordFits(w, id);
    ReplaceAdmitsResources(w, r);
    assert RecordFits(w', id);
  }

  lemma MakeAttemptKeepsInv(w: World, w': World, id: string, identity: RootIdentity)
    requires Inv(w) && MakeAttemptStep(w, w', id, identity)
    ensures Inv(w')
  {
    assert RecordFits(w, id);
    assert RecordFits(w', id);
  }

  lemma AttemptsStepKeepsInv(w: World, w': World, e: Event)
    requires Inv(w) && Step(w, w', e)
    requires e.Populate? || e.RemoveObject? || e.RemoveAttempt?
    ensures Inv(w')
  {
    hide RecordValid, Creatable;
    assert RecordFits(w, e.id) && w.journal.Keys == {e.id};
    assert RecordFits(w', e.id);
  }

  lemma ReserveKeepsInv(w: World, w': World, r: Record)
    requires Inv(w) && ReserveStep(w, w', r)
    ensures Inv(w')
  {
    assert RecordFits(w', r.attemptId);
  }

  lemma ResourcesStepKeepsInv(w: World, w': World, e: Event)
    requires Inv(w) && Step(w, w', e)
    requires e.Issue? || e.Appear? || e.Vanish?
    ensures Inv(w')
  {
    hide RecordValid;
    assert w'.MayExist() <= w.MayExist() + {e.resource};
    forall id | id in w'.journal
      ensures w'.journal.Keys == {id} && w'.attempts.Keys <= {id} && RecordFits(w', id)
    {
      assert id in w.journal && RecordFits(w, id);
      assert ResourcesFit(w', w.journal[id].record);
    }
  }

  /** A record before containers, or behind the recorded absence of all of them, admits no resource. */
  lemma NothingExistsBeside(w: World, id: string)
    requires Inv(w) && id in w.journal && w.journal[id].record.state !in CONTAINER_POSSIBLE
    ensures w.MayExist() == {}
  {
    assert RecordFits(w, id);
    assert forall x :: x in w.MayExist() ==> Creatable(w.journal[id].record, x);
    assert forall x :: x !in w.MayExist();
  }

  /** While a resource can exist its attempt directory is in place, so a missing one excludes them all. */
  lemma WithoutDirectoryNothingExists(w: World, id: string)
    requires Inv(w) && id in w.journal && id !in w.attempts
    ensures w.MayExist() == {}
  {
    assert RecordFits(w, id);
    NothingExistsBeside(w, id);
  }

  lemma StepKeepsInv(w: World, w': World, e: Event)
    requires Inv(w) && Step(w, w', e)
    ensures Inv(w')
  {
    hide RecordValid;
    if e.Replace? {
      ReplaceKeepsInv(w, w', e.record);
    } else if e.MakeAttempt? {
      MakeAttemptKeepsInv(w, w', e.id, e.identity);
    } else if e.Populate? || e.RemoveObject? || e.RemoveAttempt? {
      AttemptsStepKeepsInv(w, w', e);
    } else if e.Reserve? {
      ReserveKeepsInv(w, w', e.record);
    } else if e.RemoveRecord? {
      assert w.journal.Keys == {e.id};
      WithoutDirectoryNothingExists(w, e.id);
    } else if e.Issue? || e.Appear? || e.Vanish? {
      ResourcesStepKeepsInv(w, w', e);
    } else {
      forall id | id in w'.journal
        ensures w'.journal.Keys == {id} && w'.attempts.Keys <= {id} && RecordFits(w', id)
      {
        assert id in w.journal && RecordFits(w, id);
      }
    }
  }

  // ---- Runs ----

  ghost predicate IsRun(h: seq<World>, es: seq<Event>) {
    |h| == |es| + 1 && forall i {:trigger es[i]} :: 0 <= i < |es| ==> Step(h[i], h[i + 1], es[i])
  }

  lemma RunLength(h: seq<World>, es: seq<Event>)
    requires IsRun(h, es)
    ensures |h| == |es| + 1
  {
  }

  lemma {:induction false} RunExtends(h: seq<World>, es: seq<Event>, next: World, e: Event)
    requires IsRun(h, es) && Step(h[|es|], next, e)
    ensures IsRun(h + [next], es + [e])
  {
    hide Step;
    var longer, events := h + [next], es + [e];
    forall i {:trigger events[i]} | 0 <= i < |events|
      ensures Step(longer[i], longer[i + 1], events[i])
    {
      assert i < |es| ==> events[i] == es[i];
    }
  }

  lemma {:induction false} RunKeepsInv(h: seq<World>, es: seq<Event>, i: nat)
    requires IsRun(h, es) && Inv(h[0]) && i <= |es|
    ensures Inv(h[i])
  {
    hide Step, Inv;
    if i > 0 {
      RunKeepsInv(h, es, i - 1);
      StepKeepsInv(h[i - 1], h[i], es[i - 1]);
    }
  }

  /** The record that answers for a world's resources. */
  ghost predicate AnswersFor(w: World, id: string) {
    && w.journal.Keys == {id} && w.attempts.Keys == {id}
    && var r := w.journal[id].record;
    && r.attemptId == id
    && r.state in CONTAINER_POSSIBLE && r.container.Some?
    && PathsCurrent(w, r)
    && forall x :: x in w.MayExist() ==> Creatable(r, x)
  }

  /** At any point of any run, with a crash or not: while a prep container, a volume or an execution
      container may exist, the journal holds exactly one record, it is in a container-possible state
      that admits every such resource, and its attempt directory is untouched. */
  lemma ResourcesAreAnsweredFor(h: seq<World>, es: seq<Event>, i: nat)
    requires IsRun(h, es) && Inv(h[0]) && i <= |es|
    requires h[i].MayExist() != {}
    ensures exists id :: id in h[i].journal && AnswersFor(h[i], id)
  {
    RunKeepsInv(h, es, i);
    var w := h[i];
    assert w.journal != map[];
    var id :| id in w.journal;
    assert RecordFits(w, id);
    var x :| x in w.MayExist();
    assert Creatable(w.journal[id].record, x);
    assert w.attempts.Keys == {id};
  }

  /** At any point of any run there is at most one attempt: one record, one directory, one name. */
  lemma OneAttemptAtATime(h: seq<World>, es: seq<Event>, i: nat)
    requires IsRun(h, es) && Inv(h[0]) && i <= |es|
    ensures forall a, b :: a in h[i].journal.Keys + h[i].attempts.Keys && b in h[i].journal.Keys + h[i].attempts.Keys ==> a == b
    ensures h[i].attempts.Keys <= h[i].journal.Keys
  {
    RunKeepsInv(h, es, i);
  }

  /** A record or an attempt directory disappears only when no resource may exist. No step asks for this:
      it follows from what the invariant lets exist beside the record, and beside a missing directory. */
  lemma RemovedOnlyWhenNothingExists(h: seq<World>, es: seq<Event>, i: nat, id: string)
    requires IsRun(h, es) && Inv(h[0]) && i < |es|
    requires (id in h[i].journal && id !in h[i + 1].journal) || (id in h[i].attempts && id !in h[i + 1].attempts)
    ensures h[i].MayExist() == {} && h[i + 1].MayExist() == {}
  {
    hide Step, Inv;
    RunKeepsInv(h, es, i);
    assert Step(h[i], h[i + 1], es[i]);
    RemovalMeansNothingExists(h[i], h[i + 1], es[i], id);
  }

  lemma RemovalMeansNothingExists(w: World, w': World, e: Event, id: string)
    requires Inv(w) && Step(w, w', e)
    requires (id in w.journal && id !in w'.journal) || (id in w.attempts && id !in w'.attempts)
    ensures w.MayExist() == {} && w'.MayExist() == {}
  {
    if e.RemoveRecord? {
      WithoutDirectoryNothingExists(w, id);
    } else {
      NothingExistsBeside(w, id);
    }
  }

  /** Over any stretch of a run on which something may exist, the same attempt answers throughout and
      its records form one chain: the binding that recovery will use is the one first stored. */
  lemma {:induction false} BindingKept(h: seq<World>, es: seq<Event>, i: nat, j: nat, id: string)
    requires IsRun(h, es) && Inv(h[0]) && i <= j <= |es|
    requires forall k :: i <= k <= j ==> h[k].MayExist() != {}
    requires id in h[i].journal
    ensures id in h[j].journal
    ensures h[j].journal[id].record.container == h[i].journal[id].record.container
    ensures Descends(h[i].journal[id].record, h[j].journal[id].record)
    decreases j - i
  {
    hide Step, Inv;
    if i < j {
      hide Descends;
      BindingKept(h, es, i, j - 1, id);
      RunKeepsInv(h, es, j - 1);
      RunKeepsInv(h, es, i);
      assert h[i].MayExist() != {} && h[j - 1].MayExist() != {};
      assert Step(h[j - 1], h[j], es[j - 1]);
      BoundWhileResourcesExist(h[i], id);
      StepKeepsBinding(h[i].journal[id].record, h[j - 1], h[j], es[j - 1], id);
    }
  }

  lemma BoundWhileResourcesExist(w: World, id: string)
    requires Inv(w) && id in w.journal && w.MayExist() != {}
    ensures w.journal[id].record.state in CONTAINER_POSSIBLE && w.journal[id].record.container.Some?
  {
    var x :| x in w.MayExist();
    assert RecordFits(w, id) && Creatable(w.journal[id].record, x);
  }

  lemma StepKeepsBinding(a: Record, w: World, w': World, e: Event, id: string)
    requires Inv(w) && Step(w, w', e) && id in w.journal && w.MayExist() != {}
    requires Descends(a, w.journal[id].record) && a.container == w.journal[id].record.container
    ensures id in w'.journal
    ensures w'.journal[id].record.container == a.container
    ensures Descends(a, w'.journal[id].record)
  {
    BoundWhileResourcesExist(w, id);
    if e.Replace? {
      assert w.journal.Keys == {id};
      DescendsStep(a, w.journal[id].record, e.record);
    }
  }

  /** A journal file that once is not a given version of a given record never becomes it again, so a
      handle that disagrees with the disk disagrees for ever. */
  lemma {:induction false} CellsNeverReturn(h: seq<World>, es: seq<Event>, i: nat, j: nat, id: string, cell: Cell)
    requires IsRun(h, es) && i <= j <= |es|
    requires cell.version < h[i].clock
    requires !(id in h[i].journal && h[i].journal[id] == cell)
    ensures cell.version < h[j].clock
    ensures !(id in h[j].journal && h[j].journal[id] == cell)
    decreases j - i
  {
    if i < j {
      CellsNeverReturn(h, es, i, j - 1, id, cell);
      assert Step(h[j - 1], h[j], es[j - 1]);
    }
  }

  // ---- What recovery can finish ----

  /** Recovery proves a container absent only by finding and removing it, and the volumes too until the
      absence of the execution container is recorded. So these have to be found. */
  predicate Findable(r: Record, found: set<Resource>) {
    match r.state
    case CreatePossible => PrepContainer in found && AllVolumesIn(r, found)
    case ExecutionCreatePossible => ExecutionContainer in found && AllVolumesIn(r, found)
    case _ => true
  }

  predicate AllVolumesIn(r: Record, found: set<Resource>) {
    r.container.Some? && forall i: nat :: i < |r.container.value.volumeNames| ==> Volume(i) in found
  }

  /** What one record and its directory must look like for recovery to finish, if the engine can show it
      the resources in `found`: no reserved attempt whose directory was made, no prepared one whose
      directory an interrupted discard has touched, and every resource there that has to be found. */
  predicate Finishable(w: World, id: string, found: set<Resource>) {
    id in w.journal && id in w.attempts ==>
      var r := w.journal[id].record;
      && !r.state.Reserved?
      && (r.state.Prepared? ==> r.attemptPathIdentity == Some(AttemptPathIdentity(w, id)))
      && Findable(r, found)
  }

  predicate RecoverableWith(w: World, found: set<Resource>) {
    && w.strays == 0                // a leftover temporary file makes the scan refuse everything
    && forall id :: id in w.journal ==> Finishable(w, id, found)
  }

  /** The crash states that recovery finishes when no call fails. */
  predicate Recoverable(w: World) {
    RecoverableWith(w, w.present)
  }

  lemma FindingMoreHelps(w: World, found: set<Resource>, more: set<Resource>)
    requires found <= more && RecoverableWith(w, found)
    ensures RecoverableWith(w, more)
  {
    forall id | id in w.journal
      ensures Finishable(w, id, more)
    {
      assert Finishable(w, id, found);
    }
  }

  /** The worlds that a journal write passes through: the temporary file, then the replaced record. */
  function WithTemporary(w: World): World {
    w.(strays := w.strays + 1, clock := w.clock + 1)
  }

  function Replaced(w: World, r: Record): World {
    w.(journal := w.journal[r.attemptId := Cell(r, w.clock + 1)], clock := w.clock + 2)
  }

  lemma PreparedMovesOn(w: World, r: Record)
    requires Inv(w) && r.attemptId in w.journal && w.journal[r.attemptId].record.state.Prepared?
    requires TransitionValid(w.journal[r.attemptId].record, r) && RecordValid(r) && PathsCurrent(w, r)
    requires r.state.CreatePossible?
    ensures Step(w, WithTemporary(w), Stray)
    ensures Step(WithTemporary(w), Replaced(w, r), Replace(r))
    ensures Replaced(w, r).MayExist() == {} && !RecoverableWith(Replaced(w, r), {})
  {
    NothingExistsBeside(w, r.attemptId);
    hide Inv, RecordValid, TransitionValid;
    assert !Finishable(Replaced(w, r), r.attemptId, {});
  }

  /** Each attempt passes through a crash state that recovery cannot finish: `CreatePossible` has been
      recorded and no creation has been asked for yet, so there is nothing to find. */
  lemma {:induction false} CrashBeforeAnyCreate(h: seq<World>, es: seq<Event>, r: Record)
    requires IsRun(h, es) && Inv(h[0])
    requires r.attemptId in h[|es|].journal && h[|es|].journal[r.attemptId].record.state.Prepared?
    requires TransitionValid(h[|es|].journal[r.attemptId].record, r) && RecordValid(r) && PathsCurrent(h[|es|], r)
    requires r.state.CreatePossible?
    ensures var crashed := Replaced(h[|es|], r);
            && IsRun(h + [WithTemporary(h[|es|])] + [crashed], es + [Stray] + [Replace(r)])
            && crashed.MayExist() == {} && !RecoverableWith(crashed, crashed.MayExist())
  {
    hide Step, Inv, RecordValid, TransitionValid, PathsCurrent, RecoverableWith, Replaced, WithTemporary;
    RunKeepsInv(h, es, |es|);
    PreparedMovesOn(h[|es|], r);
    RunExtends(h, es, WithTemporary(h[|es|]), Stray);
    RunExtends(h + [WithTemporary(h[|es|])], es + [Stray], Replaced(h[|es|], r), Replace(r));
  }

  /** So does recovery itself: it has removed the execution container and not yet recorded its absence. */
  lemma {:induction false} CrashInsideRecovery(h: seq<World>, es: seq<Event>, id: string)
    requires IsRun(h, es) && Inv(h[0])
    requires id in h[|es|].journal && h[|es|].journal[id].record.state.ExecutionCreatePossible?
    requires ExecutionContainer in h[|es|].present
    ensures var crashed := Without(h[|es|], ExecutionContainer);
            && IsRun(h + [crashed], es + [Vanish(ExecutionContainer)])
            && !RecoverableWith(crashed, crashed.MayExist())
  {
    hide Step, Inv, RecoverableWith, Without;
    RunKeepsInv(h, es, |es|);
    WithoutExecutionContainer(h[|es|], id);
    RunExtends(h, es, Without(h[|es|], ExecutionContainer), Vanish(ExecutionContainer));
  }

  function Without(w: World, resource: Resource): World {
    w.(present := w.present - {resource}, clock := w.clock + 1)
  }

  lemma WithoutExecutionContainer(w: World, id: string)
    requires Inv(w) && id in w.journal && w.journal[id].record.state.ExecutionCreatePossible?
    requires ExecutionContainer in w.present
    ensures Step(w, Without(w, ExecutionContainer), Vanish(ExecutionContainer))
    ensures !RecoverableWith(Without(w, ExecutionContainer), Without(w, ExecutionContainer).MayExist())
  {
    assert RecordFits(w, id);
    hide RecordValid;
    assert !Finishable(Without(w, ExecutionContainer), id, Without(w, ExecutionContainer).MayExist());
  }
}
