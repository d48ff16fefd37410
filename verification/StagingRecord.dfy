// The journal record of one staging attempt: identities, constructor checks and the
// transition predicate that every journal write must satisfy.

module FileIdentities {
  datatype FileIdentity = FileIdentity(
    device: int, inode: int, mode: int, size: int, modifiedNs: int, changedNs: int)

  datatype RootIdentity = RootIdentity(device: int, inode: int, mode: int)

  datatype DirectoryIdentity = DirectoryIdentity(device: int, inode: int, mode: int, changedNs: int)

  /** `stat.S_ISDIR` on a non-negative mode. */
  predicate IsDirectoryMode(mode: int) {
    mode >= 0 && mode / 0x1000 % 16 == 4
  }

  predicate FileIdentityValid(f: FileIdentity) {
    f.device >= 0 && f.inode > 0 && f.size >= 0 && f.modifiedNs >= 0 && f.changedNs >= 0
  }

  predicate RootIdentityValid(r: RootIdentity) {
    r.device >= 0 && r.inode > 0 && IsDirectoryMode(r.mode)
  }

  predicate DirectoryIdentityValid(d: DirectoryIdentity) {
    d.device >= 0 && d.inode > 0 && IsDirectoryMode(d.mode) && d.changedNs >= 0
  }

  /** The path identity a directory object shows at a given change time. */
  function AtTime(r: RootIdentity, changedNs: int): DirectoryIdentity {
    DirectoryIdentity(r.device, r.inode, r.mode, changedNs)
  }

  predicate SameDirectoryObject(before: DirectoryIdentity, after: DirectoryIdentity) {
    && (before.device, before.inode, before.mode) == (after.device, after.inode, after.mode)
    && after.changedNs >= before.changedNs
  }
}

module StagingRecords {
  import opened Prelude
  import opened FileIdentities
  import opened Numerals
  import opened Paths

  datatype State =
    | Reserved
    | Allocated
    | Prepared
    | CreatePossible
    | ExecutionCreatePossible
    | ExecutionAbsent
    | ContainerAbsent
    | CleanupStarted

  datatype WorkspaceBinding = WorkspaceBinding(path: Path, device: int, inode: int, manifestSha256: string)

  datatype ContainerBinding = ContainerBinding(
    instanceName: string,
    prepInstanceName: string,
    volumeNames: seq<string>,
    runtimeImage: string,
    executable: Path,
    executableSha256: string,
    socketPath: Path,
    socketIdentity: FileIdentity,
    clientConfigDirectory: Path,
    clientConfigIdentity: FileIdentity,
    gateImageReference: string,
    gateImageDigest: string)

  datatype Record = Record(
    attemptId: string,
    state: State,
    authorityRoot: Path,
    authorityIdentity: RootIdentity,
    authorityPathIdentity: DirectoryIdentity,
    attemptIdentity: Option<RootIdentity>,
    attemptPathIdentity: Option<DirectoryIdentity>,
    workspaceRootsRevision: int,
    workspaceRoots: seq<WorkspaceBinding>,
    container: Option<ContainerBinding>)

  predicate IsLowerHex(s: string) {
    forall i :: 0 <= i < |s| ==> '0' <= s[i] <= '9' || 'a' <= s[i] <= 'f'
  }

  predicate IsAttemptId(s: string) {
    |s| == 32 && IsLowerHex(s)
  }

  predicate IsSha256(s: string) {
    |s| == 64 && IsLowerHex(s)
  }

  predicate IsImageDigest(s: string) {
    |s| == 71 && s[..7] == "sha256:" && IsLowerHex(s[7..])
  }

  function VolumeName(attemptId: string, ordinal: nat): string {
    "lca-" + attemptId + "-root-" + FourDigits(ordinal)
  }

  predicate WorkspaceBindingValid(w: WorkspaceBinding) {
    IsPath(w.path) && IsAbsolute(w.path) && w.device >= 0 && w.inode > 0 && IsSha256(w.manifestSha256)
  }

  predicate ContainerBindingValid(c: ContainerBinding) {
    && IsPath(c.executable) && IsAbsolute(c.executable)
    && IsPath(c.socketPath) && IsAbsolute(c.socketPath)
    && IsPath(c.clientConfigDirectory) && IsAbsolute(c.clientConfigDirectory)
    && FileIdentityValid(c.socketIdentity) && FileIdentityValid(c.clientConfigIdentity)
    && |c.instanceName| == 36 && c.instanceName[..4] == "lca-"
    && var attemptId := c.instanceName[4..];
    && IsAttemptId(attemptId)
    && c.prepInstanceName == "lca-" + attemptId + "-prep"
    && |c.volumeNames| > 0
    && (forall i :: 0 <= i < |c.volumeNames| ==> c.volumeNames[i] == VolumeName(attemptId, i))
    && IsImageDigest(c.runtimeImage)
    && IsSha256(c.executableSha256)
    && c.gateImageReference != ""
    && IsImageDigest(c.gateImageDigest)
  }

  predicate SameObject(r: RootIdentity, d: DirectoryIdentity) {
    r.device == d.device && r.inode == d.inode
  }

  /** The checks of the record constructor and of the identity values it holds. */
  predicate RecordValid(r: Record) {
    && IsAttemptId(r.attemptId)
    && IsPath(r.authorityRoot) && IsAbsolute(r.authorityRoot)
    && RootIdentityValid(r.authorityIdentity)
    && DirectoryIdentityValid(r.authorityPathIdentity)
    && r.workspaceRootsRevision >= 0
    && |r.workspaceRoots| > 0
    && (forall i :: 0 <= i < |r.workspaceRoots| ==> WorkspaceBindingValid(r.workspaceRoots[i]))
    && (forall i, j :: 0 <= i < j < |r.workspaceRoots| ==> r.workspaceRoots[i].path != r.workspaceRoots[j].path)
    && SameObject(r.authorityIdentity, r.authorityPathIdentity)
    && r.attemptIdentity.Some? == r.attemptPathIdentity.Some?
    && (r.attemptIdentity.Some? ==>
          && RootIdentityValid(r.attemptIdentity.value)
          && DirectoryIdentityValid(r.attemptPathIdentity.value)
          && SameObject(r.attemptIdentity.value, r.attemptPathIdentity.value))
    && r.attemptIdentity.Some? == !r.state.Reserved?
    && (r.state in {CreatePossible, ExecutionCreatePossible, ExecutionAbsent} ==> r.container.Some?)
    && (r.state in {Reserved, Allocated, Prepared} ==> r.container.None?)
    && (r.container.Some? ==>
          ContainerBindingValid(r.container.value) && r.container.value.instanceName == "lca-" + r.attemptId)
  }

  const ALLOWED: set<(State, State)> := {
    (Reserved, Allocated),
    (Allocated, Prepared),
    (Allocated, ContainerAbsent),
    (Prepared, CreatePossible),
    (Prepared, ContainerAbsent),
    (CreatePossible, ExecutionCreatePossible),
    (CreatePossible, ContainerAbsent),
    (ExecutionCreatePossible, ExecutionAbsent),
    (ExecutionAbsent, ContainerAbsent),
    (ContainerAbsent, CleanupStarted)
  }

  /** What `staging_record_transition_is_valid` answers. */
  predicate TransitionValid(before: Record, after: Record) {
    && (before.state, after.state) in ALLOWED
    && before.attemptId == after.attemptId
    && before.authorityRoot == after.authorityRoot
    && before.authorityIdentity == after.authorityIdentity
    && before.workspaceRootsRevision == after.workspaceRootsRevision
    && before.workspaceRoots == after.workspaceRoots
    && SameDirectoryObject(before.authorityPathIdentity, after.authorityPathIdentity)
    && if before.state.Reserved? then
         && before.attemptIdentity.None?
         && after.attemptIdentity.Some?
         && after.attemptPathIdentity.Some?
         && after.container.None?
       else
         && before.attemptIdentity == after.attemptIdentity
         && before.attemptPathIdentity.Some?
         && after.attemptPathIdentity.Some?
         && SameDirectoryObject(before.attemptPathIdentity.value, after.attemptPathIdentity.value)
         && if before.state.Allocated? then after.container.None?
            else if before.state.Prepared? && after.state.CreatePossible? then
              before.container.None? && after.container.Some?
            else before.container == after.container
  }

  // ---- Chains of valid transitions ----

  function Rank(s: State): nat {
    match s
    case Reserved => 0
    case Allocated => 1
    case Prepared => 2
    case CreatePossible => 3
    case ExecutionCreatePossible => 4
    case ExecutionAbsent => 5
    case ContainerAbsent => 6
    case CleanupStarted => 7
  }

  ghost predicate IsChain(c: seq<Record>) {
    forall i :: 0 < i < |c| ==> TransitionValid(c[i - 1], c[i])
  }

  /** What any later record of a chain still shares with an earlier one. */
  ghost predicate Descends(a: Record, b: Record) {
    && Rank(a.state) <= Rank(b.state)
    && a.attemptId == b.attemptId
    && a.authorityRoot == b.authorityRoot
    && a.authorityIdentity == b.authorityIdentity
    && a.workspaceRootsRevision == b.workspaceRootsRevision
    && a.workspaceRoots == b.workspaceRoots
    && SameDirectoryObject(a.authorityPathIdentity, b.authorityPathIdentity)
    && (a.attemptIdentity.Some? ==> b.attemptIdentity == a.attemptIdentity)
    && (a.attemptPathIdentity.Some? && !a.state.Reserved? ==>
          && b.attemptPathIdentity.Some?
          && SameDirectoryObject(a.attemptPathIdentity.value, b.attemptPathIdentity.value))
    && (a.container.Some? && a.state !in {Reserved, Allocated} ==> b.container == a.container)
  }

  lemma DescendsStep(a: Record, b: Record, c: Record)
    requires Descends(a, b) && TransitionValid(b, c)
    ensures Descends(a, c)
  {
  }

  /** Along any chain the rank grows by at least one a step, so at most seven writes follow a
      reservation; identities and workspace are never rewritten, change times never go back, and a
      container binding once stored stays. */
  lemma {:induction false} ChainDescends(c: seq<Record>, i: nat, j: nat)
    requires IsChain(c) && i <= j < |c|
    ensures Descends(c[i], c[j])
    ensures Rank(c[j].state) >= Rank(c[i].state) + (j - i)
    ensures j - i <= 7
    decreases j - i
  {
    if i < j {
      ChainDescends(c, i, j - 1);
      assert TransitionValid(c[j - 1], c[j]);
      DescendsStep(c[i], c[j - 1], c[j]);
    }
  }

  /** The binding is written by exactly one transition of a chain: the one into `CreatePossible`. */
  lemma {:induction false} BindingSetOnce(c: seq<Record>, i: nat, j: nat)
    requires IsChain(c) && (forall r :: r in c ==> RecordValid(r)) && i < j < |c|
    requires c[i].container != c[j].container
    ensures c[i].container.None? && c[j].container.Some?
    ensures exists k :: i < k <= j && c[k].state.CreatePossible?
                        && (forall m :: i <= m < k ==> c[m].container.None?)
                        && (forall m :: k <= m <= j ==> c[m].container == c[j].container)
    decreases j - i
  {
    assert TransitionValid(c[j - 1], c[j]);
    assert RecordValid(c[j - 1]) && RecordValid(c[j]) && RecordValid(c[i]);
    if c[j - 1].container == c[j].container {
      BindingSetOnce(c, i, j - 1);
    } else {
      assert c[j - 1].state.Prepared? && c[j].state.CreatePossible?;
      forall m | i <= m < j
        ensures c[m].container.None?
      {
        assert RecordValid(c[m]);
        ChainDescends(c, m, j - 1);
      }
    }
  }

  /** Once the execution container may exist, its absence is recorded before anything else:
      the next record is `ExecutionAbsent`, and `ContainerAbsent` can only follow it. */
  lemma {:induction false} AbsenceOnlyThroughExecutionAbsent(c: seq<Record>, i: nat, j: nat)
    requires IsChain(c) && i < j < |c| && c[i].state.ExecutionCreatePossible?
    ensures c[i + 1].state.ExecutionAbsent?
    ensures c[j].state.ContainerAbsent? ==> j == i + 2
    ensures c[j].state in {ExecutionAbsent, ContainerAbsent, CleanupStarted}
  {
    assert TransitionValid(c[i], c[i + 1]);
    if j > i + 1 {
      assert TransitionValid(c[i + 1], c[i + 2]);
      ChainDescends(c, i + 2, j);
    }
  }

  /** `replace(record, state=...)` of a valid record passes the constructor again exactly when the
      binding it carries fits the new state. */
  lemma MovedRecordValid(r: Record, s: State)
    requires RecordValid(r) && !r.state.Reserved? && !s.Reserved?
    ensures RecordValid(r.(state := s)) <==>
            && (s in {CreatePossible, ExecutionCreatePossible, ExecutionAbsent} ==> r.container.Some?)
            && (s in {Allocated, Prepared} ==> r.container.None?)
  {
  }
}
