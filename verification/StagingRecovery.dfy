// Crash recovery of the staging authority, with the resource recovery that it calls back.

module StagingRecovery {
  import opened Prelude
  import opened FileIdentities
  import opened Paths
  import opened StagingRecords
  import opened StagingWorld
  import opened StagingJournal
  import opened StagingLifecycle
  import RecoveryProtocol

  /** The workspace as the recovering process sees it: its roots, their revision, and what `stat`
      answers for each path. */
  datatype Workspace = Workspace(roots: seq<Path>, revision: int, stat: map<Path, (int, int)>)

  predicate RecordMatchesWorkspace(r: Record, ws: Workspace) {
    && r.workspaceRootsRevision == ws.revision
    && |r.workspaceRoots| == |ws.roots|
    && (forall i :: 0 <= i < |ws.roots| ==> r.workspaceRoots[i].path == ws.roots[i])
    && (forall i :: 0 <= i < |ws.roots| ==>
          var b := r.workspaceRoots[i];
          b.path in ws.stat && ws.stat[b.path] == (b.device, b.inode))
  }

  datatype RecoveryResult = RecoveryResult(reason: string, ready: bool, recovered: nat)

  function RecoveryUnresolved(reason: string): RecoveryResult {
    RecoveryResult(reason, false, 0)
  }

  /** Only the resources and the clock differ, nothing is newly asked for and nothing new can exist. */
  predicate ResourcesOnly(w: World, w': World) {
    && w' == w.(pending := w'.pending, present := w'.present, clock := w'.clock) && w'.clock >= w.clock
    && w'.pending <= w.pending && w'.MayExist() <= w.MayExist()
  }

  /** What the recovery protocol is given to look for. */
  function TargetOf(x: Resource, absenceAllowed: bool): RecoveryProtocol.Target {
    match x
    case ExecutionContainer => RecoveryProtocol.DurableContainer(1)
    case PrepContainer => RecoveryProtocol.DurableContainer(2)
    case Volume(i) => RecoveryProtocol.DurableVolume(i, absenceAllowed)
  }

  /** Exactly one resource was touched. */
  predicate OthersKept(w: World, w': World, x: Resource) {
    && ResourcesOnly(w, w')
    && w'.pending - {x} == w.pending - {x} && w'.present - {x} == w.present - {x}
  }

  lemma OtherKept(w: World, w': World, x: Resource, y: Resource)
    requires OthersKept(w, w', x) && x != y
    ensures (y in w'.present <==> y in w.present) && (y in w'.pending <==> y in w.pending)
  {
    assert y in w.present <==> y in w.present - {x};
    assert y in w.pending <==> y in w.pending - {x};
  }

  /** Removal of a resource known by name or id, with the check that it is gone. */
  method RemoveResource(disk: StagingDisk, x: Resource) returns (absent: bool)
    requires disk.Valid() && x !in disk.world.pending
    modifies disk`world, disk`history, disk`events, disk`tick
    ensures disk.Valid() && disk.Grew() && OthersKept(old(disk.world), disk.world, x)
    ensures absent ==> x !in disk.world.MayExist()
    ensures old(disk.Reliable()) ==> absent
  {
    hide Inv, IsRun;
    var f := disk.NextFault();
    if f.FailBefore? {
      return false;
    }
    var w := disk.world;
    disk.Advance(w.(present := w.present - {x}, clock := w.clock + 1), Vanish(x));
    return f.Fine?;
  }

  /** A pending creation may take effect just before it is asked for. */
  method AwaitLate(disk: StagingDisk, x: Resource)
    requires disk.Valid()
    modifies disk`world, disk`history, disk`events
    ensures disk.Valid() && disk.Grew() && OthersKept(old(disk.world), disk.world, x)
    ensures disk.world.MayExist() == old(disk.world.MayExist())
    ensures old(disk.Reliable()) ==> disk.world == old(disk.world)
  {
    hide Inv, IsRun;
    var w := disk.world;
    if disk.late(disk.tick) && x in w.pending {
      disk.Advance(w.(pending := w.pending - {x}, present := w.present + {x}, clock := w.clock + 1), Appear(x));
    }
  }

  lemma PresentIsNotPending(w: World, x: Resource)
    requires Inv(w) && x in w.present
    ensures x !in w.pending
  {
  }

  /** One resource: asked for, inspected, removed and seen to be absent. A resource that is not found is
      called absent only where the protocol allows that; `RecoveryProtocol.HealthyRunSettles` is this
      decision. */
  method RecoverResource(disk: StagingDisk, x: Resource, absenceAllowed: bool) returns (absent: bool)
    requires disk.Valid()
    requires absenceAllowed ==> x !in disk.world.pending
    modifies disk`world, disk`history, disk`events, disk`tick
    ensures disk.Valid() && disk.Grew() && OthersKept(old(disk.world), disk.world, x)
    ensures absent ==>
              && x !in disk.world.MayExist()
              && RecoveryProtocol.Settles(TargetOf(x, absenceAllowed), old(x in disk.world.MayExist()))
    ensures old(disk.Reliable()) ==>
              (absent <==> RecoveryProtocol.Settles(TargetOf(x, absenceAllowed), old(x in disk.world.present)))
  {
    hide IsRun, Inv;
    AwaitLate(disk, x);
    var f := disk.NextFault();          // query and inspect
    if !f.Fine? {
      return false;
    }
    if x !in disk.world.present {
      return RecoveryProtocol.Settles(TargetOf(x, absenceAllowed), false);
    }
    PresentIsNotPending(disk.world, x);
    absent := RemoveResource(disk, x);
  }

  /** Before the first volume, and before the `i`-th one: what has been removed and what is untouched. */
  ghost predicate VolumesUntouched(w: World, w': World, i: nat) {
    forall k: nat :: k >= i ==>
      (Volume(k) in w'.present <==> Volume(k) in w.present) && (Volume(k) in w'.pending <==> Volume(k) in w.pending)
  }

  lemma VolumesKept(w: World, w': World, container: Resource)
    requires OthersKept(w, w', container) && !container.Volume?
    ensures VolumesUntouched(w, w', 0)
    ensures forall k: nat :: Volume(k) in w'.MayExist() <==> Volume(k) in w.MayExist()
  {
    forall k: nat
      ensures (Volume(k) in w'.present <==> Volume(k) in w.present) && (Volume(k) in w'.pending <==> Volume(k) in w.pending)
    {
      OtherKept(w, w', container, Volume(k));
    }
  }

  /** `recover_durable_staging_container`: the container that the journal state admits, then every
      volume. It answers "absent" only when nothing at all can exist any more, and when no call fails it
      does so exactly when everything that has to be found is there. */
  method RecoverContainer(disk: StagingDisk, id: string) returns (absent: bool)
    requires disk.Valid() && id in disk.world.journal && disk.world.journal[id].record.state in CONTAINER_POSSIBLE
    modifies disk`world, disk`history, disk`events, disk`tick
    ensures disk.Valid() && disk.Grew() && ResourcesOnly(old(disk.world), disk.world)
    ensures absent ==>
              && disk.world.MayExist() == {}
              && old(Findable(disk.world.journal[id].record, disk.world.MayExist()))
    ensures old(disk.Reliable()) ==>
              (absent <==> old(Findable(disk.world.journal[id].record, disk.world.present)))
  {
    hide IsRun, RecordFits, RecordValid;
    var r := disk.world.journal[id].record;
    BindingStored(disk.world, id);
    OnlyCreatableExist(disk.world, id);
    hide Inv;
    if !r.state.ExecutionAbsent? {
      var container := if r.state.CreatePossible? then PrepContainer else ExecutionContainer;
      absent := RecoverResource(disk, container, false);
      VolumesKept(old(disk.world), disk.world, container);
      if !absent {
        return;
      }
    }
    absent := RecoverVolumes(disk, |r.container.value.volumeNames|, r.state.ExecutionAbsent?);
    if absent {
      OnlyVolumesLeft(disk.world.MayExist(), |r.container.value.volumeNames|);
    }
  }

  method RecoverVolumes(disk: StagingDisk, volumes: nat, absenceAllowed: bool) returns (absent: bool)
    requires disk.Valid() && (absenceAllowed ==> disk.world.pending == {})
    modifies disk`world, disk`history, disk`events, disk`tick
    ensures disk.Valid() && disk.Grew() && ResourcesOnly(old(disk.world), disk.world)
    ensures absent ==>
              forall k: nat :: k < volumes ==>
                Volume(k) !in disk.world.MayExist() && (absenceAllowed || Volume(k) in old(disk.world.MayExist()))
    ensures old(disk.Reliable()) ==>
              (absent <==> absenceAllowed || forall k: nat :: k < volumes ==> Volume(k) in old(disk.world.present))
  {
    hide IsRun, Inv;
    var i := 0;
    while i < volumes
      invariant i <= volumes
      invariant disk.Valid() && disk.Grew() && ResourcesOnly(old(disk.world), disk.world)
      invariant VolumesUntouched(old(disk.world), disk.world, i)
      invariant forall k: nat :: k < i ==>
        Volume(k) !in disk.world.MayExist() && (absenceAllowed || Volume(k) in old(disk.world.MayExist()))
      invariant old(disk.Reliable()) ==>
        absenceAllowed || forall k: nat :: k < i ==> Volume(k) in old(disk.world.present)
    {
      var w := disk.world;
      absent := RecoverResource(disk, Volume(i), absenceAllowed);
      forall k: nat | k > i {
        OtherKept(w, disk.world, Volume(i), Volume(k));
      }
      if !absent {
        return;
      }
      i := i + 1;
    }
    return true;
  }

  lemma OnlyVolumesLeft(existing: set<Resource>, volumes: nat)
    requires PrepContainer !in existing && ExecutionContainer !in existing
    requires forall k: nat :: Volume(k) in existing ==> k < volumes
    requires forall k: nat :: k < volumes ==> Volume(k) !in existing
    ensures existing == {}
  {
    forall x: Resource
      ensures x !in existing
    {
      assert x.PrepContainer? || x.ExecutionContainer? || x == Volume(x.ordinal);
    }
  }

  lemma OnlyCreatableExist(w: World, id: string)
    requires Inv(w) && id in w.journal && w.journal[id].record.container.Some?
    ensures var r := w.journal[id].record;
            && (PrepContainer in w.MayExist() ==> r.state.CreatePossible?)
            && (ExecutionContainer in w.MayExist() ==> r.state.ExecutionCreatePossible?)
            && (forall i: nat :: Volume(i) in w.MayExist() ==> i < |r.container.value.volumeNames|)
            && (r.state.ExecutionAbsent? ==> w.pending == {})
  {
    assert RecordFits(w, id);
    assert forall x :: x in w.MayExist() ==> Creatable(w.journal[id].record, x);
  }

  lemma BindingStored(w: World, id: string)
    requires Inv(w) && id in w.journal && w.journal[id].record.state in CONTAINER_POSSIBLE
    ensures w.journal[id].record.container.Some? && PathsCurrent(w, w.journal[id].record)
    ensures w.journal[id].record.attemptId == id && RecordValid(w.journal[id].record)
    ensures id in w.attempts
  {
    assert RecordFits(w, id);
  }

  // ---- The steps of recovery ----

  /** `acquire_staging_authority`: the lock is exclusive among live processes. */
  method Acquire(disk: StagingDisk) returns (lease: Option<Lease>, reason: string)
    requires disk.Valid()
    modifies disk`locked, disk`tick
    ensures disk.Valid() && disk.Grew() && disk.world == old(disk.world)
    ensures lease.Some? ==>
              fresh(lease.value) && lease.value.disk == disk && lease.value.Valid() && !lease.value.closed
              && !old(disk.locked) && disk.locked
    ensures lease.None? ==> disk.locked == old(disk.locked)
    ensures old(disk.Reliable() && !disk.locked) ==> lease.Some?
  {
    hide Inv, IsRun;
    var f := disk.NextFault();
    if !f.Fine? {
      return None, "staging_authority_invalid";
    }
    if disk.locked {
      return None, "staging_authority_busy";
    }
    disk.locked := true;
    var l := new Lease(disk);
    return Some(l), "";
  }

  /** A partial attempt that never reached a container: recorded as container-free and cleaned up. */
  method CloseUnreleased(h: Handle) returns (r: LifecycleResult)
    requires h.Valid() && h.Current() && h.record.state in {Allocated, Prepared}
    requires h.record.attemptId in h.lease.disk.world.attempts
    modifies h, h.lease.disk`world, h.lease.disk`history, h.lease.disk`events, h.lease.disk`tick
    ensures h.Valid() && h.lease.disk.Grew() && JournalOnly(old(h.lease.disk.world), h.lease.disk.world)
    ensures h.lease.disk.world.journal.Keys == old(h.lease.disk.world.journal.Keys)
    ensures h.record.attemptId == old(h.record.attemptId)
    ensures r.Verified? ==>
              && h.record.state.ContainerAbsent? && LifecycleCurrent(h)
              && old(Finishable(h.lease.disk.world, h.record.attemptId, {}))
    ensures old(h.lease.disk.Reliable() && Finishable(h.lease.disk.world, h.record.attemptId, {})) ==>
              r.Verified?
    ensures old(!Finishable(h.lease.disk.world, h.record.attemptId, {})) ==> h.lease.disk.world == old(h.lease.disk.world)
    ensures r.Verified? ==> h.lease.disk.world.strays == old(h.lease.disk.world.strays)
  {
    hide Inv, IsRun, RecordFits, TransitionValid, RecordValid, Step;
    var w, id := h.lease.disk.world, h.record.attemptId;
    NothingExistsBeside(w, id);
    ClosedFits(w, id);
    var path := AttemptPathIdentity(w, id);
    // `_recovery_attempt_is_current`: the same directory object, and for a prepared attempt the very
    // change time that was recorded.
    if w.attempts[id].identity != h.record.attemptIdentity.value
       || (h.record.state.Prepared? && h.record.attemptPathIdentity != Some(path))
    {
      return Unresolved("staging_attempt_changed");
    }
    var target := h.record.(state := ContainerAbsent, attemptPathIdentity := Some(path));
    r := Transition(h, target, false, "staging_container_absent_recorded", "staging_container_absence_journal_failed");
  }

  /** The record of an attempt that never released a container can be closed while its directory is the
      recorded one. */
  lemma ClosedFits(w: World, id: string)
    requires Inv(w) && id in w.journal && w.journal[id].record.state in {Allocated, Prepared} && id in w.attempts
    ensures var r := w.journal[id].record;
            var target := r.(state := ContainerAbsent, attemptPathIdentity := Some(AttemptPathIdentity(w, id)));
            && r.attemptIdentity == Some(w.attempts[id].identity) && r.attemptId == id
            && r.authorityRoot == w.root && r.authorityIdentity == w.rootIdentity
            && ((r.state.Prepared? ==> r.attemptPathIdentity == Some(AttemptPathIdentity(w, id))) ==>
                  TransitionValid(r, target) && RecordValid(target) && PathsCurrent(w, target))
  {
    assert RecordFits(w, id);
  }

  /** Container recovery has answered "absent": record it, through `ExecutionAbsent` where an execution
      container could have existed. */
  method RecordAbsence(h: Handle) returns (r: LifecycleResult)
    requires h.Valid() && h.Current() && h.record.state in CONTAINER_POSSIBLE
    requires h.lease.disk.world.MayExist() == {}
    modifies h, h.lease.disk`world, h.lease.disk`history, h.lease.disk`events, h.lease.disk`tick
    ensures h.Valid() && h.lease.disk.Grew() && JournalOnly(old(h.lease.disk.world), h.lease.disk.world)
    ensures h.lease.disk.world.journal.Keys == old(h.lease.disk.world.journal.Keys)
    ensures h.record.attemptId == old(h.record.attemptId)
    ensures r.Verified? ==> h.record.state.ContainerAbsent? && LifecycleCurrent(h)
    ensures old(h.lease.disk.Reliable()) ==>
              r.Verified?
    ensures r.Verified? ==> h.lease.disk.world.strays == old(h.lease.disk.world.strays)
  {
    hide Inv, IsRun, RecordFits, TransitionValid, RecordValid, PathsCurrent;
    var id := h.record.attemptId;
    var present := id in h.lease.disk.world.attempts;
    if h.record.state.ExecutionCreatePossible? {
      r := RecordAbsent(h, ExecutionAbsent, true, "staging_execution_absent_recorded",
                        "staging_execution_absence_journal_failed");
      if !r.Verified? {
        return;
      }
    }
    r := RecordAbsent(h, ContainerAbsent, !present, "staging_container_absent_recorded",
                      "staging_container_absence_journal_failed");
    if r.Verified? {
      PathsKept(h.lease.disk.world, h.record);
    }
  }

  /** One record of an absence. */
  method RecordAbsent(h: Handle, target: State, allowAbsent: bool, success: string, failure: string)
    returns (r: LifecycleResult)
    requires h.Valid() && h.Current() && h.record.state in CONTAINER_POSSIBLE
    requires h.lease.disk.world.MayExist() == {}
    requires target == if h.record.state.ExecutionCreatePossible? then ExecutionAbsent else ContainerAbsent
    modifies h, h.lease.disk`world, h.lease.disk`history, h.lease.disk`events, h.lease.disk`tick
    ensures h.Valid() && h.lease.disk.Grew() && JournalOnly(old(h.lease.disk.world), h.lease.disk.world)
    ensures h.lease.disk.world.journal.Keys == old(h.lease.disk.world.journal.Keys)
    ensures h.record.attemptId == old(h.record.attemptId)
    ensures r.Verified? ==>
              h.Current() && h.record.state == target && h.lease.disk.world.strays == old(h.lease.disk.world.strays)
    ensures old(h.lease.disk.Reliable()) ==> r.Verified? && h.lease.disk.Reliable()
  {
    BindingStored(h.lease.disk.world, h.record.attemptId);
    AbsenceRecords(h.lease.disk.world, h.record);
    hide Inv, IsRun, RecordFits, TransitionValid, RecordValid, PathsCurrent;
    r := Transition(h, h.record.(state := target), allowAbsent, success, failure);
  }

  lemma AbsenceRecords(w: World, r: Record)
    requires RecordValid(r) && PathsCurrent(w, r) && r.state in CONTAINER_POSSIBLE
    ensures var s := if r.state.ExecutionCreatePossible? then ExecutionAbsent else ContainerAbsent;
            TransitionValid(r, r.(state := s)) && RecordValid(r.(state := s)) && PathsCurrent(w, r.(state := s))
  {
  }

  /** The directories of a record in a container-possible or container-free state are as recorded. */
  lemma PathsKept(w: World, r: Record)
    requires Inv(w) && r.attemptId in w.journal && w.journal[r.attemptId].record == r
    requires r.state in CONTAINER_POSSIBLE + {ContainerAbsent}
    ensures PathsCurrent(w, r)
  {
    assert RecordFits(w, r.attemptId);
  }

  /** `_remove_recovered_record`. */
  method RemoveRecovered(h: Handle) returns (r: RecoveryResult)
    requires h.Valid() && !h.lease.closed && h.Current()
    requires h.record.attemptId !in h.lease.disk.world.attempts && h.lease.disk.world.MayExist() == {}
    modifies h.lease.disk`world, h.lease.disk`history, h.lease.disk`events, h.lease.disk`tick
    ensures h.Valid() && h.lease.disk.Grew() && JournalOnly(old(h.lease.disk.world), h.lease.disk.world)
    ensures h.lease.disk.world.journal.Keys <= old(h.lease.disk.world.journal.Keys)
    ensures h.lease.disk.world.strays == old(h.lease.disk.world.strays)
    ensures r.ready ==> h.record.attemptId !in h.lease.disk.world.journal && r.recovered == 1
    ensures old(h.lease.disk.Reliable()) ==> r.ready
  {
    hide Inv, IsRun, RecordValid;
    var removed := RemoveStagingRecord(h.lease, h.record, h.version);
    return if removed then RecoveryResult("staging_recovery_completed", true, 1)
           else RecoveryUnresolved("staging_recovery_journal_remove_failed");
  }

  /** The part of recovery that works on the one record found, under the lock. */
  method RecoverRecord(h: Handle, recoverer: bool) returns (r: RecoveryResult)
    requires h.Valid() && !h.lease.closed && h.Current()
    modifies h, h.lease.disk`world, h.lease.disk`history, h.lease.disk`events, h.lease.disk`tick
    ensures h.Valid() && h.lease.disk.Grew()
    ensures h.lease.disk.world.journal.Keys <= old(h.lease.disk.world.journal.Keys)
    ensures h.record.attemptId == old(h.record.attemptId)
    ensures r.ready ==>
              && h.record.attemptId !in h.lease.disk.world.attempts && h.record.attemptId !in h.lease.disk.world.journal
              && r.recovered == 1
              && (recoverer || old(h.record.state !in CONTAINER_POSSIBLE))
              && old(Finishable(h.lease.disk.world, h.record.attemptId, h.lease.disk.world.MayExist()))
    ensures old(h.lease.disk.Reliable()) ==>
              (r.ready <==>
                && (recoverer || old(h.record.state !in CONTAINER_POSSIBLE))
                && old(Finishable(h.lease.disk.world, h.record.attemptId, h.lease.disk.world.present)))
    ensures old(!Finishable(h.lease.disk.world, h.record.attemptId, h.lease.disk.world.MayExist())) ==>
              ResourcesOnly(old(h.lease.disk.world), h.lease.disk.world)
    ensures r.ready ==> h.lease.disk.world.strays == old(h.lease.disk.world.strays)
  {
    hide Inv, IsRun, RecordFits, RecordValid, TransitionValid, PathsCurrent, Step;
    var disk, id := h.lease.disk, h.record.attemptId;
    var present := id in disk.world.attempts;
    if h.record.state.Reserved? {
      if present {
        return RecoveryUnresolved("staging_recovery_reserved_attempt_unidentified");
      }
      NothingExistsBeside(disk.world, id);
      r := RemoveRecovered(h);
      return;
    }
    var outcome := Verified("");
    if h.record.state in {Allocated, Prepared} {
      if !present {
        NothingExistsBeside(disk.world, id);
        r := RemoveRecovered(h);
        return;
      }
      outcome := CloseUnreleased(h);
    } else if h.record.state in CONTAINER_POSSIBLE {
      if !recoverer {
        return RecoveryUnresolved("staging_recovery_container_unresolved");
      }
      BindingStored(disk.world, id);
      var absent := RecoverContainer(disk, id);
      if !absent {
        return RecoveryUnresolved("staging_recovery_container_unresolved");
      }
      outcome := RecordAbsence(h);
    }
    if !outcome.Verified? {
      return RecoveryUnresolved(Reason(outcome));
    }
    if !present {
      NothingExistsBeside(disk.world, id);
      r := RemoveRecovered(h);
      return;
    }
    if h.record.state.CleanupStarted? {
      outcome := ResumeCleanup(h);
    } else {
      PathsKept(h.lease.disk.world, h.record);
      outcome := CleanupClosed(h);
    }
    return if outcome.Verified? then RecoveryResult("staging_recovery_completed", true, 1)
           else RecoveryUnresolved(Reason(outcome));
  }

  /** `recover_staging_authority`. Whatever fails, it answers "ready" only for an empty authority, and a
      crash state that no engine could help it with is left as it is; when no call fails it finishes
      exactly the crash states that are `Recoverable`. */
  method RecoverAuthority(disk: StagingDisk, ws: Workspace, recoverer: bool) returns (r: RecoveryResult)
    requires disk.Valid()
    modifies disk
    ensures disk.Valid() && disk.Grew() && disk.locked == old(disk.locked)
    ensures r.ready ==>
              && Empty(disk.world) && old(RecoverableWith(disk.world, disk.world.MayExist()))
              && r.recovered == old(|disk.world.journal|)
    ensures old(!RecoverableWith(disk.world, disk.world.MayExist())) ==> ResourcesOnly(old(disk.world), disk.world)
    ensures r.ready && r.recovered == 0 ==> disk.world == old(disk.world) && r.reason == "staging_recovery_ready"
    ensures old(disk.locked) ==> !r.ready && disk.world == old(disk.world)
    ensures old(disk.Reliable() && !disk.locked && recoverer && WorkspaceUnchanged(disk.world, ws)) ==>
              (r.ready <==> old(Recoverable(disk.world)))
  {
    hide IsRun, RecordFits, RecordValid;
    var lease, reason := Acquire(disk);
    if lease.None? {
      return RecoveryUnresolved(reason);
    }
    r := RecoverUnderLease(lease.value, ws, recoverer);
    lease.value.Close();
  }

  lemma CellFits(w: World, id: string)
    requires Inv(w) && id in w.journal
    ensures var c := w.journal[id];
            && RecordValid(c.record) && c.record.attemptId == id && c.version < w.clock
            && c.record.authorityRoot == w.root && c.record.authorityIdentity == w.rootIdentity
    ensures w.journal.Keys == {id} && w.attempts.Keys <= {id} && IsAttemptId(id)
  {
    assert RecordFits(w, id);
  }

  lemma AtMostOne(w: World)
    requires Inv(w)
    ensures |w.journal| <= 1 && |w.attempts| <= 1
    ensures w.journal == map[] ==> Empty(w.(strays := 0))
    ensures forall name :: name in w.attempts ==> IsAttemptId(name)
  {
    if w.journal != map[] {
      var id :| id in w.journal;
      CellFits(w, id);
      assert |w.journal.Keys| == 1;
      assert w.attempts.Keys == {id} || w.attempts.Keys == {};
      assert |w.attempts.Keys| <= 1;
    }
  }

  predicate WorkspaceUnchanged(w: World, ws: Workspace) {
    forall id :: id in w.journal ==> RecordMatchesWorkspace(w.journal[id].record, ws)
  }

  method RecoverUnderLease(lease: Lease, ws: Workspace, recoverer: bool) returns (r: RecoveryResult)
    requires lease.Valid() && !lease.closed
    modifies lease.disk`world, lease.disk`history, lease.disk`events, lease.disk`tick
    ensures lease.Valid() && lease.disk.Grew()
    ensures r.ready ==>
              && Empty(lease.disk.world) && old(RecoverableWith(lease.disk.world, lease.disk.world.MayExist()))
              && r.recovered == old(|lease.disk.world.journal|)
    ensures old(!RecoverableWith(lease.disk.world, lease.disk.world.MayExist())) ==>
              ResourcesOnly(old(lease.disk.world), lease.disk.world)
    ensures r.ready && r.recovered == 0 ==>
              lease.disk.world == old(lease.disk.world) && r.reason == "staging_recovery_ready"
    ensures old(lease.disk.Reliable()) && recoverer && old(WorkspaceUnchanged(lease.disk.world, ws)) ==>
              (r.ready <==> old(Recoverable(lease.disk.world)))
  {
    hide Inv, IsRun, RecordFits, RecordValid, WorkspaceUnchanged, Descends;
    var h, early := FindRecord(lease, ws);
    if h.None? {
      return early;
    }
    r := RecoverRecord(h.value, recoverer);
    AtMostOne(lease.disk.world);
  }

  /** The scan: the answer for an empty, ambiguous or foreign authority, or a handle on its one record. */
  method FindRecord(lease: Lease, ws: Workspace) returns (h: Option<Handle>, early: RecoveryResult)
    requires lease.Valid() && !lease.closed
    ensures h.Some? ==>
              && fresh(h.value) && h.value.lease == lease && h.value.Valid() && h.value.Current()
              && lease.disk.world.strays == 0
              && lease.disk.world.journal.Keys == {h.value.record.attemptId}
              && |lease.disk.world.journal| == 1
              && lease.disk.world.attempts.Keys <= {h.value.record.attemptId}
    ensures h.None? && early.ready ==>
              Empty(lease.disk.world) && early == RecoveryResult("staging_recovery_ready", true, 0)
    ensures h.None? && WorkspaceUnchanged(lease.disk.world, ws) ==>
              (early.ready <==> Recoverable(lease.disk.world))
    ensures Empty(lease.disk.world) ==> Recoverable(lease.disk.world)
  {
    hide IsRun, RecordFits, RecordValid;
    var disk := lease.disk;
    early := RecoveryUnresolved("");
    h := None;
    AtMostOne(disk.world);
    // Any name that is not `<attempt>.json` makes the scan refuse.
    if disk.world.strays > 0 {
      early := RecoveryUnresolved("staging_recovery_journal_invalid");
    } else if exists name :: name in disk.world.attempts.Keys && !IsAttemptId(name) {
      early := RecoveryUnresolved("staging_recovery_authority_invalid");
    } else if |disk.world.journal| > 1 || |disk.world.attempts| > 1 {
      early := RecoveryUnresolved("staging_recovery_ambiguous");
    } else if disk.world.journal == map[] {
      early := if disk.world.attempts != map[] then RecoveryUnresolved("staging_recovery_orphan_attempt")
               else RecoveryResult("staging_recovery_ready", true, 0);
    } else {
      var id :| id in disk.world.journal;
      CellFits(disk.world, id);
      var cell := disk.world.journal[id];
      if !RecordMatchesWorkspace(cell.record, ws) {
        early := RecoveryUnresolved("staging_recovery_workspace_mismatch");
      } else if disk.world.attempts.Keys - {id} != {} {
        early := RecoveryUnresolved("staging_recovery_orphan_attempt");
      } else {
        assert |disk.world.journal.Keys| == 1;
        var handle := new Handle(lease, cell.record, cell.version);
        h := Some(handle);
      }
    }
  }
}
