// One staged operation from reservation to cleanup: staging the snapshots, the container runtime that
// works on them, and what happens when either fails.

module StagedOperation {
  import opened Prelude
  import opened FileIdentities
  import opened Paths
  import opened StagingRecords
  import opened StagingWorld
  import opened StagingJournal
  import opened StagingLifecycle
  import opened StagingRecovery

  datatype StageOutcome =
    | Staged(handle: Handle)
    | NotAcquired                          // the lock was busy or the authority invalid
    | LeaseKept                            // it raised before an attempt began, and left the lease open
    | Discarded(result: LifecycleResult)   // the attempt was begun and discarded
    | Interrupted                          // an interrupt left it: the lease is closed, the attempt kept

  function FirstRecord(w: World, id: string, roots: seq<WorkspaceBinding>, revision: int): Record {
    Record(id, Reserved, w.root, w.rootIdentity, RootPathIdentity(w), None, None, revision, roots, None)
  }

  /** Copies each snapshot below the attempt: two directories a root, and its entries below the first. */
  method CopySnapshots(h: Handle, sizes: seq<nat>) returns (copied: bool)
    requires h.Valid() && h.Current() && h.record.state.Allocated?
    requires h.record.attemptId in h.lease.disk.world.attempts
    modifies h.lease.disk`world, h.lease.disk`history, h.lease.disk`events, h.lease.disk`tick
    ensures h.Valid() && h.lease.disk.Grew() && h.Current()
    ensures h.lease.disk.world.journal == old(h.lease.disk.world.journal)
    ensures h.lease.disk.world.strays == old(h.lease.disk.world.strays)
    ensures h.record.attemptId in h.lease.disk.world.attempts
    ensures h.lease.disk.world.attempts[h.record.attemptId].identity
         == old(h.lease.disk.world.attempts[h.record.attemptId].identity)
    ensures old(h.lease.disk.Reliable()) ==> copied
  {
    hide Inv, IsRun, RecordValid, TransitionValid;
    var disk, id := h.lease.disk, h.record.attemptId;
    var i := 0;
    while i < |sizes|
      invariant i <= |sizes|
      invariant h.Valid() && disk.Grew() && h.Current() && id in disk.world.attempts
      invariant disk.world.journal == old(disk.world.journal) && disk.world.strays == old(disk.world.strays)
      invariant disk.world.attempts[id].identity == old(disk.world.attempts[id].identity)
    {
      var f := disk.NextFault();
      if f.FailBefore? {
        return false;
      }
      var w := disk.world;
      var a := w.attempts[id].(changed := w.clock, direct := w.attempts[id].direct + 2,
                               nested := w.attempts[id].nested + sizes[i]);
      disk.Advance(w.(attempts := w.attempts[id := a], clock := w.clock + 1), Populate(id, a));
      if f.FailAfter? {
        return false;
      }
      i := i + 1;
    }
    return true;
  }

  /** `stage_workspace_snapshots`. */
  method StageSnapshots(disk: StagingDisk, id: string, roots: seq<WorkspaceBinding>, revision: int,
                        identity: RootIdentity, sizes: seq<nat>) returns (r: StageOutcome)
    requires disk.Valid() && RootIdentityValid(identity)
    modifies disk
    ensures disk.Valid() && disk.Grew()
    ensures r.Staged? ==>
              && fresh(r.handle) && fresh(r.handle.lease) && r.handle.lease.disk == disk
              && r.handle.Valid() && LifecycleCurrent(r.handle) && r.handle.record.state.Prepared?
              && r.handle.record.attemptId == id && r.handle.record.workspaceRoots == roots
              && disk.locked && !old(disk.locked) && old(Empty(disk.world)) && disk.world.strays == 0
    ensures r.NotAcquired? ==> disk.world == old(disk.world) && disk.locked == old(disk.locked)
    ensures r.LeaseKept? ==> disk.locked && !old(disk.locked)
    ensures r.Discarded? || r.Interrupted? ==> !disk.locked
    ensures r.Discarded? && r.result.Verified? ==> disk.world.journal == map[] && disk.world.attempts == map[]
    ensures old(!Empty(disk.world)) && !r.NotAcquired? ==> r.LeaseKept? && disk.world == old(disk.world)
    ensures old(disk.Reliable() && !disk.locked) ==>
              (r.Staged? <==> old(Empty(disk.world) && RecordValid(FirstRecord(disk.world, id, roots, revision))))
    ensures old(disk.Reliable() && !disk.locked) ==>
              (r.LeaseKept? <==> !old(Empty(disk.world) && RecordValid(FirstRecord(disk.world, id, roots, revision))))
  {
    hide IsRun, RecordFits, TransitionValid, RecordValid;
    var acquired, _ := Acquire(disk);
    if acquired.None? {
      return NotAcquired;
    }
    var lease := acquired.value;
    // `require_empty_staging_authority`
    if disk.world.attempts != map[] || disk.world.journal != map[] || disk.world.strays != 0 {
      return LeaseKept;
    }
    AtMostOne(disk.world);
    hide Inv;
    var reserved := Reserve(lease, id, roots, revision);
    if reserved.None? {
      return LeaseKept;
    }
    r := StageAttempt(reserved.value, identity, sizes);
  }

  /** What follows the reservation: the attempt is filled and prepared, or discarded, or interrupted. */
  method StageAttempt(h: Handle, identity: RootIdentity, sizes: seq<nat>) returns (r: StageOutcome)
    requires h.Valid() && h.Current() && h.record.state.Reserved? && RootIdentityValid(identity)
    requires h.lease.disk.world.attempts == map[] && h.lease.disk.world.strays == 0
    requires h.record.authorityPathIdentity == RootPathIdentity(h.lease.disk.world)
    modifies h, h.lease, h.lease.disk
    ensures h.Valid() && h.lease.disk.Grew() && !r.NotAcquired? && !r.LeaseKept?
    ensures h.record.attemptId == old(h.record.attemptId) && h.record.workspaceRoots == old(h.record.workspaceRoots)
    ensures r.Staged? ==>
              && r.handle == h && LifecycleCurrent(h) && h.record.state.Prepared?
              && h.lease.disk.locked == old(h.lease.disk.locked) && h.lease.disk.world.strays == 0
    ensures !r.Staged? ==> !h.lease.disk.locked
    ensures r.Discarded? && r.result.Verified? ==>
              h.lease.disk.world.journal == map[] && h.lease.disk.world.attempts == map[]
    ensures old(h.lease.disk.Reliable()) ==> r.Staged?
  {
    hide IsRun, RecordFits, TransitionValid, RecordValid, Inv;
    var disk, id := h.lease.disk, h.record.attemptId;
    var created, done := PrepareAttempt(h, identity, sizes);
    if done {
      return Staged(h);
    }
    if disk.choices(disk.tick) {        // no `Exception`: only the `finally` clause runs
      h.lease.Close();
      return Interrupted;
    }
    CellFits(disk.world, id);
    var result := Discard(h, created != Nothing, if created.Identified? then Some(identity) else None);
    if result.Verified? {
      OnlyThisAttempt(disk.world, id);
    }
    return Discarded(result);
  }

  /** A kept lease locks the process out: the lock is still held, so neither another staging nor a
      recovery can begin. One leftover temporary file is enough to come here. */
  method KeptLeaseLocksOut(disk: StagingDisk, id: string, roots: seq<WorkspaceBinding>, revision: int,
                           identity: RootIdentity, sizes: seq<nat>, ws: Workspace)
    returns (first: StageOutcome, second: StageOutcome, recovery: RecoveryResult)
    requires disk.Valid() && RootIdentityValid(identity) && disk.Reliable() && !disk.locked
    requires !Empty(disk.world)
    modifies disk
    ensures first.LeaseKept? && second.NotAcquired? && !recovery.ready
    ensures disk.world == old(disk.world) && disk.locked
  {
    hide IsRun, Inv, RecordValid;
    first := StageSnapshots(disk, id, roots, revision, identity, sizes);
    second := StageSnapshots(disk, id, roots, revision, identity, sizes);
    recovery := RecoverAuthority(disk, ws, true);
  }

  /** Such an authority arises by one crash, inside the first journal write of an empty one. */
  lemma LeftoverKeepsTheLease(w: World)
    requires Inv(w) && Empty(w)
    ensures IsRun([w, WithTemporary(w)], [Stray]) && Inv(WithTemporary(w)) && !Empty(WithTemporary(w))
    ensures !RecoverableWith(WithTemporary(w), WithTemporary(w).MayExist())
  {
    StepKeepsInv(w, WithTemporary(w), Stray);
  }

  lemma OnlyThisAttempt(w: World, id: string)
    requires Inv(w) && w.journal.Keys <= {id} && id !in w.journal
    ensures w.journal == map[] && w.attempts == map[]
  {
    assert w.journal.Keys == {};
  }

  /** `reserve_staging_lifecycle`: the first record of an empty authority. */
  method Reserve(lease: Lease, id: string, roots: seq<WorkspaceBinding>, revision: int)
    returns (h: Option<Handle>)
    requires lease.Valid() && !lease.closed && Empty(lease.disk.world)
    modifies lease.disk`world, lease.disk`history, lease.disk`events, lease.disk`tick
    ensures lease.Valid() && lease.disk.Grew()
    ensures h.Some? ==>
              && fresh(h.value) && h.value.lease == lease && h.value.Valid() && h.value.Current()
              && h.value.record == old(FirstRecord(lease.disk.world, id, roots, revision))
              && lease.disk.world.attempts == map[] && lease.disk.world.strays == 0
              && h.value.record.authorityPathIdentity == RootPathIdentity(lease.disk.world)
    ensures old(lease.disk.Reliable()) ==>
              (h.Some? <==> old(RecordValid(FirstRecord(lease.disk.world, id, roots, revision))))
  {
    hide Inv, IsRun, RecordFits, RecordValid, TransitionValid;
    var first := FirstRecord(lease.disk.world, id, roots, revision);
    if !RecordValid(first) {
      return None;
    }
    var written := WriteStagingRecord(lease, first, None);
    if written.None? {
      return None;
    }
    var handle := new Handle(lease, first, written.value);
    return Some(handle);
  }

  datatype Creation = Nothing | Unidentified | Identified

  /** From the reserved record to the prepared one: make the directory, record its identity, fill it. */
  method PrepareAttempt(h: Handle, identity: RootIdentity, sizes: seq<nat>) returns (created: Creation, done: bool)
    requires h.Valid() && h.Current() && h.record.state.Reserved? && RootIdentityValid(identity)
    requires h.lease.disk.world.attempts == map[] && h.lease.disk.world.strays == 0
    requires h.record.authorityPathIdentity == RootPathIdentity(h.lease.disk.world)
    modifies h, h.lease.disk`world, h.lease.disk`history, h.lease.disk`events, h.lease.disk`tick
    ensures h.Valid() && h.lease.disk.Grew() && !h.lease.closed
    ensures h.record.attemptId == old(h.record.attemptId) && h.record.workspaceRoots == old(h.record.workspaceRoots)
    ensures done ==> LifecycleCurrent(h) && h.record.state.Prepared? && h.lease.disk.world.strays == 0
    ensures var w, id := h.lease.disk.world, h.record.attemptId;
            id in w.journal && w.journal[id].record.state in BEFORE_CONTAINERS
    ensures old(h.lease.disk.Reliable()) ==> done
  {
    hide IsRun, RecordFits, Inv, RecordValid, TransitionValid, Step;
    created := MakeAttemptDirectory(h, identity);
    done := created.Identified?;
    if !done {
      return;
    }
    done := RecordAllocated(h, identity);
    if !done {
      return;
    }
    done := CopySnapshots(h, sizes);
    if !done {
      return;
    }
    done := RecordPrepared(h);
  }

  /** `mkdir` of the attempt directory, and reading its identity. */
  method MakeAttemptDirectory(h: Handle, identity: RootIdentity) returns (created: Creation)
    requires h.Valid() && h.Current() && h.record.state.Reserved? && RootIdentityValid(identity)
    requires h.lease.disk.world.attempts == map[]
    modifies h.lease.disk`world, h.lease.disk`history, h.lease.disk`events, h.lease.disk`tick
    ensures h.Valid() && h.lease.disk.Grew() && h.Current()
    ensures h.lease.disk.world.journal == old(h.lease.disk.world.journal)
    ensures h.lease.disk.world.strays == old(h.lease.disk.world.strays)
    ensures created.Identified? ==>
              && h.record.attemptId in h.lease.disk.world.attempts
              && h.lease.disk.world.attempts[h.record.attemptId].identity == identity
    ensures old(h.lease.disk.Reliable()) ==> created.Identified? && h.lease.disk.Reliable()
  {
    hide IsRun, RecordFits, Inv, RecordValid, TransitionValid;
    var disk, id := h.lease.disk, h.record.attemptId;
    var f := disk.NextFault();
    if !f.Fine? {
      return Nothing;
    }
    var w := disk.world;
    disk.Advance(w.(attempts := map[id := Attempt(identity, w.clock, 0, 0)], rootChanged := w.clock,
                    clock := w.clock + 1), MakeAttempt(id, identity));
    f := disk.NextFault();
    return if f.Fine? then Identified else Unidentified;
  }

  /** `mark_staging_allocated` with the identity of the directory just made. */
  method RecordAllocated(h: Handle, identity: RootIdentity) returns (done: bool)
    requires h.Valid() && h.Current() && h.record.state.Reserved? && h.lease.disk.world.strays == 0
    requires h.record.attemptId in h.lease.disk.world.attempts
    requires h.lease.disk.world.attempts[h.record.attemptId].identity == identity
    modifies h, h.lease.disk`world, h.lease.disk`history, h.lease.disk`events, h.lease.disk`tick
    ensures h.Valid() && h.lease.disk.Grew()
    ensures h.record.attemptId == old(h.record.attemptId) && h.record.workspaceRoots == old(h.record.workspaceRoots)
    ensures h.lease.disk.world.attempts == old(h.lease.disk.world.attempts)
    ensures done ==> h.Current() && h.record.state.Allocated? && h.lease.disk.world.strays == 0
    ensures var w, id := h.lease.disk.world, h.record.attemptId;
            id in w.journal && w.journal[id].record.state in BEFORE_CONTAINERS
    ensures old(h.lease.disk.Reliable()) ==> done && h.lease.disk.Reliable()
  {
    hide IsRun, RecordFits;
    var world, id := h.lease.disk.world, h.record.attemptId;
    var target := h.record.(
      state := Allocated,
      authorityPathIdentity := RootPathIdentity(world),
      attemptIdentity := Some(identity),
      attemptPathIdentity := Some(AttemptPathIdentity(world, id)));
    AllocatedFits(world, h.record, target);
    hide Inv, RecordValid, TransitionValid;
    var r := Transition(h, target, false, "staging_attempt_allocated", "staging_allocation_journal_failed");
    return r.Verified?;
  }

  lemma AllocatedFits(w: World, r: Record, target: Record)
    requires Inv(w) && r.attemptId in w.journal && w.journal[r.attemptId].record == r && r.state.Reserved?
    requires r.attemptId in w.attempts
    requires target == r.(
      state := Allocated, authorityPathIdentity := RootPathIdentity(w),
      attemptIdentity := Some(w.attempts[r.attemptId].identity),
      attemptPathIdentity := Some(AttemptPathIdentity(w, r.attemptId)))
    ensures RecordValid(target) && TransitionValid(r, target) && PathsCurrent(w, target)
  {
    assert RecordFits(w, r.attemptId);
  }

  /** `mark_staging_prepared` with the attempt's present path identity. */
  method RecordPrepared(h: Handle) returns (done: bool)
    requires h.Valid() && h.Current() && h.record.state.Allocated? && h.lease.disk.world.strays == 0
    requires h.record.attemptId in h.lease.disk.world.attempts
    modifies h, h.lease.disk`world, h.lease.disk`history, h.lease.disk`events, h.lease.disk`tick
    ensures h.Valid() && h.lease.disk.Grew()
    ensures h.record.attemptId == old(h.record.attemptId) && h.record.workspaceRoots == old(h.record.workspaceRoots)
    ensures done ==> LifecycleCurrent(h) && h.record.state.Prepared? && h.lease.disk.world.strays == 0
    ensures var w, id := h.lease.disk.world, h.record.attemptId;
            id in w.journal && w.journal[id].record.state in BEFORE_CONTAINERS
    ensures old(h.lease.disk.Reliable()) ==> done
  {
    hide Inv, IsRun, RecordFits, RecordValid, TransitionValid, Step;
    var w, id := h.lease.disk.world, h.record.attemptId;
    PreparedFits(w, id);
    var prepared := h.record.(state := Prepared, attemptPathIdentity := Some(AttemptPathIdentity(w, id)));
    var r := Transition(h, prepared, false, "staging_attempt_prepared", "staging_prepare_journal_failed");
    done := r.Verified?;
  }

  lemma PreparedFits(w: World, id: string)
    requires Inv(w) && id in w.journal && w.journal[id].record.state.Allocated? && id in w.attempts
    ensures var r := w.journal[id].record;
            var prepared := r.(state := Prepared, attemptPathIdentity := Some(AttemptPathIdentity(w, id)));
            && RecordValid(prepared) && TransitionValid(r, prepared) && PathsCurrent(w, prepared)
            && r.attemptId == id && r.authorityRoot == w.root && r.authorityIdentity == w.rootIdentity
  {
    assert RecordFits(w, id);
  }

  // ---- The container runtime ----

  /** Only the resources and the clock differ. */
  predicate SameJournal(w: World, w': World) {
    w' == w.(pending := w'.pending, present := w'.present, clock := w'.clock) && w'.clock >= w.clock
  }

  /** Nothing is pending, and exactly the first `count` volumes are there. */
  ghost predicate OnlyVolumes(w: World, count: nat) {
    w.pending == {} && forall x: Resource :: x in w.present <==> x.Volume? && x.ordinal < count
  }

  lemma NoVolumesNothing(w: World)
    ensures OnlyVolumes(w, 0) <==> w.MayExist() == {}
  {
    if OnlyVolumes(w, 0) {
      assert forall x: Resource :: x !in w.present;
    }
    assert forall x: Resource :: x in w.present ==> x in w.MayExist();
  }

  /** A creation command is issued. `None` when it was never run; otherwise whether it was confirmed. One
      that was not confirmed has taken effect, or can still do so, or never will. */
  method IssueCreate(h: Handle, x: Resource) returns (confirmed: Option<bool>)
    requires h.Valid() && h.Current() && Issuable(h.record, x) && x !in h.lease.disk.world.MayExist()
    modifies h.lease.disk`world, h.lease.disk`history, h.lease.disk`events, h.lease.disk`tick
    ensures h.Valid() && h.lease.disk.Grew() && h.Current()
    ensures SameJournal(old(h.lease.disk.world), h.lease.disk.world)
    ensures confirmed.None? ==> h.lease.disk.world == old(h.lease.disk.world)
    ensures confirmed == Some(true) ==>
              && h.lease.disk.world.pending == old(h.lease.disk.world.pending)
              && h.lease.disk.world.present == old(h.lease.disk.world.present) + {x}
    ensures confirmed == Some(false) ==>
              && h.lease.disk.world.pending - {x} == old(h.lease.disk.world.pending)
              && h.lease.disk.world.present - {x} == old(h.lease.disk.world.present)
    ensures old(h.lease.disk.Reliable()) ==> confirmed == Some(true)
  {
    hide Inv, IsRun, RecordValid;
    var disk := h.lease.disk;
    var appears := disk.choices(disk.tick);
    var f := disk.NextFault();
    if f.FailBefore? {
      return None;
    }
    var w := disk.world;
    disk.Advance(w.(pending := w.pending + {x}, clock := w.clock + 1), Issue(h.record.attemptId, x));
    if f.Fine? || appears {
      w := disk.world;
      disk.Advance(w.(pending := w.pending - {x}, present := w.present + {x}, clock := w.clock + 1), Appear(x));
    }
    return Some(f.Fine?);
  }

  lemma OneMoreVolume(w: World, w': World, count: nat)
    requires OnlyVolumes(w, count) && w'.pending == w.pending && w'.present == w.present + {Volume(count)}
    ensures OnlyVolumes(w', count + 1)
  {
    forall x: Resource
      ensures x in w'.present <==> x.Volume? && x.ordinal < count + 1
    {
      assert x in w'.present <==> x in w.present || x == Volume(count);
    }
  }

  lemma OneVolumeLess(w: World, w': World, count: nat)
    requires count > 0 && OnlyVolumes(w, count) && OthersKept(w, w', Volume(count - 1))
    requires Volume(count - 1) !in w'.MayExist()
    ensures OnlyVolumes(w', count - 1)
  {
    forall x: Resource
      ensures x in w'.present <==> x.Volume? && x.ordinal < count - 1
    {
      if x != Volume(count - 1) {
        OtherKept(w, w', Volume(count - 1), x);
      }
    }
  }

  /** Removes volumes `count - 1` down to 0. Each has to be found before it is removed and seen to be
      absent; the first failure ends it. */
  method CleanupVolumes(disk: StagingDisk, count: nat) returns (verified: bool)
    requires disk.Valid() && OnlyVolumes(disk.world, count)
    modifies disk`world, disk`history, disk`events, disk`tick
    ensures disk.Valid() && disk.Grew() && ResourcesOnly(old(disk.world), disk.world)
    ensures verified ==> disk.world.MayExist() == {}
    ensures old(disk.Reliable()) ==> verified
  {
    hide Inv, IsRun, OnlyVolumes;
    var i: nat := count;
    while i > 0
      invariant i <= count && OnlyVolumes(disk.world, i)
      invariant disk.Valid() && disk.Grew() && ResourcesOnly(old(disk.world), disk.world)
    {
      var w := disk.world;
      i := i - 1;
      VolumeThere(w, i);
      verified := RecoverResource(disk, Volume(i), false);
      if !verified {
        return;
      }
      OneVolumeLess(w, disk.world, i + 1);
    }
    NoVolumesNothing(disk.world);
    return true;
  }

  lemma VolumeThere(w: World, i: nat)
    requires OnlyVolumes(w, i + 1)
    ensures Volume(i) in w.present
  {
  }

  /** `ContainerVolumeRuntime.prepare`: volumes, then the prep container that fills them, which is gone
      again when it answers "prepared". Otherwise `cleanup` says whether nothing was left behind. */
  method Prepare(h: Handle, volumes: nat) returns (prepared: bool, cleanup: bool)
    requires h.Valid() && h.Current() && h.record.state.CreatePossible? && h.lease.disk.world.MayExist() == {}
    requires h.record.container.Some? && volumes == |h.record.container.value.volumeNames|
    modifies h.lease.disk`world, h.lease.disk`history, h.lease.disk`events, h.lease.disk`tick
    ensures h.Valid() && h.lease.disk.Grew() && h.Current()
    ensures SameJournal(old(h.lease.disk.world), h.lease.disk.world)
    ensures prepared ==> OnlyVolumes(h.lease.disk.world, volumes)
    ensures cleanup && !prepared ==> h.lease.disk.world.MayExist() == {}
    ensures old(h.lease.disk.Reliable()) ==> prepared
  {
    hide Inv, IsRun, RecordValid, OnlyVolumes;
    var disk := h.lease.disk;
    var f := disk.NextFault();
    NoVolumesNothing(disk.world);
    if !f.Fine? {                       // the staged input changed; nothing was created
      return false, true;
    }
    var i := 0;
    while i < volumes
      invariant i <= volumes && h.Valid() && disk.Grew() && h.Current()
      invariant SameJournal(old(disk.world), disk.world)
      invariant OnlyVolumes(disk.world, i)
    {
      var w := disk.world;
      NotYetThere(w, i);
      var confirmed := IssueCreate(h, Volume(i));
      if confirmed != Some(true) {
        return false, false;
      }
      OneMoreVolume(w, disk.world, i);
      i := i + 1;
      f := disk.NextFault();            // inspect
      if f.FailBefore? {
        cleanup := CleanupVolumes(disk, i);
        return false, cleanup;
      }
      if f.FailAfter? {
        return false, false;
      }
    }
    prepared, cleanup := FillVolumes(h, volumes);
  }

  lemma NotYetThere(w: World, count: nat)
    requires OnlyVolumes(w, count)
    ensures Volume(count) !in w.MayExist() && PrepContainer !in w.MayExist() && ExecutionContainer !in w.MayExist()
  {
  }

  /** The second half of `prepare`: the prep container, the copies, and its removal. */
  method FillVolumes(h: Handle, volumes: nat) returns (prepared: bool, cleanup: bool)
    requires h.Valid() && h.Current() && h.record.state.CreatePossible? && OnlyVolumes(h.lease.disk.world, volumes)
    modifies h.lease.disk`world, h.lease.disk`history, h.lease.disk`events, h.lease.disk`tick
    ensures h.Valid() && h.lease.disk.Grew() && h.Current()
    ensures SameJournal(old(h.lease.disk.world), h.lease.disk.world)
    ensures prepared ==> OnlyVolumes(h.lease.disk.world, volumes)
    ensures cleanup && !prepared ==> h.lease.disk.world.MayExist() == {}
    ensures old(h.lease.disk.Reliable()) ==> prepared
  {
    hide Inv, IsRun, RecordValid, OnlyVolumes;
    var disk := h.lease.disk;
    ghost var ready := disk.world;
    NotYetThere(ready, volumes);
    var confirmed := IssueCreate(h, PrepContainer);
    if confirmed != Some(true) {
      return false, false;
    }
    ghost var full := disk.world;
    var f := disk.NextFault();          // inspect, copies, the last check of the staged input
    PresentIsNotPending(disk.world, PrepContainer);
    cleanup := RemoveResource(disk, PrepContainer);
    if !cleanup {
      return false, false;
    }
    ContainerGone(ready, full, disk.world, PrepContainer, volumes);
    if !f.Fine? {
      cleanup := CleanupVolumes(disk, volumes);
      return false, cleanup;
    }
    return true, true;
  }

  /** A container came and went, and the volumes are as before. */
  lemma ContainerGone(w: World, during: World, w': World, x: Resource, volumes: nat)
    requires OnlyVolumes(w, volumes) && !x.Volume?
    requires during.pending - {x} == w.pending && during.present - {x} == w.present
    requires OthersKept(during, w', x) && x !in w'.MayExist()
    ensures OnlyVolumes(w', volumes)
  {
    forall y: Resource
      ensures y in w'.present <==> y in w.present
      ensures y !in w'.pending
    {
      assert y in w.present <==> y in during.present - {x};
      assert y in during.pending - {x} <==> y in w.pending;
      if y != x {
        OtherKept(during, w', x, y);
      }
    }
  }

  /** `_execute_transport`. `closed` is what `container_closure_verified` answers about its outcome;
      `raised` that an exception left the operation instead. */
  method ExecuteTransport(h: Handle, binding: ContainerBinding) returns (closed: bool, raised: bool)
    requires h.Valid() && LifecycleCurrent(h) && h.record.state.Prepared?
    modifies h, h.lease.disk`world, h.lease.disk`history, h.lease.disk`events, h.lease.disk`tick
    ensures h.Valid() && h.lease.disk.Grew()
    ensures h.lease.disk.world.journal.Keys == old(h.lease.disk.world.journal.Keys)
    ensures h.record.attemptId == old(h.record.attemptId)
    ensures closed && h.Current() ==> h.lease.disk.world.MayExist() == {}
    ensures old(h.lease.disk.Reliable() && BindingFits(h.record, binding)) ==>
              closed && !raised && LifecycleCurrent(h) && h.record.state.ContainerAbsent?
    ensures closed ==> !raised
  {
    hide IsRun, RecordFits, Inv, RecordValid, TransitionValid, BindingFits, Step, OnlyVolumes;
    var disk := h.lease.disk;
    NothingExistsBeside(disk.world, h.record.attemptId);
    CellFits(disk.world, h.record.attemptId);
    BindingMoves(h.record, binding);
    var f := disk.NextFault();
    if f.FailBefore? {                  // probe, plan or image refused
      return true, false;
    }
    if f.FailAfter? {
      return false, true;
    }
    var r := MarkMoved(h, CreatePossible, Some(binding), "staging_container_create_possible",
                       "staging_container_create_journal_failed");
    if r.Raised? {
      return false, true;
    }
    if r.Unresolved? {
      return true, false;
    }
    var volumes := |binding.volumeNames|;
    var prepared, cleanup := Prepare(h, volumes);
    if !prepared {
      return cleanup, !cleanup && disk.choices(disk.tick);
    }
    closed, raised := ExecuteCreated(h, volumes);
  }

  lemma BindingMoves(r: Record, binding: ContainerBinding)
    requires RecordValid(r) && r.state.Prepared?
    ensures var next := Moved(r, CreatePossible, Some(binding));
            BindingFits(r, binding) ==> RecordValid(next) && TransitionValid(r, next)
  {
  }

  predicate BindingFits(r: Record, binding: ContainerBinding) {
    ContainerBindingValid(binding) && binding.instanceName == "lca-" + r.attemptId
  }

  /** From prepared volumes to closed resources: the execution container may exist from the record of
      `ExecutionCreatePossible` on, and every absence is proved before it is recorded. */
  method ExecuteCreated(h: Handle, volumes: nat) returns (closed: bool, raised: bool)
    requires h.Valid() && LifecycleCurrent(h) && h.record.state.CreatePossible?
    requires OnlyVolumes(h.lease.disk.world, volumes)
    modifies h, h.lease.disk`world, h.lease.disk`history, h.lease.disk`events, h.lease.disk`tick
    ensures h.Valid() && h.lease.disk.Grew()
    ensures h.lease.disk.world.journal.Keys == old(h.lease.disk.world.journal.Keys)
    ensures h.record.attemptId == old(h.record.attemptId)
    ensures closed ==>
              !raised && h.lease.disk.world.MayExist() == {} && LifecycleCurrent(h) && h.record.state.ContainerAbsent?
    ensures old(h.lease.disk.Reliable()) ==> closed
  {
    hide IsRun, RecordFits, Inv, OnlyVolumes;
    var disk := h.lease.disk;
    MovesOn(h.record);
    NotYetThere(disk.world, volumes);
    NothingPending(disk.world, volumes);
    hide RecordValid, TransitionValid;
    var r := MarkMoved(h, ExecutionCreatePossible, None, "staging_execution_create_possible",
                       "staging_execution_create_journal_failed");
    SameResources(old(disk.world), disk.world, volumes);
    if !r.Verified? {
      var _ := CleanupVolumes(disk, volumes);
      return false, false;
    }
    var executionClosed, interrupted := RunExecution(h, volumes);
    if executionClosed {
      closed := CloseVolumes(h, volumes);
      return closed && !interrupted, interrupted;
    }
    return false, interrupted;
  }

  lemma NothingPending(w: World, volumes: nat)
    requires OnlyVolumes(w, volumes)
    ensures w.pending == {}
  {
  }

  lemma SameResources(w: World, w': World, volumes: nat)
    requires OnlyVolumes(w, volumes) && w'.pending == w.pending && w'.present == w.present
    ensures OnlyVolumes(w', volumes)
  {
  }

  /** The execution container from its creation to its removal. One that was confirmed is removed by its
      id, with the check that it is gone; one in doubt has to be found first, if it is looked for at all.
      `interrupted` says that an exception goes on after whatever was closed. */
  method RunExecution(h: Handle, volumes: nat) returns (closed: bool, interrupted: bool)
    requires h.Valid() && LifecycleCurrent(h) && h.record.state.ExecutionCreatePossible?
    requires OnlyVolumes(h.lease.disk.world, volumes)
    modifies h.lease.disk`world, h.lease.disk`history, h.lease.disk`events, h.lease.disk`tick
    ensures h.Valid() && h.lease.disk.Grew() && LifecycleCurrent(h)
    ensures SameJournal(old(h.lease.disk.world), h.lease.disk.world)
    ensures closed ==> OnlyVolumes(h.lease.disk.world, volumes)
    ensures old(h.lease.disk.Reliable()) ==> closed && !interrupted
  {
    hide IsRun, RecordFits, Inv, RecordValid, OnlyVolumes;
    var disk := h.lease.disk;
    ghost var ready := disk.world;
    NotYetThere(ready, volumes);
    var created := IssueCreate(h, ExecutionContainer);
    if created.None? {
      return true, false;
    }
    ghost var during := disk.world;
    var doubtful, goesOn := disk.choices(disk.tick), disk.choices(disk.tick + 1);
    var f := disk.NextFault();          // everything from start to logs and the export of the output
    interrupted := !f.Fine? && goesOn;
    if !created.value {
      if doubtful {                     // nothing correlates it with this attempt, or the parent raised
        return false, interrupted;
      }
      closed := RecoverResource(disk, ExecutionContainer, false);
    } else if f.FailBefore? && interrupted {
      return false, true;               // interrupted outside the part that closes the container
    } else {
      PresentIsNotPending(disk.world, ExecutionContainer);
      closed := RemoveResource(disk, ExecutionContainer);
    }
    if closed {
      ContainerGone(ready, during, disk.world, ExecutionContainer, volumes);
    }
  }

  /** `_close_volume_outcome` once the execution container is closed: its absence is recorded, the
      volumes are removed with proof, and only then is the attempt recorded as container-free. */
  method CloseVolumes(h: Handle, volumes: nat) returns (closed: bool)
    requires h.Valid() && LifecycleCurrent(h) && h.record.state.ExecutionCreatePossible?
    requires OnlyVolumes(h.lease.disk.world, volumes)
    modifies h, h.lease.disk`world, h.lease.disk`history, h.lease.disk`events, h.lease.disk`tick
    ensures h.Valid() && h.lease.disk.Grew()
    ensures h.lease.disk.world.journal.Keys == old(h.lease.disk.world.journal.Keys)
    ensures h.record.attemptId == old(h.record.attemptId)
    ensures closed ==> h.lease.disk.world.MayExist() == {} && LifecycleCurrent(h) && h.record.state.ContainerAbsent?
    ensures old(h.lease.disk.Reliable()) ==> closed
  {
    hide IsRun, RecordFits, Inv, OnlyVolumes;
    MovesOn(h.record);
    NotYetThere(h.lease.disk.world, volumes);
    hide RecordValid, TransitionValid;
    var r := MarkMoved(h, ExecutionAbsent, None, "staging_execution_absent_recorded",
                       "staging_execution_absence_journal_failed");
    SameResources(old(h.lease.disk.world), h.lease.disk.world, volumes);
    if r.Verified? {
      closed := RemoveVolumes(h, volumes);
    } else {
      closed := false;
    }
  }

  method RemoveVolumes(h: Handle, volumes: nat) returns (closed: bool)
    requires h.Valid() && h.Current() && h.record.state.ExecutionAbsent?
    requires OnlyVolumes(h.lease.disk.world, volumes)
    modifies h, h.lease.disk`world, h.lease.disk`history, h.lease.disk`events, h.lease.disk`tick
    ensures h.Valid() && h.lease.disk.Grew()
    ensures h.lease.disk.world.journal.Keys == old(h.lease.disk.world.journal.Keys)
    ensures h.record.attemptId == old(h.record.attemptId)
    ensures closed ==> h.lease.disk.world.MayExist() == {} && LifecycleCurrent(h) && h.record.state.ContainerAbsent?
    ensures old(h.lease.disk.Reliable()) ==> closed
  {
    hide IsRun, RecordFits, OnlyVolumes;
    PathsKept(h.lease.disk.world, h.record);
    hide Inv;
    var volumesClosed := CleanupVolumes(h.lease.disk, volumes);
    if !volumesClosed {
      return false;
    }
    MovesOn(h.record);
    hide RecordValid, TransitionValid;
    var r := MarkMoved(h, ContainerAbsent, None, "staging_container_absent_recorded",
                       "staging_container_absence_journal_failed");
    closed := r.Verified?;
    if closed {
      PathsKept(h.lease.disk.world, h.record);
    }
  }

  lemma MovesOn(r: Record)
    requires RecordValid(r) && r.state in CONTAINER_POSSIBLE
    ensures var next := match r.state
                        case CreatePossible => ExecutionCreatePossible
                        case ExecutionCreatePossible => ExecutionAbsent
                        case _ => ContainerAbsent;
            RecordValid(Moved(r, next, None)) && TransitionValid(r, Moved(r, next, None))
  {
  }

  // ---- Whole operations ----

  /** What `run_staged_workspace_operation` does with the attempt after the operation: record that no
      container is left, if that was answered for, and clean up; otherwise keep everything for recovery. */
  method FinishOperation(h: Handle, closed: bool, raised: bool) returns (cleaned: bool)
    requires h.Valid() && !h.lease.closed && !(closed && raised)
    requires closed && h.Current() ==> h.lease.disk.world.MayExist() == {}
    modifies h, h.lease, h.lease.disk
    ensures h.Valid() && h.lease.closed && !h.lease.disk.locked && h.lease.disk.Grew()
    ensures h.lease.disk.world.journal.Keys <= old(h.lease.disk.world.journal.Keys)
    ensures h.record.attemptId == old(h.record.attemptId)
    ensures cleaned ==>
              h.record.attemptId !in h.lease.disk.world.attempts && h.record.attemptId !in h.lease.disk.world.journal
    ensures !closed && !raised ==> !cleaned && h.lease.disk.world == old(h.lease.disk.world)
    ensures raised && old(h.record.state !in {Prepared, ContainerAbsent}) ==>
              !cleaned && h.lease.disk.world == old(h.lease.disk.world)
    ensures old(h.lease.disk.Reliable() && h.record.state.ContainerAbsent? && LifecycleCurrent(h)) && closed ==> cleaned
  {
    hide Inv, RecordValid, TransitionValid, IsRun, RecordFits, Step;
    cleaned := false;
    var proceed := closed || (raised && h.record.state in {Prepared, ContainerAbsent});
    if proceed && !h.record.state.ContainerAbsent? && !h.record.state.Reserved? {
      if h.Current() && h.record.state.Prepared? {
        NothingExistsBeside(h.lease.disk.world, h.record.attemptId);
      }
      var r := MarkMoved(h, ContainerAbsent, None, "staging_container_absent_recorded",
                         "staging_container_absence_journal_failed");
      proceed := r.Verified?;
    }
    if proceed {
      // the output is observed here, and whatever that answers or raises, cleanup follows
      var r := CleanupLifecycle(h);
      cleaned := r.Verified?;
    } else {
      h.lease.Close();
    }
  }

  /** `run_staged_workspace_operation` with the container runtime as its operation. */
  method RunStaged(disk: StagingDisk, id: string, roots: seq<WorkspaceBinding>, revision: int,
                   identity: RootIdentity, sizes: seq<nat>, binding: ContainerBinding) returns (cleaned: bool)
    requires disk.Valid() && RootIdentityValid(identity)
    modifies disk
    ensures disk.Valid() && disk.Grew()
    ensures cleaned ==> disk.world.journal == map[] && disk.world.attempts == map[] && disk.world.MayExist() == {}
    ensures old(disk.Reliable() && !disk.locked && Empty(disk.world)
                && RecordValid(FirstRecord(disk.world, id, roots, revision))
                && ContainerBindingValid(binding) && binding.instanceName == "lca-" + id) ==>
              cleaned
  {
    hide IsRun, RecordFits, RecordValid, TransitionValid, Inv;
    var outcome := StageSnapshots(disk, id, roots, revision, identity, sizes);
    if !outcome.Staged? {
      return false;
    }
    var h := outcome.handle;
    CellFits(disk.world, id);
    var closed, raised := ExecuteTransport(h, binding);
    cleaned := FinishOperation(h, closed, raised);
    if cleaned {
      OnlyThisAttempt(disk.world, id);
      AtMostOne(disk.world);
    }
  }

  /** `ContainerExecutionRuntime.execute`: recover first, and start only from a ready authority. */
  method Execute(disk: StagingDisk, ws: Workspace, id: string, roots: seq<WorkspaceBinding>, revision: int,
                 identity: RootIdentity, sizes: seq<nat>, binding: ContainerBinding) returns (ready: bool, cleaned: bool)
    requires disk.Valid() && RootIdentityValid(identity)
    modifies disk
    ensures disk.Valid() && disk.Grew()
    ensures cleaned ==> ready && disk.world.journal == map[] && disk.world.attempts == map[] && disk.world.MayExist() == {}
    ensures ready ==> old(RecoverableWith(disk.world, disk.world.MayExist()))
    ensures old(disk.Reliable() && !disk.locked && WorkspaceUnchanged(disk.world, ws)) ==>
              (ready <==> old(Recoverable(disk.world)))
  {
    hide IsRun, RecordFits, RecordValid, TransitionValid, Inv;
    var recovery := RecoverAuthority(disk, ws, true);
    ready := recovery.ready;
    cleaned := false;
    if ready {
      cleaned := RunStaged(disk, id, roots, revision, identity, sizes, binding);
    }
  }

  // ---- Crashes ----

  /** What recovery completes. Take any run of the model that starts from a sound authority, crash at any
      point of it, and recover with no further failure: recovery ends ready, with nothing left, exactly
      when the crash state is `Recoverable`, and a second recovery then finds nothing to do. Since every
      method above only extends such a run, the crash may strike inside staging, inside the container
      runtime, inside cleanup or inside an earlier recovery. */
  method CrashAndRecoverTwice(crashed: World, ghost h: seq<World>, ghost es: seq<Event>, ghost k: nat,
                              faults: nat -> Fault, late: nat -> bool, choices: nat -> bool, ws: Workspace)
    returns (first: RecoveryResult, second: RecoveryResult)
    requires IsRun(h, es) && Inv(h[0]) && k <= |es| && crashed == h[k]
    requires forall n: nat :: faults(n) == Fine && !late(n)
    requires WorkspaceUnchanged(crashed, ws)
    ensures first.ready <==> Recoverable(crashed)
    ensures first.ready ==> first.recovered == |crashed.journal| && second == RecoveryResult("staging_recovery_ready", true, 0)
  {
    hide Step, Inv, Recoverable, RecoverableWith, WorkspaceUnchanged;
    var disk := new StagingDisk.AfterCrash(crashed, h, es, k, faults, late, choices);
    first := RecoverAuthority(disk, ws, true);
    second := first;
    if first.ready {
      EmptyIsReady(disk.world, ws);
      second := RecoverAuthority(disk, ws, true);
    }
  }

  /** What recovery never completes. If a crash state is not recoverable even with everything that can
      still exist, then no number of further recoveries, by however many processes, with whatever the
      engine and the disk do to them, ends ready; and the journal and the attempt stay as they were. */
  method StuckForEver(crashed: World, ghost h: seq<World>, ghost es: seq<Event>, ghost k: nat, restarts: nat,
                      faults: nat -> nat -> Fault, late: nat -> nat -> bool, choices: nat -> nat -> bool,
                      ws: nat -> Workspace, recoverer: nat -> bool)
    returns (results: seq<RecoveryResult>, left: World)
    requires IsRun(h, es) && Inv(h[0]) && k <= |es| && crashed == h[k]
    requires !RecoverableWith(crashed, crashed.MayExist())
    ensures |results| == restarts && forall i :: 0 <= i < restarts ==> !results[i].ready
    ensures left.journal == crashed.journal && left.attempts == crashed.attempts && left.strays == crashed.strays
  {
    hide Step, Inv, RecoverableWith;
    left := crashed;
    results := [];
    ghost var run, events := h[..k + 1], es[..k];
    RunPrefix(h, es, k);
    while |results| < restarts
      invariant |results| <= restarts && forall i :: 0 <= i < |results| ==> !results[i].ready
      invariant IsRun(run, events) && Inv(run[0]) && left == run[|events|]
      invariant !RecoverableWith(left, left.MayExist())
      invariant left.journal == crashed.journal && left.attempts == crashed.attempts && left.strays == crashed.strays
      decreases restarts - |results|
    {
      var i := |results|;
      var disk := new StagingDisk.AfterCrash(left, run, events, |events|, faults(i), late(i), choices(i));
      var r := RecoverAuthority(disk, ws(i), recoverer(i));
      StuckStays(left, disk.world);
      left, run, events := disk.world, disk.history, disk.events;
      results := results + [r];
    }
  }

  lemma RunPrefix(h: seq<World>, es: seq<Event>, k: nat)
    requires IsRun(h, es) && k <= |es|
    ensures IsRun(h[..k + 1], es[..k])
  {
    hide Step;
    forall i {:trigger es[..k][i]} | 0 <= i < k
      ensures Step(h[..k + 1][i], h[..k + 1][i + 1], es[..k][i])
    {
      assert es[..k][i] == es[i];
    }
  }

  lemma StuckStays(w: World, w': World)
    requires !RecoverableWith(w, w.MayExist()) && ResourcesOnly(w, w')
    ensures !RecoverableWith(w', w'.MayExist())
  {
    if RecoverableWith(w', w'.MayExist()) {
      OnlyLessWasThere(w, w');
    }
  }

  lemma OnlyLessWasThere(w: World, w': World)
    requires RecoverableWith(w', w'.MayExist()) && ResourcesOnly(w, w')
    ensures RecoverableWith(w, w.MayExist())
  {
    FindingMoreHelps(w', w'.MayExist(), w.MayExist());
    forall id | id in w.journal
      ensures Finishable(w, id, w.MayExist())
    {
      assert Finishable(w', id, w.MayExist());
    }
  }

  lemma EmptyIsReady(w: World, ws: Workspace)
    requires Empty(w)
    ensures Recoverable(w) && WorkspaceUnchanged(w, ws)
  {
  }

  /** Whatever happens after a crash, even more failures and more crashes, stays a run: the resources
      that may exist are answered for at every point of it. */
  method CrashedRunsStaySafe(disk: StagingDisk, crashed: World, ghost k: nat, ws: Workspace,
                             recoverer: bool, faults: nat -> Fault, late: nat -> bool, choices: nat -> bool)
    returns (next: StagingDisk)
    requires disk.Valid() && k <= |disk.events| && crashed == disk.history[k]
    ensures next.Valid() && !next.locked
    ensures k < |next.history| && next.history[k] == crashed
    ensures forall i :: 0 <= i < |next.history| && next.history[i].MayExist() != {} ==>
              exists id :: id in next.history[i].journal && AnswersFor(next.history[i], id)
  {
    hide Step, Inv, AnswersFor;
    next := new StagingDisk.AfterCrash(crashed, disk.history, disk.events, k, faults, late, choices);
    var _ := RecoverAuthority(next, ws, recoverer);
    forall i | 0 <= i < |next.history| && next.history[i].MayExist() != {}
      ensures exists id :: id in next.history[i].journal && AnswersFor(next.history[i], id)
    {
      ResourcesAreAnsweredFor(next.history, next.events, i);
    }
  }
}
