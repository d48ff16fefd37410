// The lifecycle of one attempt: recording each state, discarding an unreleased attempt and cleaning up
// a closed one.

module StagingLifecycle {
  import opened Prelude
  import opened FileIdentities
  import opened Paths
  import opened StagingRecords
  import opened StagingWorld
  import opened StagingJournal

  // ---- Removing an attempt directory ----

  /** Only the attempt directories, the change time of their root and the clock differ. */
  predicate AttemptsOnly(w: World, w': World) {
    w' == w.(attempts := w'.attempts, rootChanged := w'.rootChanged, clock := w'.clock) && w'.clock >= w.clock
  }

  /** `remove_directory_contents` on an attempt: objects vanish one by one, direct and deeper ones in
      any order, until none is left or a call fails. */
  method RemoveContents(disk: StagingDisk, id: string) returns (done: bool)
    requires disk.Valid() && Removable(disk.world, id)
    modifies disk`world, disk`history, disk`events, disk`tick
    ensures disk.Valid() && disk.Grew() && AttemptsOnly(old(disk.world), disk.world)
    ensures Removable(disk.world, id)
    ensures disk.world.attempts.Keys == old(disk.world.attempts.Keys)
    ensures disk.world.attempts[id].identity == old(disk.world.attempts[id].identity)
    ensures done ==> disk.world.attempts[id].direct == 0 && disk.world.attempts[id].nested == 0
    ensures old(disk.Reliable()) ==> done
  {
    hide Inv, IsRun;
    done := true;
    while disk.world.attempts[id].direct > 0 || disk.world.attempts[id].nested > 0
      invariant disk.Valid() && disk.Grew() && AttemptsOnly(old(disk.world), disk.world)
      invariant Removable(disk.world, id)
      invariant disk.world.attempts.Keys == old(disk.world.attempts.Keys)
      invariant disk.world.attempts[id].identity == old(disk.world.attempts[id].identity)
      decreases disk.world.attempts[id].direct + disk.world.attempts[id].nested
    {
      var w := disk.world;
      var a := w.attempts[id];
      var direct := a.nested == 0 || (a.direct > 0 && disk.choices(disk.tick));
      var f := disk.NextFault();
      if !f.Fine? {
        return false;
      }
      var a' := if direct then a.(direct := a.direct - 1, changed := w.clock) else a.(nested := a.nested - 1);
      disk.Advance(w.(attempts := w.attempts[id := a'], clock := w.clock + 1), RemoveObject(id, direct));
    }
  }

  datatype Removal = Removed | Missing | Changed | Failed

  /** Open the attempt by name, check that it is the recorded directory object, empty it and remove it. */
  method RemoveDirectory(lease: Lease, id: string, identity: RootIdentity) returns (r: Removal)
    requires lease.Valid()
    requires id in lease.disk.world.attempts && lease.disk.world.attempts[id].identity == identity ==>
               Removable(lease.disk.world, id)
    modifies lease.disk`world, lease.disk`history, lease.disk`events, lease.disk`tick
    ensures lease.Valid() && lease.disk.Grew() && AttemptsOnly(old(lease.disk.world), lease.disk.world)
    ensures r.Removed? || r.Missing? ==> id !in lease.disk.world.attempts
    ensures r.Missing? ==> id !in old(lease.disk.world.attempts) && lease.disk.world == old(lease.disk.world)
    ensures lease.disk.world.attempts.Keys <= old(lease.disk.world.attempts.Keys)
    ensures old(lease.disk.Reliable()) && !lease.closed ==>
              r == if id !in old(lease.disk.world.attempts) then Missing
                   else if old(lease.disk.world.attempts)[id].identity != identity then Changed else Removed
  {
    hide Inv, IsRun;
    var disk := lease.disk;
    if lease.closed {
      return Failed;
    }
    var f := disk.NextFault();
    if !f.Fine? {
      return Failed;
    }
    if id !in disk.world.attempts {
      return Missing;
    }
    if disk.world.attempts[id].identity != identity {
      return Changed;
    }
    var emptied := RemoveContents(disk, id);
    if !emptied {
      return Failed;
    }
    f := disk.NextFault();
    if f.FailBefore? {
      return Failed;
    }
    var w := disk.world;
    disk.Advance(w.(attempts := w.attempts - {id}, rootChanged := w.clock, clock := w.clock + 1), RemoveAttempt(id));
    return if f.Fine? then Removed else Failed;
  }

  // ---- Recording states ----

  /** The successor that each `mark_` call builds with `replace`; the constructor may refuse it. */
  method MarkMoved(h: Handle, s: State, binding: Option<ContainerBinding>, success: string, failure: string)
    returns (r: LifecycleResult)
    requires h.Valid() && !s.Reserved? && !h.record.state.Reserved?
    requires h.Current() ==> AbsenceProved(h.lease.disk.world, s)
    modifies h, h.lease.disk`world, h.lease.disk`history, h.lease.disk`events, h.lease.disk`tick
    ensures h.Valid() && h.lease.disk.Grew() && JournalOnly(old(h.lease.disk.world), h.lease.disk.world)
    ensures r.Verified? ==>
              && h.Current() && h.record == Moved(old(h.record), s, binding)
              && old(h.Current() && TransitionValid(h.record, Moved(h.record, s, binding))
                     && PathsCurrent(h.lease.disk.world, Moved(h.record, s, binding)))
    ensures !r.Verified? ==>
              && h.record == old(h.record) && h.version == old(h.version)
              && (h.lease.disk.world.journal == old(h.lease.disk.world.journal) || !h.Current())
    ensures old(!h.Current()) ==> h.lease.disk.world.journal == old(h.lease.disk.world.journal)
    ensures h.lease.disk.world.journal.Keys == old(h.lease.disk.world.journal).Keys
    ensures old(h.lease.disk.Reliable() && h.Current() && TransitionValid(h.record, Moved(h.record, s, binding))
                && RecordValid(Moved(h.record, s, binding))
                && PathsCurrent(h.lease.disk.world, Moved(h.record, s, binding))) ==>
              r.Verified?
    ensures r.Verified? ==> h.lease.disk.world.strays == old(h.lease.disk.world.strays)
  {
    hide Inv, IsRun, TransitionValid, RecordFits;
    var target := Moved(h.record, s, binding);
    if !RecordValid(target) {
      return Raised;
    }
    r := Transition(h, target, false, success, failure);
  }

  function Moved(r: Record, s: State, binding: Option<ContainerBinding>): Record {
    if binding.Some? then r.(state := s, container := binding) else r.(state := s)
  }

  /** What `staging_lifecycle_is_current` observes: both directories and the journal are as recorded. */
  predicate LifecycleCurrent(h: Handle)
    reads h, h.lease, h.lease.disk
  {
    h.Current() && PathsCurrent(h.lease.disk.world, h.record)
  }

  // ---- Discarding an attempt that never released anything ----

  const BEFORE_CONTAINERS: set<State> := {Reserved, Allocated, Prepared}

  /** What a discard needs to succeed when no call fails: a record before containers that the handle
      agrees with, and no directory or exactly the one whose identity is known. */
  predicate Discardable(h: Handle, attemptCreated: bool, attemptIdentity: Option<RootIdentity>)
    reads h, h.lease, h.lease.disk
  {
    var w, id := h.lease.disk.world, h.record.attemptId;
    && h.record.state in BEFORE_CONTAINERS && Holds(w, h.record, h.version)
    && (attemptIdentity.None? ==> !attemptCreated && id !in w.attempts)
    && (attemptIdentity.Some? && id in w.attempts ==> w.attempts[id].identity == attemptIdentity.value)
  }

  method Discard(h: Handle, attemptCreated: bool, attemptIdentity: Option<RootIdentity>)
    returns (r: LifecycleResult)
    requires h.Valid()
    requires var w := h.lease.disk.world; var id := h.record.attemptId;
             id in w.attempts || id in w.journal ==> id in w.journal && w.journal[id].record.state in BEFORE_CONTAINERS
    modifies h.lease, h.lease.disk
    ensures h.Valid() && h.lease.closed && h.lease.disk.Grew()
    ensures old(!h.lease.closed) ==> !h.lease.disk.locked
    ensures h.record == old(h.record) && h.version == old(h.version)
    ensures r.Verified? ==>
              h.record.attemptId !in h.lease.disk.world.attempts && h.record.attemptId !in h.lease.disk.world.journal
    ensures old(!h.Current()) ==> h.lease.disk.world.journal == old(h.lease.disk.world.journal)
    ensures h.lease.disk.world.journal.Keys <= old(h.lease.disk.world.journal.Keys)
    ensures h.lease.disk.world.MayExist() == old(h.lease.disk.world.MayExist())
    ensures h.lease.disk.world.strays == old(h.lease.disk.world.strays)
    ensures old(h.lease.disk.Reliable() && !h.lease.closed) ==>
              (r.Verified? <==> old(Discardable(h, attemptCreated, attemptIdentity)))
  {
    hide Inv, IsRun, RecordValid, RecordFits;
    var lease, id := h.lease, h.record.attemptId;
    var disk := lease.disk;
    if h.record.state !in BEFORE_CONTAINERS {
      r := Unresolved("staging_container_closure_unverified");
    } else if attemptIdentity.None? && (attemptCreated || id in disk.world.attempts) {
      r := Unresolved("staging_attempt_identity_unavailable");
    } else {
      var directory := Missing;
      if attemptIdentity.Some? {
        directory := RemoveDirectory(lease, id, attemptIdentity.value);
      }
      if directory.Changed? {
        r := Unresolved("staging_attempt_changed");
      } else if directory.Failed? {
        r := Unresolved("staging_cleanup_failed");
      } else {
        var removed := RemoveStagingRecord(lease, h.record, h.version);
        if removed {
          r := Verified("staging_cleanup_verified_absent");
        } else {
          r := Unresolved(if directory.Missing? && attemptIdentity.Some? then "staging_journal_remove_failed"
                          else "staging_cleanup_failed");
        }
      }
    }
    lease.Close();
  }

  // ---- Cleaning up a closed attempt ----

  method ResumeCleanup(h: Handle) returns (r: LifecycleResult)
    requires h.Valid()
    modifies h.lease.disk`world, h.lease.disk`history, h.lease.disk`events, h.lease.disk`tick
    ensures h.Valid() && h.lease.disk.Grew() && !r.Raised?
    ensures h.lease.disk.world.journal.Keys <= old(h.lease.disk.world.journal.Keys)
    ensures r.Verified? ==>
              h.record.attemptId !in h.lease.disk.world.attempts && h.record.attemptId !in h.lease.disk.world.journal
    ensures old(!h.Current()) ==> h.lease.disk.world == old(h.lease.disk.world)
    ensures h.lease.disk.world.MayExist() == old(h.lease.disk.world.MayExist())
    ensures h.lease.disk.world.strays == old(h.lease.disk.world.strays)
    ensures old(h.lease.disk.Reliable() && h.Current() && h.record.state.CleanupStarted?) ==>
              old(h.record.attemptId in h.lease.disk.world.attempts) ==> r.Verified?
  {
    hide IsRun, RecordFits;
    var lease, id := h.lease, h.record.attemptId;
    if !h.record.state.CleanupStarted? || h.record.attemptIdentity.None? || !h.Current() {
      return Unresolved("staging_cleanup_state_invalid");
    }
    if id in lease.disk.world.attempts {
      CleanupIdentity(lease.disk.world, id);
    }
    hide Inv, RecordValid;
    var directory := RemoveDirectory(lease, id, h.record.attemptIdentity.value);
    if directory.Changed? {
      return Unresolved("staging_attempt_changed");
    }
    if !directory.Removed? {
      return Unresolved("staging_cleanup_failed");
    }
    var removed := RemoveStagingRecord(lease, h.record, h.version);
    return if removed then Verified("staging_cleanup_verified_absent") else Unresolved("staging_cleanup_failed");
  }

  lemma CleanupIdentity(w: World, id: string)
    requires Inv(w) && id in w.journal && id in w.attempts && w.journal[id].record.attemptIdentity.Some?
    ensures w.attempts[id].identity == w.journal[id].record.attemptIdentity.value
  {
    assert RecordFits(w, id);
  }

  method CleanupClosed(h: Handle) returns (r: LifecycleResult)
    requires h.Valid() && h.record.state.ContainerAbsent?
    modifies h, h.lease.disk`world, h.lease.disk`history, h.lease.disk`events, h.lease.disk`tick
    ensures h.Valid() && h.lease.disk.Grew()
    ensures h.lease.disk.world.journal.Keys <= old(h.lease.disk.world.journal.Keys)
    ensures h.record.attemptId == old(h.record.attemptId)
    ensures r.Verified? ==>
              h.record.attemptId !in h.lease.disk.world.attempts && h.record.attemptId !in h.lease.disk.world.journal
    ensures old(!h.Current()) ==> h.lease.disk.world == old(h.lease.disk.world)
    ensures h.lease.disk.world.MayExist() == old(h.lease.disk.world.MayExist())
    ensures old(h.lease.disk.Reliable() && LifecycleCurrent(h)) ==>
              r.Verified?
    ensures r.Verified? ==> h.lease.disk.world.strays == old(h.lease.disk.world.strays)
  {
    hide IsRun, RecordFits;
    if !LifecycleCurrent(h) {
      return Unresolved("staging_attempt_changed");
    }
    hide Inv;
    assert TransitionValid(h.record, h.record.(state := CleanupStarted));
    hide RecordValid, TransitionValid;
    r := MarkMoved(h, CleanupStarted, None, "staging_cleanup_started", "staging_cleanup_journal_failed");
    if r.Verified? {
      r := ResumeCleanup(h);
    }
  }

  /** `cleanup_staging_lifecycle`: nothing is touched unless container closure was recorded. */
  method CleanupLifecycle(h: Handle) returns (r: LifecycleResult)
    requires h.Valid()
    modifies h, h.lease, h.lease.disk
    ensures h.Valid() && h.lease.closed && h.lease.disk.Grew()
    ensures h.lease.disk.world.journal.Keys <= old(h.lease.disk.world.journal.Keys)
    ensures h.record.attemptId == old(h.record.attemptId)
    ensures old(!h.lease.closed) ==> !h.lease.disk.locked
    ensures r.Verified? ==>
              h.record.attemptId !in h.lease.disk.world.attempts && h.record.attemptId !in h.lease.disk.world.journal
    ensures old(!h.record.state.ContainerAbsent? || !LifecycleCurrent(h)) ==>
              h.lease.disk.world == old(h.lease.disk.world)
    ensures old(h.lease.disk.Reliable() && h.record.state.ContainerAbsent? && LifecycleCurrent(h)) ==> r.Verified?
  {
    hide IsRun, Inv, RecordValid;
    if !h.record.state.ContainerAbsent? {
      r := Unresolved("staging_container_closure_unverified");
    } else if !LifecycleCurrent(h) {
      r := Unresolved("staging_attempt_changed");
    } else {
      r := CleanupClosed(h);
    }
    h.lease.Close();
  }
}
