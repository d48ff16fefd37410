// The staging disk, the lease and the handle that the staging code mutates, and the journal writes.
// Every durable change goes through `StagingDisk.Change`, which records it in ghost fields and keeps the disk
// valid if it is a step of `StagingWorld`; `Advance` admits nothing else.

module StagingJournal {
  import opened Prelude
  import opened FileIdentities
  import opened Paths
  import opened StagingRecords
  import opened StagingWorld

  /** What happens to the next system or engine call. */
  datatype Fault =
    | Fine
    | FailBefore   // it raises and has changed nothing
    | FailAfter    // it has done its work and then raises

  datatype LifecycleResult =
    | Verified(reason: string)
    | Unresolved(reason: string)
    | Raised       // a record constructor refused: a `ValueError` leaves the call

  function Reason(r: LifecycleResult): string {
    if r.Raised? then "" else r.reason
  }

  class StagingDisk {
    var world: World
    var locked: bool
    var tick: nat
    const faults: nat -> Fault
    const late: nat -> bool          // whether a pending creation takes effect just before a call
    const choices: nat -> bool       // what else is open: the order of a directory listing, what an exception is
    ghost var history: seq<World>
    ghost var events: seq<Event>

    ghost predicate Valid()
      reads this
    {
      IsRun(history, events) && Inv(history[0]) && world == history[|events|] && Inv(world)
    }

    /** From here on no call fails, the engine answers truthfully, and no pending creation takes effect
        any more. */
    ghost predicate Reliable()
      reads this`tick
    {
      forall n :: n >= tick ==> faults(n) == Fine && !late(n)
    }

    /** A process starts on whatever a crash at point `k` of an earlier run has left: the durable
        world survives, the lock does not. */
    constructor AfterCrash(crashed: World, ghost h: seq<World>, ghost es: seq<Event>, ghost k: nat,
                           faults: nat -> Fault, late: nat -> bool, choices: nat -> bool)
      requires IsRun(h, es) && Inv(h[0]) && k <= |es| && crashed == h[k]
      ensures Valid() && world == crashed && !locked && tick == 0
      ensures this.faults == faults && this.late == late && this.choices == choices
      ensures history == h[..k + 1] && events == es[..k]
    {
      world := crashed;
      locked := false;
      tick := 0;
      this.faults := faults;
      this.late := late;
      this.choices := choices;
      history := h[..k + 1];
      events := es[..k];
      new;
      RunKeepsInv(h, es, k);
      assert IsRun(history, events) by {
        hide Step, Inv;
        forall i {:trigger events[i]} | 0 <= i < |events|
          ensures Step(history[i], history[i + 1], events[i])
        {
          assert events[i] == es[i];
        }
      }
    }

    /** One durable change, whatever it is. The protocol is kept exactly if it is a step of the model. */
    method Change(next: World, ghost e: Event)
      modifies this`world, this`history, this`events
      ensures world == next && history == old(history) + [next] && events == old(events) + [e]
      ensures old(Valid() && Step(world, next, e)) ==> Valid()
    {
      hide Step, Inv, IsRun;
      ghost var kept := Valid() && Step(world, next, e);
      if kept {
        StepKeepsInv(world, next, e);
        RunLength(history, events);
        RunExtends(history, events, next, e);
      }
      world := next;
      history := history + [next];
      events := events + [e];
      if kept {
        assert history[0] == old(history)[0];
      }
    }

    /** A change that is a step of the model. */
    method Advance(next: World, ghost e: Event)
      requires Valid() && Step(world, next, e)
      modifies this`world, this`history, this`events
      ensures Valid() && world == next
      ensures history == old(history) + [next] && events == old(events) + [e]
    {
      hide Step, Inv, IsRun;
      Change(next, e);
    }

    /** Later in the same process: the run and the fault stream only move forward. */
    twostate predicate Grew()
      reads this
    {
      old(history) <= history && old(events) <= events && old(tick) <= tick
    }

    method NextFault() returns (f: Fault)
      modifies this`tick
      ensures f == faults(old(tick)) && tick == old(tick) + 1
    {
      f := faults(tick);
      tick := tick + 1;
    }
  }

  class Lease {
    const disk: StagingDisk
    const root: Path
    const identity: RootIdentity
    var closed: bool

    ghost predicate Valid()
      reads this, disk
    {
      && disk.Valid()
      && root == disk.world.root && identity == disk.world.rootIdentity
      && (!closed ==> disk.locked)
    }

    constructor (disk: StagingDisk)
      requires disk.Valid() && disk.locked
      ensures Valid() && !closed && this.disk == disk
    {
      this.disk := disk;
      root := disk.world.root;
      identity := disk.world.rootIdentity;
      closed := false;
    }

    predicate RootIsCurrent()
      reads this, disk
    {
      !closed && disk.world.root == root && disk.world.rootIdentity == identity
    }

    method Close()
      requires Valid()
      modifies this, disk`locked
      ensures Valid() && closed
      ensures !old(closed) ==> !disk.locked
      ensures old(closed) ==> disk.locked == old(disk.locked)
    {
      if !closed {
        closed := true;
        disk.locked := false;
      }
    }
  }

  /** The journal file of a record holds it, in a given version. */
  predicate Holds(w: World, r: Record, version: nat) {
    r.attemptId in w.journal && w.journal[r.attemptId] == Cell(r, version)
  }

  class Handle {
    const lease: Lease
    var record: Record
    var version: nat

    ghost predicate Valid()
      reads this, lease, lease.disk
    {
      && lease.Valid() && RecordValid(record) && version < lease.disk.world.clock
      && record.authorityRoot == lease.root && record.authorityIdentity == lease.identity
    }

    /** What `_journal_handle_is_current` observes. */
    predicate Current()
      reads this, lease, lease.disk
    {
      && lease.RootIsCurrent()
      && Holds(lease.disk.world, record, version)
    }

    constructor (lease: Lease, record: Record, version: nat)
      requires lease.Valid() && RecordValid(record) && version < lease.disk.world.clock
      requires record.authorityRoot == lease.root && record.authorityIdentity == lease.identity
      ensures Valid() && this.lease == lease && this.record == record && this.version == version
    {
      this.lease := lease;
      this.record := record;
      this.version := version;
    }
  }

  // ---- The journal as a versioned cell ----

  /** The compare half of the swap: nothing is stored yet, or exactly the expected version is and the
      new record is a valid successor of what it holds. */
  predicate Swappable(w: World, r: Record, expected: Option<nat>) {
    match expected
    case None => r.attemptId !in w.journal
    case Some(v) =>
      && r.attemptId in w.journal && w.journal[r.attemptId].version == v
      && TransitionValid(w.journal[r.attemptId].record, r)
  }

  /** What the caller of a journal write answers for if the swap takes place. */
  predicate WriteOwed(w: World, r: Record, expected: Option<nat>) {
    Swappable(w, r, expected) ==>
      && RecordValid(r) && r.authorityIdentity == w.rootIdentity && PathsCurrent(w, r)
      && (expected.None? ==> r.state.Reserved? && w.journal == map[])
      && (r.attemptId in w.journal ==>
            && (w.journal[r.attemptId].record.state.Reserved? && r.attemptId in w.attempts ==>
                  r.attemptIdentity == Some(w.attempts[r.attemptId].identity))
            && AbsenceProved(w, r.state))
  }

  /** Only the journal, its leftovers and the clock differ. */
  predicate JournalOnly(w: World, w': World) {
    w' == w.(journal := w'.journal, strays := w'.strays, clock := w'.clock) && w'.clock >= w.clock
  }

  method RemoveTemporary(disk: StagingDisk) returns (removed: bool)
    requires disk.world.strays > 0
    modifies disk`world, disk`history, disk`events, disk`tick
    ensures old(disk.Valid()) ==> disk.Valid()
    ensures disk.Grew() && JournalOnly(old(disk.world), disk.world)
    ensures disk.world.journal == old(disk.world.journal)
    ensures removed ==> disk.world.strays == old(disk.world.strays) - 1
    ensures old(disk.Reliable()) ==> removed
  {
    hide Inv, IsRun;
    var f := disk.NextFault();
    removed := f.Fine?;
    if removed {
      var w := disk.world;
      disk.Change(w.(strays := w.strays - 1, clock := w.clock + 1), Stray);
    }
  }

  function Stored(w: World, r: Record, strays: nat): World {
    w.(journal := w.journal[r.attemptId := Cell(r, w.clock)], strays := strays, clock := w.clock + 1)
  }

  lemma WriteIsAStep(w: World, r: Record, expected: Option<nat>)
    requires Inv(w) && Swappable(w, r, expected) && WriteOwed(w, r, expected)
    ensures var t := w.(strays := w.strays + 1, clock := w.clock + 1);
            && (expected.None? ==> ReserveStep(t, Stored(t, r, t.strays), r))
            && (expected.Some? ==> ReplaceStep(t, Stored(t, r, t.strays - 1), r))
  {
    hide RecordFits;
    if expected.None? {
      var t := w.(strays := w.strays + 1, clock := w.clock + 1);
      assert Stored(t, r, t.strays).journal == map[r.attemptId := Cell(r, t.clock)];
    }
  }

  /** `write_staging_record`. The new version is returned only when the swap happened and was read
      back. A failed call has swapped nothing, or has swapped and failed afterwards. The protocol is
      kept if the caller meets what it owes. */
  method WriteStagingRecord(lease: Lease, r: Record, expected: Option<nat>) returns (written: Option<nat>)
    modifies lease.disk`world, lease.disk`history, lease.disk`events, lease.disk`tick
    ensures old(lease.Valid() && WriteOwed(lease.disk.world, r, expected)) ==> lease.Valid()
    ensures lease.disk.Grew() && JournalOnly(old(lease.disk.world), lease.disk.world)
    ensures written.Some? ==>
              && old(lease.RootIsCurrent() && Swappable(lease.disk.world, r, expected))
              && lease.disk.world.journal == old(lease.disk.world.journal)[r.attemptId := Cell(r, written.value)]
              && old(lease.disk.world.clock) <= written.value < lease.disk.world.clock
    ensures written.None? ==>
              || lease.disk.world.journal == old(lease.disk.world.journal)
              || (&& old(lease.RootIsCurrent() && Swappable(lease.disk.world, r, expected))
                  && r.attemptId in lease.disk.world.journal
                  && var cell := lease.disk.world.journal[r.attemptId];
                     && cell.record == r && cell.version >= old(lease.disk.world.clock)
                     && lease.disk.world.journal == old(lease.disk.world.journal)[r.attemptId := cell])
    ensures old(lease.disk.Reliable() && lease.RootIsCurrent() && Swappable(lease.disk.world, r, expected)) ==>
              written.Some?
    ensures written.Some? ==> lease.disk.world.strays == old(lease.disk.world.strays)
  {
    hide Inv, IsRun, ReserveStep, ReplaceStep, Swappable, WriteOwed;
    var disk := lease.disk;
    if !lease.RootIsCurrent() || !Swappable(disk.world, r, expected) {
      return None;
    }
    if lease.Valid() && WriteOwed(disk.world, r, expected) {
      WriteIsAStep(disk.world, r, expected);
    }
    var f := disk.NextFault();
    disk.Change(disk.world.(strays := disk.world.strays + 1, clock := disk.world.clock + 1), Stray);
    if f.FailBefore? {
      var _ := RemoveTemporary(disk);
      return None;
    }
    var version := disk.world.clock;
    if expected.None? {
      disk.Change(Stored(disk.world, r, disk.world.strays), Reserve(r));
      var removed := RemoveTemporary(disk);
      if !removed {
        return None;
      }
    } else {
      disk.Change(Stored(disk.world, r, disk.world.strays - 1), Replace(r));
    }
    if f.FailAfter? {
      return None;
    }
    return Some(version);
  }

  /** `remove_staging_record`: it unlinks exactly the record and version it was given. That the attempt
      directory is gone is what the protocol asks of the caller. */
  method RemoveStagingRecord(lease: Lease, r: Record, version: nat) returns (removed: bool)
    modifies lease.disk`world, lease.disk`history, lease.disk`events, lease.disk`tick
    ensures old(lease.Valid() && (Holds(lease.disk.world, r, version) ==> r.attemptId !in lease.disk.world.attempts))
            ==> lease.Valid()
    ensures lease.disk.Grew() && JournalOnly(old(lease.disk.world), lease.disk.world)
    ensures lease.disk.world.strays == old(lease.disk.world.strays)
    ensures removed ==>
              && old(!lease.closed && Holds(lease.disk.world, r, version))
              && lease.disk.world.journal == old(lease.disk.world.journal) - {r.attemptId}
    ensures lease.disk.world.journal != old(lease.disk.world.journal) ==>
              && old(!lease.closed && Holds(lease.disk.world, r, version))
              && lease.disk.world.journal == old(lease.disk.world.journal) - {r.attemptId}
    ensures old(lease.disk.Reliable() && !lease.closed && Holds(lease.disk.world, r, version)) ==> removed
  {
    hide Inv, IsRun;
    var disk := lease.disk;
    var w := disk.world;
    if lease.closed || !Holds(w, r, version) {
      return false;
    }
    var f := disk.NextFault();
    if f.FailBefore? {
      return false;
    }
    disk.Change(w.(journal := w.journal - {r.attemptId}, clock := w.clock + 1), RemoveRecord(r.attemptId));
    return f.Fine?;
  }

  /** What `_transition` checks of the directories that the new record names. */
  predicate DirectoriesMatch(w: World, r: Record, allowAbsent: bool) {
    && r.authorityPathIdentity == RootPathIdentity(w)
    && (r.attemptPathIdentity.Some? ==>
          if r.attemptId in w.attempts then r.attemptPathIdentity.value == AttemptPathIdentity(w, r.attemptId)
          else allowAbsent)
  }

  /** What the caller of `_transition` answers for if the handle agrees with the disk: a missing attempt
      directory is let through nowhere, the identity of a new one is the real one, absences are proved. */
  predicate TransitionOwed(h: Handle, target: Record, allowAbsent: bool)
    reads h, h.lease, h.lease.disk
  {
    h.Current() ==>
      var w := h.lease.disk.world;
      && AbsenceProved(w, target.state)
      && (h.record.state.Reserved? && target.attemptId in w.attempts ==>
            target.attemptIdentity == Some(w.attempts[target.attemptId].identity))
      && (allowAbsent && target.attemptPathIdentity.Some? ==> target.attemptId in w.attempts)
  }

  /** `_transition`: the handle must agree with the disk, the directories must be the recorded ones (or
      the attempt missing, if that is allowed), and the journal write must be read back; only then does
      the handle move to the new record. */
  method Transition(h: Handle, target: Record, allowAbsent: bool, success: string, failure: string)
    returns (r: LifecycleResult)
    requires RecordValid(target) && target.attemptId == h.record.attemptId
    modifies h, h.lease.disk`world, h.lease.disk`history, h.lease.disk`events, h.lease.disk`tick
    ensures old(h.Valid() && TransitionOwed(h, target, allowAbsent)) ==> h.Valid()
    ensures h.lease.disk.Grew() && JournalOnly(old(h.lease.disk.world), h.lease.disk.world)
    ensures h.lease.disk.world.journal.Keys == old(h.lease.disk.world.journal.Keys)
    ensures !r.Raised?
    ensures r.Verified? ==>
              && old(h.Current() && TransitionValid(h.record, target)
                     && DirectoriesMatch(h.lease.disk.world, target, allowAbsent))
              && h.record == target && h.Current()
              && h.lease.disk.world.journal == old(h.lease.disk.world.journal)[target.attemptId := Cell(target, h.version)]
    ensures r.Unresolved? ==>
              && h.record == old(h.record) && h.version == old(h.version)
              && (h.lease.disk.world.journal == old(h.lease.disk.world.journal) || !h.Current())
    ensures old(!h.Current()) ==> h.lease.disk.world.journal == old(h.lease.disk.world.journal)
    ensures h.lease.disk.world.journal != old(h.lease.disk.world.journal) ==>
              && target.attemptId in h.lease.disk.world.journal
              && h.lease.disk.world.journal[target.attemptId].record == target
    ensures old(h.lease.disk.Reliable() && h.Current() && TransitionValid(h.record, target)
                && DirectoriesMatch(h.lease.disk.world, target, allowAbsent)) ==>
              r.Verified?
    ensures r.Verified? ==> h.lease.disk.world.strays == old(h.lease.disk.world.strays)
  {
    hide Inv, IsRun, RecordValid, TransitionValid, AbsenceProved, Rank;
    var disk := h.lease.disk;
    if !h.Current() {
      return Unresolved(failure);
    }
    if target.authorityPathIdentity != RootPathIdentity(disk.world) {
      return Unresolved(failure);
    }
    if target.attemptPathIdentity.Some? {
      var id := target.attemptId;
      var present := id in disk.world.attempts;
      var current := present && target.attemptPathIdentity.value == AttemptPathIdentity(disk.world, id);
      if !current && !(allowAbsent && !present) {
        return Unresolved(failure);
      }
    }
    if h.Valid() && TransitionOwed(h, target, allowAbsent) {
      TransitionIsOwed(h, target, allowAbsent);
    }
    var written := WriteStagingRecord(h.lease, target, Some(h.version));
    if written.None? {
      return Unresolved(failure);
    }
    h.record := target;
    h.version := written.value;
    return Verified(success);
  }

  lemma TransitionIsOwed(h: Handle, target: Record, allowAbsent: bool)
    requires h.Valid() && h.Current() && TransitionOwed(h, target, allowAbsent)
    requires RecordValid(target) && target.attemptId == h.record.attemptId
    requires DirectoriesMatch(h.lease.disk.world, target, allowAbsent)
    ensures WriteOwed(h.lease.disk.world, target, Some(h.version))
    ensures Swappable(h.lease.disk.world, target, Some(h.version)) ==>
              target.authorityRoot == h.lease.root && target.authorityIdentity == h.lease.identity
  {
    hide Inv, IsRun, RecordValid, Rank;
  }

  /** Once a handle disagrees with the disk, whether another process moved on or its own write failed
      after the replace, it disagrees in every later state of the run; and then neither `Transition`
      nor `RemoveStagingRecord` through it changes the journal. */
  twostate lemma StaleHandleStaysStale(h: Handle)
    requires old(h.Valid()) && h.lease.disk.Valid() && h.lease.disk.Grew()
    requires h.record == old(h.record) && h.version == old(h.version)
    requires old(!Holds(h.lease.disk.world, h.record, h.version))
    ensures !Holds(h.lease.disk.world, h.record, h.version)
  {
    var disk := h.lease.disk;
    hide Step, Inv;
    CellsNeverReturn(disk.history, disk.events, |old(disk.events)|, |disk.events|, h.record.attemptId,
                     Cell(h.record, h.version));
  }
}
