/** The operations of the node agent that share the lock of one service unit: restoring a
    snapshot (restore.go), updating (update.go), manual actions (http_api.go) and the start
    requested by the gateway (gateway.go), all below cmd/hogs-agent.

    Every method is the code of one actor of UnitMachine: each of its calls is a step of that
    machine, and between two calls everybody else takes whatever steps the machine lets them.
    Calls on directories of the operation's own follow each other at once: nobody else touches
    these, so it makes no difference which of them came before somebody else's step.
    Every external call may fail at any time. */
module UnitOperations {
  import opened Wrappers
  import opened UnitMachine

  datatype Report = Report(
    success: bool,
    safety: Option<string>,
    rollbackRestored: Option<bool>,
    warning: bool)

  /** `unitFailed`: the update unit ran and failed.  `updated`: it succeeded, but the server did
      not come back. */
  datatype UpdateReport = UpdateReport(
    success: bool,
    safety: Option<string>,
    updated: bool,
    unitFailed: bool,
    warning: bool)

  /** What an operation was told: calls other than on directories that failed, requests to stop the
      service, what the last look at the service said since it was last started, and renames of the
      data directory while it had not said that the service is stopped. */
  datatype Calls = Calls(failures: nat, stops: nat, lastSeen: Option<bool>, hot: nat)

  /** The size restic reports for the snapshot, and the free bytes beside the data. */
  datatype Space = Space(size: nat, free: nat)

  datatype Outcome = NotMoved | MovedBack | Stranded | Exchanged

  const RESERVE: nat := 64 * 1024 * 1024
  const UINT64: nat := 0x1_0000_0000_0000_0000

  function Failure(safety: Option<string>): Report {
    Report(false, safety, None, false)
  }

  /** 64-bit unsigned arithmetic, as in the source. */
  function RequiredRestoreSpace(restoreSize: nat): nat {
    (restoreSize + restoreSize / 20 + RESERVE) % UINT64
  }

  /** The free space that is asked for covers the snapshot exactly when the sum fits 64 bits. */
  lemma RequiredSpaceCovers(restoreSize: nat)
    requires restoreSize < UINT64
    ensures RequiredRestoreSpace(restoreSize) >= restoreSize <==> restoreSize + restoreSize / 20 + RESERVE < UINT64
  {
    var sum := restoreSize + restoreSize / 20 + RESERVE;
    if sum < UINT64 {
      assert sum % UINT64 == sum;
    } else {
      assert sum - UINT64 < UINT64;
      assert sum % UINT64 == sum - UINT64;
    }
  }

  predicate Enough(space: Space) {
    space.size > 0 && RequiredRestoreSpace(space.size) <= space.free
  }

  predicate IsHex(c: char) {
    '0' <= c <= '9' || 'a' <= c <= 'f' || 'A' <= c <= 'F'
  }

  /** `^[0-9a-fA-F]{8,64}$` */
  predicate IsSnapshotId(s: string) {
    8 <= |s| <= 64 && forall i :: 0 <= i < |s| ==> IsHex(s[i])
  }

  /** Nothing but the data directory differs from what was found. */
  predicate OthersKept(found: Disk, disk: Disk) {
    forall p :: p in found && p != Live ==> p in disk && disk[p] == found[p]
  }

  /** The data directory is the one that was found, if there was one; `still` says that nobody
      could write to it. */
  predicate LiveKept(found: Disk, disk: Disk, still: bool) {
    Live in found ==>
      && Live in disk && disk[Live].lineage == found[Live].lineage
      && (still ==> disk[Live] == found[Live])
  }

  /** The data that was found is at `aside`, and not in the data directory. */
  predicate SetAside(found: Disk, disk: Disk, aside: Place, still: bool) {
    && aside in disk
    && (Live in found ==> disk[aside].lineage == found[Live].lineage && (still ==> disk[aside] == found[Live]))
    && (Live in found && Live in disk ==> disk[Live].lineage != found[Live].lineage)
  }

  lemma SamePassed(w: World, w': World)
    requires w'.selfStart == w.selfStart && w'.holder == w.holder && w'.log == w.log && w'.backups == w.backups
    requires w'.snapshotOf == w.snapshotOf && w'.nextLineage == w.nextLineage && w'.disk == w.disk
    ensures Passed(w, w') && (w'.running == w.running ==> Frozen(w, w')) && (!w'.running ==> Frozen(w, w'))
  {}

  lemma Unchanged(disk: Disk, p: Place)
    ensures Grown(disk, disk) && Without(disk, disk, {p}) && Same(disk, disk, Live)
  {}

  lemma CopyAdded(found: Disk, disk: Disk, p: Place, tree: Tree)
    requires p !in disk && p != Live && p !in found && OthersKept(found, disk)
    ensures var disk' := disk[p := tree];
            Grown(disk, disk') && Without(disk, disk', {p}) && Same(disk, disk', Live) && OthersKept(found, disk')
  {}

  // ---------------------------------------------------------------- where the data is

  lemma LiveMovedAside(found: Disk, disk: Disk, disk': Disk, aside: Place, still: bool)
    requires LiveKept(found, disk, still) && Renamed(disk, disk', Live, aside, true) && aside != Live
    ensures Live in disk && Live !in disk' && SetAside(found, disk', aside, still) && disk'[aside] == disk[Live]
    ensures forall p :: p != Live && p != aside ==> Same(disk, disk', p)
  {}

  lemma CopyActivated(found: Disk, next: nat, disk: Disk, disk': Disk, staged: Place, aside: Place, still: bool)
    requires SetAside(found, disk, aside, still) && Renamed(disk, disk', staged, Live, true)
    requires staged != aside && aside != Live && staged != Live && disk[staged].lineage >= next
    requires Known(found, next)
    ensures SetAside(found, disk', aside, still) && disk'[aside] == disk[aside]
    ensures Live in disk' && disk'[Live] == disk[staged]
  {}

  lemma AsideMeanwhile(found: Disk, w: World, w': World, aside: Place, still: bool, next: nat)
    requires SetAside(found, w.disk, aside, still) && Passed(w, w') && aside != Live
    requires Known(found, next) && next <= w.nextLineage
    ensures SetAside(found, w'.disk, aside, still) && aside in w'.disk && w'.disk[aside] == w.disk[aside]
  {}

  lemma RenamedBack(found: Disk, disk: Disk, disk': Disk, aside: Place, still: bool, ok: bool)
    requires SetAside(found, disk, aside, still) && Renamed(disk, disk', aside, Live, ok) && aside != Live
    ensures if ok then LiveKept(found, disk', still) else disk' == disk
  {}

  lemma FailedCopyKept(found: Disk, disk: Disk, disk': Disk, failed: Place, aside: Place, still: bool, ok: bool)
    requires SetAside(found, disk, aside, still) && Renamed(disk, disk', Live, failed, ok) && aside != Live && failed != aside
    ensures SetAside(found, disk', aside, still) && disk'[aside] == disk[aside]
    ensures if ok then Live !in disk' else disk' == disk
  {}

  lemma AsideWhileFilesChange(found: Disk, disk: Disk, disk': Disk, aside: Place, still: bool)
    requires SetAside(found, disk, aside, still) && Same(disk, disk', aside) && Same(disk, disk', Live)
    ensures SetAside(found, disk', aside, still) && disk'[aside] == disk[aside]
  {}

  lemma LiveWhileFilesChange(found: Disk, disk: Disk, disk': Disk, still: bool)
    requires LiveKept(found, disk, still) && Same(disk, disk', Live)
    ensures LiveKept(found, disk', still)
  {}

  /** Beside what was found there are no directories but the data and these. */
  predicate Clear(found: Disk, disk: Disk, extra: set<Place>) {
    forall p :: p in disk ==> p in found || p == Live || p in extra
  }

  lemma ClearMeanwhile(found: Disk, w: World, w': World, extra: set<Place>)
    requires Clear(found, w.disk, extra) && Drift(w.disk, w'.disk, w.nextLineage)
    ensures Clear(found, w'.disk, extra)
  {}

  lemma ClearRenamed(found: Disk, disk: Disk, disk': Disk, source: Place, target: Place, ok: bool, extra: set<Place>, left: set<Place>)
    requires Clear(found, disk, extra) && Renamed(disk, disk', source, target, ok)
    requires ok ==> target == Live || target in left
    requires forall p :: p in extra && (ok ==> p != source) ==> p in left
    ensures Clear(found, disk', left)
  {}

  lemma ClearWithout(found: Disk, disk: Disk, disk': Disk, gone: set<Place>, extra: set<Place>, left: set<Place>)
    requires Clear(found, disk, extra) && Without(disk, disk', gone) && extra <= left + gone
    requires forall p :: p in gone && p in disk' ==> p in left
    ensures Clear(found, disk', left)
  {}

  lemma ClearOfAll(found: Disk, disk: Disk, more: set<Place>)
    ensures Clear(found, disk, disk.Keys + more)
  {}

  lemma NotRenamed(disk: Disk, disk': Disk, source: Place, target: Place)
    requires Renamed(disk, disk', source, target, false)
    ensures disk' == disk
  {}

  lemma LiveMeanwhile(found: Disk, w: World, w': World, still: bool)
    requires LiveKept(found, w.disk, still) && Passed(w, w') && (still ==> w'.disk == w.disk)
    ensures LiveKept(found, w'.disk, still)
  {}

  lemma OtherBackups(w: World, w': World, backups: map<string, Tree>)
    requires Passed(w, w')
    ensures Passed(w.(backups := backups), w'.(backups := backups))
    ensures Frozen(w, w') ==> Frozen(w.(backups := backups), w'.(backups := backups))
  {}

  /** Data that is saved is there. */
  lemma SavedHasLive(w: World, me: Actor)
    requires Inv(w) && w.holder == Some(me) && me in w.phases && w.phases[me].Saved?
    ensures Live in w.disk
  {}

  lemma QuietIsDown(w: World, me: Actor)
    requires Inv(w) && w.holder == Some(me) && me in w.phases && w.phases[me].Quiet?
    ensures !w.selfStart ==> !w.running
  {}

  lemma FoundIsKept(w: World)
    requires Inv(w)
    ensures Known(w.disk, w.nextLineage) && OthersKept(w.disk, w.disk)
  {}

  /** Only directories, and the phase of whoever did it, may differ. */
  predicate OnlyFiles(w: World, w': World) {
    && w'.selfStart == w.selfStart && w'.holder == w.holder && w'.running == w.running && w'.log == w.log
    && w'.backups == w.backups && w'.snapshotOf == w.snapshotOf && w.nextLineage <= w'.nextLineage
  }

  lemma DriftKeepsOthers(found: Disk, a: Disk, b: Disk, next: nat)
    requires OthersKept(found, a) && Drift(a, b, next)
    ensures OthersKept(found, b)
  {}

  /** Directories may have been added. */
  predicate Grown(before: Disk, after: Disk) {
    forall p :: p in before ==> p in after && after[p] == before[p]
  }

  lemma GrownAt(before: Disk, after: Disk, p: Place)
    requires Grown(before, after)
    ensures p in before ==> p in after && after[p] == before[p]
  {}

  /** Only the places of `gone` may differ. */
  predicate Without(before: Disk, after: Disk, gone: set<Place>) {
    && (forall p :: p in before && p !in gone ==> p in after && after[p] == before[p])
    && (forall p :: p in after && p !in gone ==> p in before)
  }

  lemma WithoutAt(before: Disk, after: Disk, gone: set<Place>, p: Place)
    requires Without(before, after, gone) && p !in gone
    ensures Same(before, after, p)
  {}

  predicate Same(before: Disk, after: Disk, p: Place) {
    (p in before <==> p in after) && (p in before ==> after[p] == before[p])
  }

  predicate Renamed(before: Disk, after: Disk, from: Place, to: Place, ok: bool) {
    if ok then from in before && after == before[to := before[from]] - {from}
    else after == before
  }

  function Staging(root: Option<nat>): set<Place> {
    if root.Some? then {Temp(root.value), Inside(root.value)} else {}
  }

  lemma MadeOne(found: Disk, disk: Disk, disk': Disk, root: nat)
    requires Clear(found, disk, {}) && Temp(root) in disk' && disk' == disk[Temp(root) := disk'[Temp(root)]]
    ensures Clear(found, disk', Staging(Some(root)))
  {}

  lemma BackingUp(found: Disk, w: World, me: Actor, name: string)
    requires In(w, me) && Live in w.disk && OthersKept(found, w.disk) && w.phases[me].Quiet?
    ensures var a := Backup(me, name);
      && Enabled(w, a) && BelongsTo(a, me) && !Locking(a) && OthersKept(found, Next(w, a).disk)
      && Passed(w.(backups := Next(w, a).backups), Next(w, a)) && Frozen(w, Next(w, a))
      && me in Next(w, a).phases && (name != "" ==> Next(w, a).phases[me] == Saved(name))
  {
    hide Known;
  }

  lemma Removing(found: Disk, w: World, me: Actor, p: Place, ok: bool)
    requires In(w, me) && p !in found && p != Live && OthersKept(found, w.disk) && (ok || p in w.disk)
    ensures var a := if ok then Drop(me, p) else Damage(me, p);
      && Enabled(w, a) && BelongsTo(a, me) && !Locking(a) && OthersKept(found, Next(w, a).disk)
      && OnlyFiles(w, Next(w, a)) && Without(w.disk, Next(w, a).disk, {p}) && Same(w.disk, Next(w, a).disk, Live)
      && (ok ==> p !in Next(w, a).disk)
  {}

  class Unit {
    var w: World
    ghost var calls: Calls
    ghost var unitRuns: seq<bool>       // runs of the update unit, and whether they succeeded
    ghost var starts: nat               // requests to start the service
    ghost var seenUp: bool              // the service was seen running since the last start
    ghost var answered: bool            // the game passed its readiness check since then
    ghost var restarts: nat             // attempts to start the service with its original data
    ghost var settled: bool             // no directory was moved since the last such attempt
    ghost var stuck: set<Place>         // directories that could not be renamed to the data directory
    ghost var faults: nat               // directory calls that failed with nothing in their way
    ghost var mess: nat                 // removals of whole directories that failed
    ghost var found: Disk               // the directories when the lock was taken
    ghost var foundNext: nat
    ghost var still: bool               // the unit was stopped then, and does not start on its own

    ghost predicate Valid()
      reads this`w
    {
      Reachable(w) && Inv(w)
    }

    /** `me` holds the lock and has left alone what does not belong to it. */
    ghost predicate InCharge(me: Actor)
      reads this`w, this`found, this`foundNext
    {
      && Valid() && w.holder == Some(me) && In(w, me) && OthersKept(found, w.disk)
      && Known(found, foundNext) && foundNext <= w.nextLineage
    }

    /** Nobody can have written to the data since the lock was taken. */
    ghost predicate StillDown()
      reads this`w, this`still
    {
      still ==> !w.selfStart && !w.running
    }

    constructor (w: World)
      requires Initial(w)
      ensures Valid() && this.w == w
    {
      this.w := w;
      starts, restarts, settled, seenUp, answered, calls, unitRuns := 0, 0, true, false, false, Calls(0, 0, None, 0), [];
      found, foundNext, still, stuck, faults, mess := map[], 0, false, {}, 0, 0;
      new;
      assert Possible(w, []) && Run(w, []) == w;
      ReachableInv(w);
    }

    // -------------------------------------------------------------- steps of the machine

    method Step(a: Action)
      requires Valid() && Enabled(w, a)
      modifies this`w
      ensures Valid() && w == Next(old(w), a)
    {
      ReachableStep(w, a);
      StepKeepsInv(w, a);
      hide *;
      w := Next(w, a);
    }

    /** A call of the holder. */
    method Do(me: Actor, a: Action)
      requires InCharge(me) && Enabled(w, a) && BelongsTo(a, me) && !Locking(a)
      requires OthersKept(found, Next(w, a).disk)
      modifies this`w
      ensures InCharge(me) && w == Next(old(w), a)
      ensures old(w.log) <= w.log && w.selfStart == old(w.selfStart)
    {
      StepKeepsTheRest(w, a, me);
      hide Next, Enabled, Inv, In, Reachable, Known, OthersKept;
      Step(a);
    }

    /** What happens between two calls of the holder: any steps of anybody else. */
    method Interfere(me: Actor)
      requires InCharge(me)
      modifies this`w
      ensures InCharge(me) && Passed(old(w), w) && Frozen(old(w), w) && w.phases[me] == old(w.phases[me])
    {
      var steps: nat := *;
      hide Next, Enabled, Inv, Reachable, Known, OthersKept;
      while steps > 0
        invariant InCharge(me) && Passed(old(w), w) && Frozen(old(w), w) && w.phases[me] == old(w.phases[me])
      {
        steps := steps - 1;
        var a: Action := *;
        if Enabled(w, a) && !BelongsTo(a, me) {
          ghost var before := w;
          OthersLeaveAlone(w, a, me);
          Step(a);
          PassedTwice(old(w), before, w);
          DriftKeepsOthers(found, before.disk, w.disk, before.nextLineage);
        }
      }
    }

    // -------------------------------------------------------------- the lock

    /** What everybody else does while `me` has not got the lock. */
    method OthersWork(me: Actor)
      requires Valid() && me in w.phases
      modifies this`w
      ensures Valid() && old(w.log) <= w.log && me in w.phases && w.phases[me] == old(w.phases[me])
      ensures w.selfStart == old(w.selfStart)
    {
      var steps: nat := *;
      hide Next, Enabled, Inv, Reachable;
      while steps > 0
        invariant Valid() && old(w.log) <= w.log && me in w.phases && w.phases[me] == old(w.phases[me])
        invariant w.selfStart == old(w.selfStart)
      {
        steps := steps - 1;
        var a: Action := *;
        if Enabled(w, a) && !BelongsTo(a, me) {
          StepKeepsTheRest(w, a, me);
          Step(a);
        }
      }
    }

    /** Waits until the lock is free and takes it. */
    method Acquire(me: Actor)
      requires Valid() && me !in w.phases
      modifies this
      ensures InCharge(me) && w.phases[me].Locked? && found == w.disk && foundNext == w.nextLineage
      ensures calls == Calls(0, 0, None, 0) && unitRuns == [] && mess == 0
      ensures starts == restarts == 0 && settled && stuck == {} && faults == 0 && old(w.log) <= w.log && StillDown()
      ensures w.selfStart == old(w.selfStart) && (still <==> !w.selfStart && !w.running)
    {
      TakeLock(me);
      TakeNotes();
      FoundIsKept(w);
      hide Inv, Reachable, In, Known, OthersKept;
      assert Valid();
    }

    /** What the theorems compare with later. */
    ghost method TakeNotes()
      modifies this`found, this`foundNext, this`still, this`stuck, this`faults, this`mess, this`calls, this`unitRuns
      modifies this`starts, this`restarts, this`settled
      ensures found == w.disk && foundNext == w.nextLineage && (still <==> !w.selfStart && !w.running)
      ensures stuck == {} && faults == mess == 0 && calls == Calls(0, 0, None, 0) && unitRuns == []
      ensures starts == restarts == 0 && settled
    {
      found, foundNext, still := w.disk, w.nextLineage, !w.selfStart && !w.running;
      stuck, faults, mess, calls, unitRuns := {}, 0, 0, Calls(0, 0, None, 0), [];
      starts, restarts, settled := 0, 0, true;
    }

    method TakeLock(me: Actor)
      requires Valid() && me !in w.phases
      modifies this`w
      ensures Valid() && w.holder == Some(me) && In(w, me) && w.phases[me].Locked?
      ensures old(w.log) <= w.log && w.selfStart == old(w.selfStart)
    {
      AwaitFreeLock(me);
      WaiterCanLock(w, me);
      hide Next, Enabled, Reachable, Inv;
      Step(Lock(me));
    }

    /** Others run for a while; then whoever has the lock gives it back. */
    method AwaitFreeLock(me: Actor)
      requires Valid() && me !in w.phases
      modifies this`w
      ensures Valid() && w.holder.None? && me in w.phases && w.phases[me].Waiting?
      ensures old(w.log) <= w.log && w.selfStart == old(w.selfStart)
    {
      CanArrive(w, me);
      hide Next, Enabled, Inv, Reachable;
      Step(Arrive(me));
      OthersWork(me);
      if w.holder.Some? {
        HolderCanUnlock(w, me);
        StepKeepsTheRest(w, Unlock(w.holder.value), me);
        Step(Unlock(w.holder.value));
      }
    }

    /** The deferred unlock. */
    method Release(me: Actor)
      requires InCharge(me)
      modifies this`w
      ensures Valid() && w.holder == None && me !in w.phases
      ensures w.disk == old(w.disk) && w.running == old(w.running) && w.log == old(w.log)
      ensures w.snapshotOf == old(w.snapshotOf) && w.selfStart == old(w.selfStart)
    {
      hide Known, Disciplined, Reachable, PhaseOK, OthersKept;
      Step(Unlock(me));
      Step(Leave(me));
    }

    // -------------------------------------------------------------- external calls

    ghost predicate Beside(extra: set<Place>)
      reads this`w, this`found
    {
      Clear(found, w.disk, extra)
    }

    ghost method Failed()
      modifies this`calls
      ensures calls == old(calls).(failures := old(calls).failures + 1)
    {
      calls := calls.(failures := calls.failures + 1);
    }

    /** Unless systemd may start the unit on its own, it is stopped. */
    ghost predicate Down()
      reads this`w
    {
      !w.selfStart ==> !w.running
    }

    method ServiceState(me: Actor) returns (state: Option<bool>)
      requires InCharge(me)
      modifies this`w, this`seenUp, this`calls
      ensures InCharge(me) && Passed(old(w), w) && Frozen(old(w), w)
      ensures state.Some? ==> state.value == w.running
      ensures w.phases[me] == if state == Some(false) && old(w.phases[me]).Locked? then Quiet else old(w.phases[me])
      ensures seenUp == (old(seenUp) || state == Some(true))
      ensures calls == old(calls).(failures := old(calls).failures + (if state.None? then 1 else 0), lastSeen := state)
    {
      hide Known, OthersKept, Reachable, Inv, Drift;
      Interfere(me);
      if * {
        calls := calls.(failures := calls.failures + 1, lastSeen := None);
        return None;
      }
      if w.running { seenUp := true; }
      state := Some(w.running);
      calls := calls.(lastSeen := state);
      ghost var before := w;
      Do(me, Look(me));
      SamePassed(before, w);
      PassedTwice(old(w), before, w);
    }

    method Stop(me: Actor) returns (ok: bool)
      requires InCharge(me)
      modifies this`w, this`calls
      ensures InCharge(me) && Passed(old(w), w) && Frozen(old(w), w) && w.phases[me] == old(w.phases[me])
      ensures calls == old(calls).(stops := old(calls).stops + 1, failures := old(calls).failures + if ok then 0 else 1)
    {
      hide Known, OthersKept, Reachable, Inv, Drift;
      Interfere(me);
      var dies: bool := *;
      ghost var before := w;
      Do(me, UnitMachine.Stop(me, dies));
      SamePassed(before, w);
      PassedTwice(old(w), before, w);
      ok := *;
      calls := calls.(stops := calls.stops + 1, failures := calls.failures + if ok then 0 else 1);
    }

    ghost method NoteStart(original: bool, ok: bool)
      modifies this`restarts, this`settled, this`starts, this`seenUp, this`answered, this`calls
      ensures restarts == old(restarts) + (if original then 1 else 0) && settled == (original || old(settled))
      ensures starts == old(starts) + 1 && !seenUp && !answered
      ensures calls == old(calls).(lastSeen := None, failures := old(calls).failures + if ok then 0 else 1)
    {
      starts, seenUp, answered := starts + 1, false, false;
      if original { restarts, settled := restarts + 1, true; }
      calls := calls.(lastSeen := None, failures := calls.failures + if ok then 0 else 1);
    }

    /** systemctl start; `original` says that the caller brings back what ran before. */
    method Start(me: Actor, ghost original: bool) returns (ok: bool)
      requires InCharge(me)
      modifies this`w, this`restarts, this`settled, this`starts, this`seenUp, this`answered, this`calls
      ensures InCharge(me) && Passed(old(w), w) && w.phases[me].Locked?
      ensures restarts == old(restarts) + (if original then 1 else 0) && settled == (original || old(settled))
      ensures starts == old(starts) + 1
      ensures !seenUp && !answered
      ensures calls == old(calls).(lastSeen := None, failures := old(calls).failures + if ok then 0 else 1)
    {
      hide Known, OthersKept, Reachable, Inv, Drift;
      var comes: bool := *;
      Do(me, UnitMachine.Start(me, comes));
      ghost var before := w;
      SamePassed(old(w), w);
      Interfere(me);
      PassedTwice(old(w), before, w);
      ok := *;
      NoteStart(original, ok);
    }

    /** Polls until the state is as wanted, cannot be read, or the deadline passes. */
    method WaitForState(me: Actor, want: bool) returns (ok: bool)
      requires InCharge(me)
      modifies this`w, this`seenUp, this`calls
      ensures InCharge(me) && Passed(old(w), w) && Frozen(old(w), w)
      ensures w.phases[me] == old(w.phases[me]) || (old(w.phases[me]).Locked? && w.phases[me].Quiet?)
      ensures ok ==> w.running == want && (want ==> seenUp)
      ensures ok && !want && old(w.phases[me]).Locked? ==> w.phases[me].Quiet?
      ensures old(seenUp) ==> seenUp
      ensures ok ==> calls == old(calls).(lastSeen := Some(want))
      ensures !ok ==> calls.failures > old(calls).failures && calls.hot == old(calls).hot && calls.stops == old(calls).stops
      ensures !ok && want ==> seenUp == old(seenUp)
    {
      hide Known, OthersKept, Reachable, Inv, Drift, Enabled, Next;
      var polls: nat := *;  // until the deadline
      SamePassed(w, w);
      while true
        invariant InCharge(me) && Passed(old(w), w) && Frozen(old(w), w)
        invariant w.phases[me] == old(w.phases[me]) || (old(w.phases[me]).Locked? && w.phases[me].Quiet?)
        invariant (old(seenUp) ==> seenUp) && (want ==> seenUp == old(seenUp))
        invariant calls == old(calls).(lastSeen := calls.lastSeen)
        decreases polls
      {
        ghost var earlier := w;
        var current := ServiceState(me);
        PassedTwice(old(w), earlier, w);
        if current.None? { return false; }
        if current.value == want { return true; }
        if polls == 0 {
          Failed();
          return false;
        }
        polls := polls - 1;
      }
    }

    /** The game's own readiness check; only a game that answers is ready. */
    method WaitForReadiness(me: Actor) returns (ok: bool)
      requires InCharge(me)
      modifies this`w, this`answered, this`calls
      ensures InCharge(me) && Passed(old(w), w) && Frozen(old(w), w) && w.phases[me] == old(w.phases[me])
      ensures answered == (old(answered) || ok)
      ensures calls == old(calls).(failures := old(calls).failures + if ok then 0 else 1)
    {
      Interfere(me);
      ok := *;
      if ok { answered := true; } else { Failed(); }
    }

    /** None is a failed backup; the identifier of a successful one may be missing. */
    method SafetyBackup(me: Actor) returns (id: Option<string>)
      requires InCharge(me) && w.phases[me].Quiet?
      modifies this`w, this`calls
      ensures InCharge(me) && Passed(old(w).(backups := w.backups), w) && Frozen(old(w), w)
      ensures id.Some? && id.value != "" ==> w.phases[me] == Saved(id.value)
      ensures var ok := id.Some? && id.value != "";
        calls == old(calls).(failures := old(calls).failures + if ok then 0 else 1)
    {
      hide Known, OthersKept, Reachable, Inv, Drift, Enabled, Next, BelongsTo, Locking;
      Interfere(me);
      var fault: bool, name: string := *, *;
      if fault || Live !in w.disk {
        Failed();
        return None;
      }
      if name == "" { Failed(); }
      ghost var before := w;
      BackingUp(found, w, me, name);
      Do(me, Backup(me, name));
      ghost var after := w;
      Interfere(me);
      PassedTwice(before.(backups := after.backups), after, w);
      OtherBackups(old(w), before, after.backups);
      PassedTwice(old(w).(backups := w.backups), before.(backups := w.backups), w);
      return Some(name);
    }

    // -------------------------------------------------------------- directories

    /** A new, empty directory whose name is not in use. */
    method MakeTemp(me: Actor) returns (made: Option<nat>)
      requires InCharge(me)
      modifies this`w, this`faults
      ensures InCharge(me) && OnlyFiles(old(w), w) && w.phases == old(w.phases)
      ensures made.None? ==> w == old(w)
      ensures faults == old(faults) + if made.None? then 1 else 0
      ensures made.Some? ==>
        var p := Temp(made.value);
        && p !in old(w.disk) && p in w.disk && w.disk == old(w.disk)[p := w.disk[p]]
        && Inside(made.value) !in w.disk && p !in found && Inside(made.value) !in found
    {
      var n: nat, fault: bool := *, *;
      if fault || Temp(n) in w.disk || Inside(n) in w.disk {
        faults := faults + 1;
        return None;
      }
      hide Known, Reachable, Inv;
      Do(me, MakeDir(me, n));
      return Some(n);
    }

    /** os.Remove */
    method Remove(me: Actor, p: Place) returns (ok: bool)
      requires InCharge(me) && p !in found && p != Live
      modifies this`w, this`faults
      ensures InCharge(me) && OnlyFiles(old(w), w) && w.disk == if ok then old(w.disk) - {p} else old(w.disk)
      ensures faults == old(faults) + if ok then 0 else 1
      ensures old(w.phases[me]).Moved? || w.phases[me] == old(w.phases[me])
    {
      if * {
        faults := faults + 1;
        return false;
      }
      hide Known, Reachable, Inv;
      Do(me, Drop(me, p));
      return true;
    }

    /** A generated name that is free: the directory is made and removed again. */
    method ReservePath(me: Actor) returns (path: Option<Place>)
      requires InCharge(me)
      modifies this`w, this`faults
      ensures faults == old(faults) + if path.None? then 1 else 0
      ensures InCharge(me) && OnlyFiles(old(w), w) && Grown(old(w.disk), w.disk) && Same(old(w.disk), w.disk, Live)
      ensures path.Some? ==> path.value.Temp? && path.value !in w.disk && path.value !in found && w.disk == old(w.disk)
      ensures old(w.phases[me]).Moved? || w.phases[me] == old(w.phases[me])
    {
      hide Known, Reachable, Inv, Next, Enabled;
      var made := MakeTemp(me);
      if made.None? { return None; }
      var removed := Remove(me, Temp(made.value));
      if !removed { return None; }
      assert w.disk == old(w.disk);
      return Some(Temp(made.value));
    }

    ghost method NoteRename(source: Place, target: Place, ok: bool, fault: bool)
      modifies this`settled, this`stuck, this`faults, this`calls
      ensures settled == (old(settled) && !ok)
      ensures stuck == old(stuck) + if target == Live && !ok then {source} else {}
      ensures faults == old(faults) + if fault then 1 else 0
      ensures calls == old(calls).(hot := old(calls).hot + if old(calls).lastSeen == Some(false) then 0 else 1)
    {
      calls := calls.(hot := calls.hot + if calls.lastSeen == Some(false) then 0 else 1);
      settled := settled && !ok;
      if target == Live && !ok { stuck := stuck + {source}; }
      if fault { faults := faults + 1; }
    }

    /** os.Rename of directories: atomic, and never over a directory that holds something. */
    method Rename(me: Actor, source: Place, target: Place) returns (ok: bool)
      requires InCharge(me) && (source == Live || source !in found) && (target == Live || target !in found)
      modifies this`w, this`settled, this`stuck, this`faults, this`calls
      ensures InCharge(me) && OnlyFiles(old(w), w) && Renamed(old(w.disk), w.disk, source, target, ok)
      ensures faults >= old(faults) && (!ok && faults == old(faults) ==> !CanRename(old(w.disk), source, target))
      ensures settled == (old(settled) && !ok)
      ensures calls == old(calls).(hot := old(calls).hot + if old(calls).lastSeen == Some(false) then 0 else 1)
      ensures stuck == old(stuck) + if target == Live && !ok then {source} else {}
    {
      var fault: bool := *;
      ok := !fault && CanRename(w.disk, source, target);
      hide Known, Reachable, Inv;
      if ok { Do(me, UnitMachine.Rename(me, source, target)); }
      NoteRename(source, target, ok, fault);
    }

    /** The live data is moved out of the way. */
    method MoveLiveAside(me: Actor, aside: Place) returns (ok: bool)
      requires InCharge(me) && w.phases[me].Saved? && aside.Temp? && aside !in found && aside !in w.disk
      modifies this`w, this`settled, this`stuck, this`faults, this`calls
      ensures stuck == old(stuck)
      ensures InCharge(me) && OnlyFiles(old(w), w.(log := old(w.log))) && Renamed(old(w.disk), w.disk, Live, aside, ok)
      ensures settled == (old(settled) && !ok)
      ensures faults >= old(faults) && (!ok && faults == old(faults) ==> Live !in old(w.disk))
      ensures calls == old(calls).(hot := old(calls).hot + if old(calls).lastSeen == Some(false) then 0 else 1)
      ensures w.log == Attempt(old(w), old(w.phases[me]).id, Live).log
      ensures ok ==> w.phases[me] == Moved(old(w.phases[me]).id, aside)
    {
      var fault: bool := *;
      ok := !fault && Live in w.disk;
      hide Known, Reachable, Inv;
      Do(me, MoveAside(me, aside, ok));
      NoteRename(Live, aside, ok, fault);
    }

    /** The restored copy takes the place of the data that was moved aside. */
    method Activate(me: Actor, staged: Place) returns (ok: bool)
      requires InCharge(me) && w.phases[me].Moved? && staged !in found && staged != Live && staged != w.phases[me].aside
      modifies this`w, this`settled, this`stuck, this`faults, this`calls
      ensures stuck == old(stuck) + if ok then {} else {staged}
      ensures InCharge(me) && OnlyFiles(old(w), w.(log := old(w.log))) && Renamed(old(w.disk), w.disk, staged, Live, ok)
      ensures faults >= old(faults) && (!ok && faults == old(faults) ==> !CanRename(old(w.disk), staged, Live))
      ensures settled == (old(settled) && !ok)
      ensures calls == old(calls).(hot := old(calls).hot + if old(calls).lastSeen == Some(false) then 0 else 1)
      ensures w.log == Attempt(old(w), old(w.phases[me]).id, old(w.phases[me]).aside).log
    {
      var fault: bool := *;
      ok := !fault && CanRename(w.disk, staged, Live);
      hide Known, Reachable, Inv;
      Do(me, UnitMachine.Activate(me, staged, ok));
      NoteRename(staged, Live, ok, fault);
    }

    /** os.RemoveAll; a failure may leave part of the tree. */
    method RemoveAll(me: Actor, p: Place) returns (ok: bool)
      requires InCharge(me) && p !in found && p != Live
      modifies this`w, this`mess
      ensures mess == old(mess) + if ok then 0 else 1
      ensures InCharge(me) && OnlyFiles(old(w), w)
      ensures Without(old(w.disk), w.disk, {p}) && Same(old(w.disk), w.disk, Live) && (ok ==> p !in w.disk)
    {
      ok := *;
      if !ok { mess := mess + 1; }
      if ok || p in w.disk {
        Removing(found, w, me, p, ok);
        hide Known, Reachable, Inv, OthersKept, Next, Enabled, Without, Same;
        Do(me, if ok then Drop(me, p) else Damage(me, p));
      }
    }

    /** The staging directory goes when the operation returns; a failure is not reported. */
    method RemoveStaging(me: Actor, root: Option<nat>)
      requires InCharge(me) && (root.Some? ==> Temp(root.value) !in found && Inside(root.value) !in found)
      modifies this`w, this`mess
      ensures mess >= old(mess)
      ensures root.Some? && mess == old(mess) ==> Temp(root.value) !in w.disk && Inside(root.value) !in w.disk
      ensures InCharge(me) && OnlyFiles(old(w), w)
      ensures root.None? ==> w == old(w)
      ensures root.Some? ==> Without(old(w.disk), w.disk, {Temp(root.value), Inside(root.value)})
      ensures Same(old(w.disk), w.disk, Live)
    {
      hide Known, Reachable, Inv, Next, Enabled, OthersKept;
      if root.Some? {
        var inside := RemoveAll(me, Inside(root.value));
        var outside := RemoveAll(me, Temp(root.value));
      }
    }

    /** A copy appears in the staging directory; `origin` is the snapshot it is complete for. */
    method StageCopy(me: Actor, root: nat, origin: Option<string>)
      requires InCharge(me) && Inside(root) !in found && Inside(root) !in w.disk
      modifies this`w
      ensures InCharge(me) && OnlyFiles(old(w).(snapshotOf := w.snapshotOf), w) && w.phases == old(w.phases)
      ensures Grown(old(w.disk), w.disk) && Without(old(w.disk), w.disk, {Inside(root)}) && Same(old(w.disk), w.disk, Live)
      ensures Inside(root) in w.disk
      ensures var tree := w.disk[Inside(root)];
        old(w.nextLineage) <= tree.lineage && tree.edits == 0 && (origin.Some? ==> Get(w.snapshotOf, tree.lineage) == origin)
    {
      var empty: bool := *;
      CopyAdded(found, w.disk, Inside(root), Tree(w.nextLineage, 0, empty));
      StagedCopy(w, me, root, origin, empty);
      hide Known, Reachable, Inv, Grown, Without, Same, OthersKept, Next, Enabled;
      Do(me, Stage(me, root, origin, empty));
    }

    /** restic restore --verify.  A failed run may leave anything in the staging directory; a
        successful one may not contain the data directory. */
    method RunRestic(me: Actor, snapshot: string, root: nat, ghost space: Space) returns (ok: bool)
      requires InCharge(me) && Inside(root) !in found && Inside(root) !in w.disk
      requires w.phases[me].Saved? && Enough(space)
      modifies this`w, this`calls
      ensures InCharge(me) && OnlyFiles(old(w).(snapshotOf := w.snapshotOf), w) && w.phases == old(w.phases)
      ensures Grown(old(w.disk), w.disk) && Without(old(w.disk), w.disk, {Inside(root)}) && Same(old(w.disk), w.disk, Live)
      ensures calls == old(calls).(failures := old(calls).failures + if ok && Inside(root) in w.disk then 0 else 1)
      ensures ok && Inside(root) in w.disk ==>
        var tree := w.disk[Inside(root)];
        old(w.nextLineage) <= tree.lineage && Get(w.snapshotOf, tree.lineage) == Some(snapshot) && tree.edits == 0
    {
      hide Known, Reachable, Inv, Grown, Without, Same, OthersKept, Next, Enabled;
      var copied: bool;
      ok, copied := *, *;
      if copied {
        StageCopy(me, root, if ok then Some(snapshot) else None);
      } else {
        Unchanged(w.disk, Inside(root));
      }
      if !ok || !copied { Failed(); }
    }

    // -------------------------------------------------------------- restoring a snapshot

    /** restartOriginal of restore.go: once, and only if this operation stopped the service. */
    method RestartOriginal(me: Actor, wasRunning: bool, stopped: bool) returns (ok: bool)
      requires InCharge(me) && StillDown() && (still ==> !wasRunning)
      modifies this`w, this`restarts, this`settled, this`starts, this`seenUp, this`answered, this`calls
      ensures InCharge(me) && StillDown() && Passed(old(w), w) && (still ==> w.disk == old(w.disk))
      ensures wasRunning && stopped ==> restarts == old(restarts) + 1 && settled
      ensures !(wasRunning && stopped) ==> ok && restarts == old(restarts) && settled == old(settled)
      ensures ok && wasRunning && stopped ==> w.running
      ensures wasRunning && stopped ==> (ok <==> seenUp) && !answered
      ensures calls.failures >= old(calls).failures && calls.hot == old(calls).hot && calls.stops == old(calls).stops
      ensures ok <==> calls.failures == old(calls).failures
      ensures !(wasRunning && stopped) ==> calls == old(calls)
      ensures starts == old(starts) + restarts - old(restarts)
    {
      hide Known, OthersKept, Reachable, Inv, Drift, Enabled, Next;
      SamePassed(w, w);
      if !wasRunning || !stopped { return true; }
      var started := Start(me, true);
      if !started { return false; }
      ghost var earlier := w;
      ok := WaitForState(me, true);
      PassedTwice(old(w), earlier, w);
    }

    /** `p` was restored from the snapshot by this operation. */
    ghost predicate HoldsSnapshot(p: Place, snapshot: string)
      reads this`w, this`foundNext, this`still
    {
      && p in w.disk && Get(w.snapshotOf, w.disk[p].lineage) == Some(snapshot)
      && w.disk[p].lineage >= foundNext && (still ==> w.disk[p].edits == 0)
    }

    ghost predicate KeepsLive()
      reads this`w, this`found, this`still
    {
      LiveKept(found, w.disk, still)
    }

    /** The safety snapshot, and the copy staged beside the data if there is enough space. */
    method SaveAndStage(me: Actor, snapshot: string, space: Space)
      returns (staged: bool, safety: Option<string>, root: Option<nat>)
      requires InCharge(me) && KeepsLive() && StillDown() && Down() && w.phases[me].Quiet? && Beside({})
      modifies this`w, this`faults, this`calls
      ensures w.selfStart == old(w.selfStart) && Down() && faults >= old(faults) && calls.failures >= old(calls).failures
      ensures calls == old(calls).(failures := calls.failures)
      ensures !staged && calls == old(calls) && faults == old(faults) ==> !Enough(space)
      ensures InCharge(me) && KeepsLive() && StillDown() && w.log == old(w.log)
      ensures root.Some? ==> Temp(root.value) !in found && Inside(root.value) !in found
      ensures safety.Some? ==> safety.value != ""
      ensures Beside(Staging(root))
      ensures staged ==> safety.Some? && w.phases[me] == Saved(safety.value) && Enough(space)
      ensures staged ==> root.Some? && HoldsSnapshot(Inside(root.value), snapshot) && Temp(root.value) in w.disk
    {
      hide Known, OthersKept, Reachable, Inv, Enabled, Next, Grown, Without, Clear;
      staged, safety, root := false, None, None;
      ghost var w0 := w;
      var id := SafetyBackup(me);
      ClearMeanwhile(found, w0, w, {});
      if id.None? || id.value == "" { return; }
      safety := id;
      ghost var d := w.disk;
      root := MakeTemp(me);
      if root.None? { return; }
      MadeOne(found, d, w.disk, root.value);
      if * {
        Failed();                    // the size of the snapshot is not known
        return;
      }
      if space.size == 0 { return; }
      if * {
        Failed();                    // the free space is not known
        return;
      }
      if space.free < RequiredRestoreSpace(space.size) { return; }
      ghost var before := w.disk;
      var restored := RunRestic(me, snapshot, root.value, space);
      GrownAt(before, w.disk, Temp(root.value));
      ClearWithout(found, before, w.disk, {Inside(root.value)}, Staging(root), Staging(root));
      staged := restored && Inside(root.value) in w.disk;
    }

    /** Everything before the exchange: the safety snapshot, the staged copy, enough space for
        it, and a free name beside the data. */
    method Prepare(me: Actor, snapshot: string, space: Space)
      returns (ready: bool, safety: Option<string>, root: Option<nat>, aside: Place)
      requires InCharge(me) && KeepsLive() && StillDown() && Down() && w.phases[me].Quiet? && Beside({})
      modifies this`w, this`faults, this`calls
      ensures w.selfStart == old(w.selfStart) && Down() && faults >= old(faults) && calls.failures >= old(calls).failures
      ensures calls == old(calls).(failures := calls.failures)
      ensures !ready && calls == old(calls) && faults == old(faults) ==> !Enough(space)
      ensures InCharge(me) && KeepsLive() && StillDown() && w.log == old(w.log)
      ensures root.Some? ==> Temp(root.value) !in found && Inside(root.value) !in found
      ensures safety.Some? ==> safety.value != ""
      ensures faults == old(faults) || ready ==> Beside(Staging(root))
      ensures ready ==> safety.Some? && w.phases[me] == Saved(safety.value) && Enough(space)
      ensures ready ==> root.Some? && HoldsSnapshot(Inside(root.value), snapshot)
      ensures ready ==> aside.Temp? && aside !in found && aside !in w.disk && aside != Temp(root.value)
    {
      hide Known, OthersKept, Reachable, Inv, Enabled, Next, Grown, LiveKept, Clear, Drift;
      aside := Live;
      ready, safety, root := SaveAndStage(me, snapshot, space);
      if !ready { return; }
      ready := false;
      ghost var before := w.disk;
      ghost var w0 := w;
      assert HoldsSnapshot(Inside(root.value), snapshot);
      InterfereWithLive(me, Inside(root.value));
      ClearMeanwhile(found, w0, w, Staging(root));
      assert Same(before, w.disk, Temp(root.value));
      if * {
        Failed();                    // it is not a real directory
        return;
      }
      ghost var d := w.disk;
      var path := ReservePath(me);
      LiveWhileFilesChange(found, d, w.disk, still);
      if path.None? { return; }
      ready, aside := true, path.value;
    }

    /** The data that was found is exactly where, and as, it was moved to. */
    ghost predicate OriginalAside(aside: Place)
      reads this`w, this`found, this`still
    {
      && SetAside(found, w.disk, aside, still)
      && w.log != [] && w.log[|w.log| - 1].replaced == Some(w.disk[aside])
    }

    /** The original is beside the data directory, and stays there because renaming it back was
        tried and failed; if nobody else could write, some directory call failed for no reason
        of ours. */
    ghost predicate CannotReturn(aside: Place)
      reads this`w, this`found, this`still, this`stuck, this`faults
    {
      OriginalAside(aside) && aside in stuck && (still ==> faults > 0)
    }

    /** What others do before the data is moved aside. */
    method InterfereWithLive(me: Actor, ghost staged: Place)
      requires InCharge(me) && KeepsLive() && StillDown() && staged != Live
      modifies this`w
      ensures InCharge(me) && KeepsLive() && StillDown() && w.phases[me] == old(w.phases[me]) && w.log == old(w.log)
      ensures w.selfStart == old(w.selfStart)
      ensures Drift(old(w.disk), w.disk, old(w.nextLineage))
      ensures forall p :: p != Live ==> Same(old(w.disk), w.disk, p)
      ensures forall s :: old(HoldsSnapshot(staged, s)) ==> HoldsSnapshot(staged, s)
      ensures old(Down()) ==> Down() && (!w.selfStart ==> w.disk == old(w.disk))
    {
      hide Known, OthersKept, Reachable, Inv, Enabled, Next, LiveKept;
      ghost var w0 := w;
      Interfere(me);
      LiveMeanwhile(found, w0, w, still);
    }

    /** What others do while the original is aside. */
    method InterfereWithAside(me: Actor, ghost aside: Place)
      requires InCharge(me) && OriginalAside(aside) && StillDown() && aside != Live
      modifies this`w
      ensures InCharge(me) && OriginalAside(aside) && StillDown() && w.phases[me] == old(w.phases[me]) && w.log == old(w.log)
      ensures w.selfStart == old(w.selfStart)
      ensures Drift(old(w.disk), w.disk, old(w.nextLineage))
      ensures forall p :: p != Live ==> Same(old(w.disk), w.disk, p)
      ensures old(Down()) ==> Down() && (!w.selfStart ==> w.disk == old(w.disk))
      ensures w.snapshotOf == old(w.snapshotOf) && aside in w.disk && (still ==> w.disk == old(w.disk))
    {
      hide Known, OthersKept, Reachable, Inv, Enabled, Next, SetAside;
      ghost var w0 := w;
      Interfere(me);
      AsideMeanwhile(found, w0, w, aside, still, foundNext);
    }

    /** The two renames that exchange the data, and the rename back when the second fails. */
    method Exchange(me: Actor, snapshot: string, root: nat, aside: Place) returns (step: Outcome)
      requires InCharge(me) && KeepsLive() && StillDown() && w.phases[me].Saved? && Down() && calls.lastSeen == Some(false)
      requires HoldsSnapshot(Inside(root), snapshot) && Beside(Staging(Some(root)))
      requires Inside(root) !in found && aside.Temp? && aside !in found && aside !in w.disk
      modifies this`w, this`settled, this`stuck, this`faults, this`calls
      ensures w.selfStart == old(w.selfStart) && Down() && calls == old(calls) && faults >= old(faults)
      ensures !w.selfStart && faults == old(faults) ==> step.Exchanged?
      ensures InCharge(me) && StillDown() && old(w.log) <= w.log
      ensures |w.log| > |old(w.log)| && w.log[|w.log| - 1].safety == old(w.phases[me]).id
      ensures step.NotMoved? || step.MovedBack? ==> KeepsLive()
      ensures Beside(Staging(Some(root)) + if step.Exchanged? || step.Stranded? then {aside} else {})
      ensures step.Stranded? ==> CannotReturn(aside)
      ensures step.Exchanged? ==> OriginalAside(aside)
      ensures step.Exchanged? ==> HoldsSnapshot(Live, snapshot)
    {
      hide Known, OthersKept, Reachable, Inv, Enabled, Next, SetAside, LiveKept, Renamed, Drift, Clear;
      ghost var w0, extra := w, Staging(Some(root));
      SavedHasLive(w, me);
      InterfereWithLive(me, Inside(root));
      ClearMeanwhile(found, w0, w, extra);
      assert Same(old(w.disk), w.disk, aside);
      ghost var d0 := w.disk;
      var moved := MoveLiveAside(me, aside);
      ClearRenamed(found, d0, w.disk, Live, aside, moved, extra, extra + if moved then {aside} else {});
      if !moved {
        NotRenamed(d0, w.disk, Live, aside);
        return NotMoved;
      }
      LiveMovedAside(found, d0, w.disk, aside, still);
      assert Same(d0, w.disk, Inside(root)) && Live !in w.disk;
      step := ActivateCopy(me, snapshot, Inside(root), aside, Staging(Some(root)));
    }

    method ActivateCopy(me: Actor, snapshot: string, staged: Place, aside: Place, ghost extra: set<Place>) returns (step: Outcome)
      requires InCharge(me) && OriginalAside(aside) && StillDown() && HoldsSnapshot(staged, snapshot)
      requires w.phases[me].Moved? && w.phases[me].aside == aside && Live !in w.disk && Down() && calls.lastSeen == Some(false)
      requires Beside(extra + {aside})
      requires staged !in found && staged != Live && staged != aside && aside.Temp? && aside !in found
      modifies this`w, this`settled, this`stuck, this`faults, this`calls
      ensures w.selfStart == old(w.selfStart) && Down() && calls == old(calls) && faults >= old(faults)
      ensures !w.selfStart && faults == old(faults) ==> step.Exchanged?
      ensures InCharge(me) && StillDown() && old(w.log) <= w.log
      ensures |w.log| > |old(w.log)| && w.log[|w.log| - 1].safety == old(w.phases[me]).id
      ensures step.MovedBack? ==> KeepsLive()
      ensures Beside(extra + if step.Exchanged? || step.Stranded? then {aside} else {})
      ensures step.Stranded? ==> CannotReturn(aside)
      ensures if step.Exchanged? then OriginalAside(aside) && HoldsSnapshot(Live, snapshot) else !step.NotMoved?
    {
      hide Known, OthersKept, Reachable, Inv, Enabled, Next, SetAside, LiveKept, Renamed, Drift, Clear;
      ghost var w0 := w;
      InterfereWithAside(me, aside);
      ClearMeanwhile(found, w0, w, extra + {aside});
      assert Same(old(w.disk), w.disk, staged);
      ghost var d1 := w.disk;
      var active := Activate(me, staged);
      ClearRenamed(found, d1, w.disk, staged, Live, active, extra + {aside}, extra + {aside});
      if active {
        CopyActivated(found, foundNext, d1, w.disk, staged, aside, still);
        return Exchanged;
      }
      NotRenamed(d1, w.disk, staged, Live);
      step := MoveBack(me, aside, extra);
    }

    method MoveBack(me: Actor, aside: Place, ghost extra: set<Place>) returns (step: Outcome)
      requires InCharge(me) && StillDown() && OriginalAside(aside) && aside.Temp? && aside !in found
      requires (still ==> Live !in w.disk || faults > 0) && Beside(extra + {aside})
      modifies this`w, this`settled, this`stuck, this`faults, this`calls
      ensures calls == old(calls).(hot := old(calls).hot + if old(calls).lastSeen == Some(false) then 0 else 1)
      ensures w.selfStart == old(w.selfStart) && (old(Down()) ==> Down()) && faults >= old(faults)
      ensures InCharge(me) && StillDown() && w.log == old(w.log)
      ensures Beside(extra + if step.MovedBack? then {} else {aside})
      ensures if step.MovedBack? then KeepsLive() else step.Stranded? && CannotReturn(aside)
    {
      hide Known, OthersKept, Reachable, Inv, Enabled, Next, SetAside, LiveKept, Renamed, Drift, Clear;
      ghost var w0 := w;
      InterfereWithAside(me, aside);
      ClearMeanwhile(found, w0, w, extra + {aside});
      ghost var d := w.disk;
      var back := Rename(me, aside, Live);
      RenamedBack(found, d, w.disk, aside, still, back);
      ClearRenamed(found, d, w.disk, aside, Live, back, extra + {aside}, extra + if back then {} else {aside});
      return if back then MovedBack else Stranded;
    }

    /** The first step of a rollback: a service that runs is asked to stop. */
    method StopIfRunning(me: Actor)
      requires InCharge(me)
      modifies this`w, this`seenUp, this`calls
      ensures calls.hot == old(calls).hot && calls.failures >= old(calls).failures
      ensures calls.lastSeen == Some(false) || calls.failures > old(calls).failures
      ensures InCharge(me) && Passed(old(w), w) && Frozen(old(w), w)
    {
      hide Known, OthersKept, Reachable, Inv, Drift, Enabled, Next;
      var state := ServiceState(me);
      if state == Some(true) {
        ghost var seen := w;
        var halted := Stop(me);
        PassedTwice(old(w), seen, w);
        if halted {
          ghost var asked := w;
          var waited := WaitForState(me, false);
          PassedTwice(old(w), asked, w);
        }
      }
    }

    /** A free name beside the data and the original. */
    method ReserveFailedPath(me: Actor, ghost aside: Place, ghost extra: set<Place>) returns (path: Option<Place>)
      requires InCharge(me) && OriginalAside(aside) && StillDown() && aside.Temp? && Beside(extra)
      modifies this`w, this`faults
      ensures InCharge(me) && OriginalAside(aside) && StillDown() && w.log == old(w.log) && aside in w.disk
      ensures path.Some? ==> path.value.Temp? && path.value !in found && path.value !in w.disk
      ensures faults == old(faults) ==> Beside(extra)
      ensures (path.None? ==> faults > old(faults)) && faults >= old(faults)
    {
      assert aside in w.disk;
      hide Known, OthersKept, Reachable, Inv, Enabled, Next, SetAside, Grown, Clear;
      ghost var d0 := w.disk;
      path := ReservePath(me);
      GrownAt(d0, w.disk, aside);
      AsideWhileFilesChange(found, d0, w.disk, aside, still);
      if path.Some? { InterfereWithPath(me, aside, path.value, extra); }
    }

    method InterfereWithPath(me: Actor, ghost aside: Place, ghost path: Place, ghost extra: set<Place>)
      requires InCharge(me) && OriginalAside(aside) && StillDown() && aside.Temp? && path.Temp? && path !in w.disk
      modifies this`w
      ensures InCharge(me) && OriginalAside(aside) && StillDown() && w.log == old(w.log) && aside in w.disk
      ensures path !in w.disk && (old(Beside(extra)) ==> Beside(extra))
    {
      hide Known, OthersKept, Reachable, Inv, Enabled, Next, SetAside, Drift, Clear;
      ghost var w0 := w;
      InterfereWithAside(me, aside);
      if Clear(found, w0.disk, extra) { ClearMeanwhile(found, w0, w, extra); }
      assert Same(old(w.disk), w.disk, path);
    }

    /** The restored data is kept under another name, if possible. */
    method KeepFailedCopy(me: Actor, aside: Place, ghost extra: set<Place>) returns (failed: Option<Place>)
      requires InCharge(me) && OriginalAside(aside) && StillDown() && aside.Temp? && aside !in found && Beside(extra)
      modifies this`w, this`settled, this`stuck, this`faults, this`calls
      ensures calls == old(calls).(hot := calls.hot) && faults >= old(faults)
      ensures old(calls).lastSeen == Some(false) ==> calls == old(calls)
      ensures InCharge(me) && OriginalAside(aside) && StillDown() && w.log == old(w.log)
      ensures failed.Some? ==> failed.value !in found && failed.value != Live
      ensures faults == old(faults) ==> Beside(extra + if failed.Some? then {failed.value} else {})
      ensures still ==> Live !in w.disk || faults > 0
    {
      hide Known, OthersKept, Reachable, Inv, Enabled, Next, SetAside, Renamed, Clear;
      failed := ReserveFailedPath(me, aside, extra);
      if failed.None? { return; }
      ghost var d1, e1 := w.disk, faults == old(faults);
      var preserved := Rename(me, Live, failed.value);
      FailedCopyKept(found, d1, w.disk, failed.value, aside, still, preserved);
      if e1 { ClearRenamed(found, d1, w.disk, Live, failed.value, preserved, extra, extra + if preserved then {failed.value} else {}); }
      if !preserved { failed := None; }
    }

    /** The restored data makes room, if possible, and the original is renamed back. */
    method PutBack(me: Actor, aside: Place, ghost extra: set<Place>) returns (failed: Option<Place>, restored: bool)
      requires InCharge(me) && OriginalAside(aside) && StillDown() && aside.Temp? && aside !in found && Beside(extra + {aside})
      modifies this`w, this`settled, this`stuck, this`faults, this`calls
      ensures calls == old(calls).(hot := calls.hot) && faults >= old(faults)
      ensures old(calls).lastSeen == Some(false) ==> calls == old(calls)
      ensures InCharge(me) && StillDown() && w.log == old(w.log)
      ensures if restored then KeepsLive() else CannotReturn(aside)
      ensures faults == old(faults) && restored ==> Beside(extra + if failed.Some? then {failed.value} else {})
      ensures failed.Some? ==> failed.value !in found && failed.value != Live
    {
      hide Known, OthersKept, Reachable, Inv, Enabled, Next, SetAside, LiveKept, Clear;
      ghost var f0 := faults;
      failed := KeepFailedCopy(me, aside, extra + {aside});
      ghost var kept := if failed.Some? then {failed.value} else {};
      ghost var others := if faults == f0 then extra + kept else w.disk.Keys;
      assert faults == f0 ==> extra + {aside} + kept == others + {aside};
      if faults != f0 { ClearOfAll(found, w.disk, {aside}); }
      var step := MoveBack(me, aside, others);
      assert others + {} == others;
      restored := step.MovedBack?;
    }

    /** The failed copy is of no use once the original is back. */
    method DropFailedCopy(me: Actor, failed: Place, ghost extra: set<Place>)
      requires InCharge(me) && KeepsLive() && StillDown() && failed !in found && failed != Live
      modifies this`w, this`mess
      ensures InCharge(me) && KeepsLive() && StillDown() && w.log == old(w.log) && mess >= old(mess)
      ensures mess == old(mess) && old(Beside(extra + {failed})) ==> Beside(extra)
    {
      hide Known, OthersKept, Reachable, Inv, Enabled, Next, LiveKept, Without, Clear;
      ghost var d := w.disk;
      var removed := RemoveAll(me, failed);
      LiveWhileFilesChange(found, d, w.disk, still);
      if removed && Clear(found, d, extra + {failed}) { ClearWithout(found, d, w.disk, {failed}, extra + {failed}, extra); }
    }

    method StopAndWait(me: Actor, ghost aside: Place, ghost extra: set<Place>)
      requires InCharge(me) && OriginalAside(aside) && StillDown() && aside != Live && Beside(extra)
      modifies this`w, this`seenUp, this`calls
      ensures calls.hot == old(calls).hot && calls.failures >= old(calls).failures
      ensures calls.lastSeen == Some(false) || calls.failures > old(calls).failures
      ensures InCharge(me) && OriginalAside(aside) && StillDown() && w.log == old(w.log) && Beside(extra)
    {
      hide Known, OthersKept, Reachable, Inv, Enabled, Next, SetAside, Drift, Clear;
      ghost var w0 := w;
      StopIfRunning(me);
      AsideMeanwhile(found, w0, w, aside, still, foundNext);
      ClearMeanwhile(found, w0, w, extra);
    }

    /** The rollback closure of restore.go. */
    method Rollback(me: Actor, aside: Place, wasRunning: bool, stopped: bool, ghost extra: set<Place>) returns (restored: bool)
      requires InCharge(me) && OriginalAside(aside) && StillDown() && (still ==> !wasRunning)
      requires aside.Temp? && aside !in found && Beside(extra + {aside})
      modifies this`w, this`settled, this`stuck, this`faults, this`mess, this`restarts, this`starts, this`seenUp, this`answered, this`calls
      ensures calls.failures >= old(calls).failures && faults >= old(faults)
      ensures calls.hot == old(calls).hot || calls.failures > old(calls).failures
      ensures InCharge(me) && StillDown() && w.log == old(w.log)
      ensures mess >= old(mess) && (restored && faults == old(faults) && mess == old(mess) ==> Beside(extra))
      ensures if restored then KeepsLive() else CannotReturn(aside)
      ensures wasRunning && stopped ==> restarts == old(restarts) + 1 && settled
      ensures !(wasRunning && stopped) ==> restarts == old(restarts)
    {
      hide Known, OthersKept, Reachable, Inv, Enabled, Next, SetAside, LiveKept, Drift, Without, Clear;
      StopAndWait(me, aside, extra + {aside});
      var failed: Option<Place>;
      failed, restored := PutBack(me, aside, extra);
      assert extra + {} == extra;
      ghost var w1, left := w, extra + if failed.Some? then {failed.value} else {};
      var restarted := RestartOriginal(me, wasRunning, stopped);
      if !restored {
        AsideMeanwhile(found, w1, w, aside, still, foundNext);
      } else {
        LiveMeanwhile(found, w1, w, still);
        if faults == old(faults) { ClearMeanwhile(found, w1, w, left); }
        if failed.Some? { DropFailedCopy(me, failed.value, extra); }
      }
    }

    /** The restored data is kept only if the service is back in its former state with it. */
    method VerifyRestored(me: Actor, wasRunning: bool) returns (ok: bool)
      requires InCharge(me) && StillDown() && (still ==> !wasRunning) && Down()
      modifies this`w, this`restarts, this`settled, this`starts, this`seenUp, this`answered, this`calls
      ensures calls.failures >= old(calls).failures && calls.hot == old(calls).hot
      ensures !old(w.selfStart) && calls.failures == old(calls).failures ==> ok
      ensures InCharge(me) && StillDown() && Passed(old(w), w) && (still ==> w.disk == old(w.disk))
      ensures restarts == old(restarts) && settled == old(settled)
      ensures starts == old(starts) + (if wasRunning then 1 else 0)
      ensures ok && !wasRunning ==> !w.running
      ensures ok && wasRunning ==> seenUp && answered
    {
      hide Known, OthersKept, Reachable, Inv, Drift, Enabled, Next;
      if !wasRunning {
        var state := ServiceState(me);
        return state == Some(false);
      }
      var started := Start(me, false);
      if !started { return false; }
      ghost var asked := w;
      var up := WaitForState(me, true);
      PassedTwice(old(w), asked, w);
      if !up { return false; }
      ghost var seen := w;
      ok := WaitForReadiness(me);
      PassedTwice(old(w), seen, w);
    }

    method VerifyExchanged(me: Actor, ghost snapshot: string, ghost aside: Place, wasRunning: bool, ghost extra: set<Place>) returns (ok: bool)
      requires InCharge(me) && OriginalAside(aside) && HoldsSnapshot(Live, snapshot) && StillDown() && (still ==> !wasRunning) && Down()
      requires aside.Temp? && Beside(extra)
      modifies this`w, this`restarts, this`settled, this`starts, this`seenUp, this`answered, this`calls
      ensures InCharge(me) && OriginalAside(aside) && HoldsSnapshot(Live, snapshot) && StillDown() && Beside(extra)
      ensures w.log == old(w.log) && w.selfStart == old(w.selfStart)
      ensures calls.failures >= old(calls).failures && calls.hot == old(calls).hot
      ensures !old(w.selfStart) && calls.failures == old(calls).failures ==> ok
      ensures restarts == old(restarts) && settled == old(settled)
      ensures starts == old(starts) + (if wasRunning then 1 else 0)
      ensures ok ==> if wasRunning then seenUp && answered else !w.running
    {
      hide Known, OthersKept, Reachable, Inv, Enabled, Next, SetAside, Clear;
      ghost var w0 := w;
      ok := VerifyRestored(me, wasRunning);
      AsideMeanwhile(found, w0, w, aside, still, foundNext);
      ClearMeanwhile(found, w0, w, extra);
    }

    method RemoveOriginal(me: Actor, ghost snapshot: string, aside: Place, ghost extra: set<Place>) returns (ok: bool)
      requires InCharge(me) && HoldsSnapshot(Live, snapshot) && aside.Temp? && aside !in found && Beside(extra + {aside})
      modifies this`w, this`mess
      ensures InCharge(me) && HoldsSnapshot(Live, snapshot) && OnlyFiles(old(w), w) && mess == old(mess) + if ok then 0 else 1
      ensures ok ==> aside !in w.disk && Beside(extra)
    {
      hide Known, OthersKept, Reachable, Inv, Enabled, Next, Without, Clear;
      ghost var d := w.disk;
      ok := RemoveAll(me, aside);
      if ok { ClearWithout(found, d, w.disk, {aside}, extra + {aside}, extra); }
    }

    /** After the exchange: the restored data is kept if the service comes back with it. */
    method KeepOrRollBack(me: Actor, snapshot: string, safety: Option<string>, root: nat, aside: Place, wasRunning: bool, stopped: bool)
      returns (report: Report)
      requires InCharge(me) && OriginalAside(aside) && HoldsSnapshot(Live, snapshot) && StillDown() && (still ==> !wasRunning) && Down()
      requires aside.Temp? && aside !in found && aside != Temp(root) && Temp(root) !in found && Inside(root) !in found && Beside(Staging(Some(root)) + {aside})
      modifies this`w, this`stuck, this`faults, this`mess, this`restarts, this`settled, this`starts, this`seenUp, this`answered, this`calls
      ensures calls.failures >= old(calls).failures && faults >= old(faults)
      ensures calls.hot == old(calls).hot || calls.failures > old(calls).failures
      ensures !old(w.selfStart) && calls.failures == old(calls).failures ==> report.success
      ensures InCharge(me) && report.safety == safety && w.log == old(w.log)
      ensures report.success ==> HoldsSnapshot(Live, snapshot) && (report.warning || aside !in w.disk)
      ensures report.success ==> starts == old(starts) + (if wasRunning then 1 else 0) && (if wasRunning then seenUp && answered else !w.running)
      ensures report.success <==> report.rollbackRestored.None?
      ensures mess >= old(mess) && (report.warning ==> report.success && mess > old(mess))
      ensures faults == old(faults) && mess == old(mess) && aside !in stuck ==> Beside({})
      ensures !report.success ==> KeepsLive() || CannotReturn(aside)
      ensures report.rollbackRestored == Some(true) ==> KeepsLive()
      ensures report.rollbackRestored == Some(false) ==> CannotReturn(aside)
      ensures !report.success && wasRunning && stopped ==> restarts == old(restarts) + 1 && settled
      ensures report.success || !(wasRunning && stopped) ==> restarts == old(restarts)
    {
      hide Known, OthersKept, Reachable, Inv, Enabled, Next, SetAside, LiveKept, Without, Clear;
      ghost var staging := Staging(Some(root));
      var ok := VerifyExchanged(me, snapshot, aside, wasRunning, staging + {aside});
      var restored, cleaned := false, false;
      if ok {
        cleaned := RemoveOriginal(me, snapshot, aside, staging);
      } else {
        restored := Rollback(me, aside, wasRunning, stopped, Staging(Some(root)));
      }
      assert staging + {} == staging;
      CleanUp(me, root, aside, ok || restored, {});
      return if ok then Report(true, safety, None, !cleaned) else Report(false, safety, Some(restored), false);
    }

    /** Only the staging directory goes. */
    method CleanUp(me: Actor, root: nat, ghost aside: Place, ghost back: bool, ghost left: set<Place>)
      requires InCharge(me) && aside.Temp? && aside != Temp(root) && Temp(root) !in found && Inside(root) !in found
      requires !back ==> OriginalAside(aside)
      modifies this`w, this`mess
      ensures InCharge(me) && OnlyFiles(old(w), w) && Same(old(w.disk), w.disk, Live) && Same(old(w.disk), w.disk, aside)
      ensures if back then old(KeepsLive()) ==> KeepsLive() else OriginalAside(aside)
      ensures mess >= old(mess)
      ensures mess == old(mess) && old(Beside(Staging(Some(root)) + left)) ==> Beside(left)
    {
      hide Known, OthersKept, Reachable, Inv, Enabled, Next, SetAside, LiveKept, Without, Clear;
      ghost var d, staging := w.disk, Staging(Some(root));
      RemoveStaging(me, Some(root));
      WithoutAt(d, w.disk, staging, aside);
      if !back {
        AsideWhileFilesChange(found, d, w.disk, aside, still);
      } else if LiveKept(found, d, still) {
        LiveWhileFilesChange(found, d, w.disk, still);
      }
      if mess == old(mess) && Clear(found, d, staging + left) { ClearWithout(found, d, w.disk, staging, staging + left, left); }
    }

    method NotExchanged(me: Actor, step: Outcome, safety: Option<string>, root: nat, aside: Place, wasRunning: bool, stopped: bool)
      returns (report: Report)
      requires InCharge(me) && StillDown() && (still ==> !wasRunning)
      requires aside.Temp? && aside != Temp(root) && Temp(root) !in found && Inside(root) !in found
      requires !step.Exchanged? && if step.Stranded? then CannotReturn(aside) else KeepsLive()
      requires Beside(Staging(Some(root)) + if step.Stranded? then {aside} else {})
      modifies this`w, this`mess, this`restarts, this`settled, this`starts, this`seenUp, this`answered, this`calls
      ensures calls.failures >= old(calls).failures && calls.hot == old(calls).hot
      ensures InCharge(me) && report == Failure(safety) && w.log == old(w.log)
      ensures KeepsLive() || CannotReturn(aside)
      ensures mess >= old(mess) && (mess == old(mess) ==> Beside(if step.Stranded? then {aside} else {}))
      ensures wasRunning && stopped ==> restarts == old(restarts) + 1 && settled
      ensures !(wasRunning && stopped) ==> restarts == old(restarts)
    {
      hide Known, OthersKept, Reachable, Inv, Enabled, Next, SetAside, LiveKept, Without, Drift, Clear;
      ghost var staging, left := Staging(Some(root)), if step.Stranded? then {aside} else {};
      ghost var w0 := w;
      var restarted := RestartOriginal(me, wasRunning, stopped);
      ClearMeanwhile(found, w0, w, staging + left);
      if step.Stranded? {
        AsideMeanwhile(found, w0, w, aside, still, foundNext);
      } else {
        LiveMeanwhile(found, w0, w, still);
      }
      CleanUp(me, root, aside, !step.Stranded?, left);
      return Failure(safety);
    }

    method NotReady(me: Actor, safety: Option<string>, root: Option<nat>, wasRunning: bool, stopped: bool) returns (report: Report)
      requires InCharge(me) && KeepsLive() && StillDown() && (still ==> !wasRunning)
      requires root.Some? ==> Temp(root.value) !in found && Inside(root.value) !in found
      modifies this`w, this`mess, this`restarts, this`settled, this`starts, this`seenUp, this`answered, this`calls
      ensures calls.failures >= old(calls).failures && calls.hot == old(calls).hot
      ensures InCharge(me) && KeepsLive() && report == Failure(safety) && w.log == old(w.log)
      ensures mess >= old(mess) && (mess == old(mess) && old(Beside(Staging(root))) ==> Beside({}))
      ensures wasRunning && stopped ==> restarts == old(restarts) + 1 && settled
      ensures !(wasRunning && stopped) ==> restarts == old(restarts)
    {
      hide Known, OthersKept, Reachable, Inv, Enabled, Next, LiveKept, Without, Drift, Clear;
      ghost var w0, tidy := w, Clear(found, w.disk, Staging(root));
      var restarted := RestartOriginal(me, wasRunning, stopped);
      LiveMeanwhile(found, w0, w, still);
      if tidy { ClearMeanwhile(found, w0, w, Staging(root)); }
      ghost var d := w.disk;
      RemoveStaging(me, root);
      LiveWhileFilesChange(found, d, w.disk, still);
      if tidy && mess == old(mess) && root.Some? { ClearWithout(found, d, w.disk, Staging(root), Staging(root), {}); }
      return Failure(safety);
    }

    /** From the safety snapshot on; the service has been seen stopped. */
    method ReplaceData(me: Actor, snapshot: string, space: Space, wasRunning: bool, stopped: bool)
      returns (report: Report, ghost aside: Place)
      requires InCharge(me) && KeepsLive() && StillDown() && (still ==> !wasRunning)
      requires w.phases[me].Quiet? && stopped == wasRunning && Down() && calls.lastSeen == Some(false) && Beside({})
      modifies this
      ensures mess >= old(mess) && (report.warning ==> report.success && mess > old(mess))
      ensures faults == old(faults) && mess == old(mess) && aside !in stuck ==> Beside({})
      ensures calls.failures >= old(calls).failures && faults >= old(faults)
      ensures calls.hot == old(calls).hot || calls.failures > old(calls).failures
      ensures !old(w.selfStart) && Enough(space) && calls.failures == old(calls).failures && faults == old(faults) ==> report.success
      ensures InCharge(me) && old(w.log) <= w.log && found == old(found) && still == old(still)
      ensures report.success ==> HoldsSnapshot(Live, snapshot) && (report.warning || aside !in w.disk)
      ensures !report.success ==> KeepsLive() || CannotReturn(aside)
      ensures report.rollbackRestored == Some(true) ==> KeepsLive()
      ensures report.rollbackRestored == Some(false) ==> CannotReturn(aside)
      ensures report.success ==> report.rollbackRestored.None? && restarts == old(restarts)
      ensures report.success ==> starts == old(starts) + (if stopped then 1 else 0) && (if stopped then seenUp && answered else !w.running)
      ensures !report.success && stopped ==> restarts == old(restarts) + 1 && settled
      ensures !stopped ==> restarts == old(restarts)
      ensures report.success ==> w.log != old(w.log)
      ensures w.log != old(w.log) ==> w.log != [] && report.safety == Some(w.log[|w.log| - 1].safety) && report.safety.value != ""
    {
      hide Known, OthersKept, Reachable, Inv, Enabled, Next, SetAside, LiveKept, Without, Grown, Drift, Clear;
      var ready, safety, root, path := Prepare(me, snapshot, space);
      aside := path;
      if !ready {
        report := NotReady(me, safety, root, wasRunning, stopped);
        return report, aside;
      }
      var step := Exchange(me, snapshot, root.value, path);
      if !step.Exchanged? {
        report := NotExchanged(me, step, safety, root.value, path, wasRunning, stopped);
        return report, aside;
      }
      report := KeepOrRollBack(me, snapshot, safety, root.value, path, wasRunning, stopped);
    }

    /** restoreSnapshot between taking and giving back the lock.  Success means that the data
        directory holds the snapshot.  Failure means that it holds what it held; only when the
        original had been moved aside and renaming it back failed, it is intact beside it.  If
        nobody could write to it, the trees are equal.  A service this operation stopped is
        started again exactly once on failure, when the directories are where they stay. */
    method RestoreLocked(me: Actor, snapshot: string, space: Space) returns (report: Report, ghost aside: Place, ghost stopped: bool)
      requires InCharge(me) && KeepsLive() && StillDown() && w.phases[me].Locked? && Beside({})
      modifies this
      ensures mess >= old(mess) && (report.warning ==> report.success && mess > old(mess))
      ensures faults == old(faults) && mess == old(mess) && aside !in stuck ==> Beside({})
      ensures calls.failures >= old(calls).failures && faults >= old(faults)
      ensures calls.hot == old(calls).hot || calls.failures > old(calls).failures
      ensures !old(w.selfStart) && Enough(space) && calls.failures == old(calls).failures && faults == old(faults) ==> report.success
      ensures InCharge(me) && old(w.log) <= w.log && found == old(found) && still == old(still)
      ensures report.success ==> HoldsSnapshot(Live, snapshot) && (report.warning || aside !in w.disk)
      ensures !report.success ==> KeepsLive() || CannotReturn(aside)
      ensures report.rollbackRestored == Some(true) ==> KeepsLive()
      ensures report.rollbackRestored == Some(false) ==> CannotReturn(aside)
      ensures report.success ==> report.rollbackRestored.None? && restarts == old(restarts)
      ensures report.success ==> starts == old(starts) + (if stopped then 1 else 0) && (if stopped then seenUp && answered else !w.running)
      ensures !report.success && stopped ==> restarts == old(restarts) + 1 && settled
      ensures !stopped ==> restarts == old(restarts)
      ensures report.success ==> w.log != old(w.log)
      ensures w.log != old(w.log) ==> w.log != [] && report.safety == Some(w.log[|w.log| - 1].safety) && report.safety.value != ""
    {
      hide Known, OthersKept, Reachable, Inv, Enabled, Next, SetAside, LiveKept, Without, Grown, Drift, Clear;
      aside, stopped := Live, false;
      ghost var w0 := w;
      var state := ServiceState(me);
      LiveMeanwhile(found, w0, w, still);
      ClearMeanwhile(found, w0, w, {});
      if state.None? { return Failure(None), aside, stopped; }
      if !state.value {
        report, aside := ReplaceData(me, snapshot, space, false, false);
        return report, aside, stopped;
      }
      ghost var w1 := w;
      var halted := Stop(me);
      LiveMeanwhile(found, w1, w, still);
      ClearMeanwhile(found, w1, w, {});
      if !halted { return Failure(None), aside, stopped; }
      stopped := true;
      ghost var w2 := w;
      var down := WaitForState(me, false);
      LiveMeanwhile(found, w2, w, still);
      ClearMeanwhile(found, w2, w, {});
      if !down {
        ghost var w3 := w;
        var restarted := RestartOriginal(me, true, true);
        LiveMeanwhile(found, w3, w, still);
        ClearMeanwhile(found, w3, w, {});
        return Failure(None), aside, stopped;
      }
      report, aside := ReplaceData(me, snapshot, space, true, true);
    }

    method RestoreSnapshot(me: Actor, serverId: string, snapshot: string, confirmation: string, safePath: bool, space: Space)
      returns (report: Report, ghost aside: Place, ghost stopped: bool)
      requires Valid() && me !in w.phases
      modifies this
      ensures Valid() && old(w.log) <= w.log
      ensures var accepted := IsSnapshotId(snapshot) && confirmation == serverId && safePath && Live in old(w.disk);
        if accepted then w.holder.None? && me !in w.phases else report == Failure(None) && w == old(w) && !stopped
      ensures w != old(w) && !old(w.selfStart) && Enough(space) && calls.failures == 0 && faults == 0 ==> report.success
      ensures w != old(w) && faults == mess == 0 && aside !in stuck ==> Beside({})
      ensures report.warning ==> report.success && mess > 0
      ensures w != old(w) ==> calls.hot == 0 || calls.failures > 0
      ensures report.success ==> HoldsSnapshot(Live, snapshot) && report.rollbackRestored.None?
      ensures report.success ==> starts == (if stopped then 1 else 0) && (if stopped then seenUp && answered else !w.running)
      ensures !report.success && w != old(w) ==> KeepsLive() || CannotReturn(aside)
      ensures report.rollbackRestored == Some(true) ==> KeepsLive()
      ensures report.rollbackRestored == Some(false) ==> CannotReturn(aside)
      ensures !report.success && stopped ==> restarts == 1 && settled
      ensures report.success ==> w.log != [] && report.safety == Some(w.log[|w.log| - 1].safety) && report.safety.value != ""
    {
      aside, stopped := Live, false;
      if !IsSnapshotId(snapshot) || confirmation != serverId || !safePath { return Failure(None), aside, stopped; }
      if Live !in w.disk { return Failure(None), aside, stopped; }  // looked at before the lock is taken
      hide *;
      report, aside, stopped := RestoreInTurn(me, snapshot, space);
    }

    method RestoreInTurn(me: Actor, snapshot: string, space: Space) returns (report: Report, ghost aside: Place, ghost stopped: bool)
      requires Valid() && me !in w.phases
      modifies this
      ensures !old(w.selfStart) && Enough(space) && calls.failures == 0 && faults == 0 ==> report.success
      ensures faults == mess == 0 && aside !in stuck ==> Beside({})
      ensures report.warning ==> report.success && mess > 0
      ensures calls.hot == 0 || calls.failures > 0
      ensures Valid() && old(w.log) <= w.log && w.holder.None? && me !in w.phases
      ensures report.success ==> HoldsSnapshot(Live, snapshot) && report.rollbackRestored.None?
      ensures report.success ==> starts == (if stopped then 1 else 0) && (if stopped then seenUp && answered else !w.running)
      ensures !report.success ==> KeepsLive() || CannotReturn(aside)
      ensures report.rollbackRestored == Some(true) ==> KeepsLive()
      ensures report.rollbackRestored == Some(false) ==> CannotReturn(aside)
      ensures !report.success && stopped ==> restarts == 1 && settled
      ensures report.success ==> w.log != [] && report.safety == Some(w.log[|w.log| - 1].safety) && report.safety.value != ""
    {
      Acquire(me);
      assert KeepsLive();
      hide Known, OthersKept, Reachable, Inv, Enabled, Next, SetAside, LiveKept;
      report, aside, stopped := RestoreLocked(me, snapshot, space);
      Release(me);
    }

    // -------------------------------------------------------------- updating

    /** The update unit may convert the data. */
    method RunUpdateUnit(me: Actor) returns (ok: bool)
      requires InCharge(me) && w.phases[me].Saved? && KeepsLive() && !still
      modifies this`w, this`calls, this`unitRuns
      ensures unitRuns == old(unitRuns) + [ok]
      ensures calls == old(calls).(failures := old(calls).failures + if ok then 0 else 1)
      ensures InCharge(me) && KeepsLive() && w.log == Attempt(old(w), old(w.phases[me]).id, Live).log
    {
      hide *;
      ConvertData(me);
      ok := *;
      NoteUnitRun(ok);
    }

    method ConvertData(me: Actor)
      requires InCharge(me) && w.phases[me].Saved? && KeepsLive() && !still
      modifies this`w
      ensures InCharge(me) && KeepsLive() && w.log == Attempt(old(w), old(w.phases[me]).id, Live).log
    {
      assert Covers(w, w.phases[me].id, Live);
      hide Known, Reachable, Inv;
      Do(me, UpdateUnit(me));
      ghost var w0 := w;
      Interfere(me);
      LiveMeanwhile(found, w0, w, still);
    }

    ghost method NoteUnitRun(ok: bool)
      modifies this`calls, this`unitRuns
      ensures unitRuns == old(unitRuns) + [ok]
      ensures calls == old(calls).(failures := old(calls).failures + if ok then 0 else 1)
    {
      if !ok { Failed(); }
      unitRuns := unitRuns + [ok];
    }

    /** startOriginal of update.go. */
    method StartOriginal(me: Actor, wasRunning: bool, stopped: bool) returns (ok: bool)
      requires InCharge(me) && KeepsLive() && !still
      modifies this`w, this`restarts, this`settled, this`starts, this`seenUp, this`answered, this`calls
      ensures calls.failures >= old(calls).failures && calls.stops == old(calls).stops && (ok <==> calls.failures == old(calls).failures)
      ensures wasRunning && stopped ==> (ok <==> seenUp && answered)
      ensures InCharge(me) && KeepsLive() && w.log == old(w.log)
      ensures wasRunning && stopped ==> restarts == old(restarts) + 1 && settled
      ensures !(wasRunning && stopped) ==> ok && restarts == old(restarts) && settled == old(settled)
    {
      hide Known, OthersKept, Reachable, Inv, Enabled, Next, LiveKept, Drift;
      ghost var w0 := w;
      ok := RestartOriginal(me, wasRunning, stopped);
      LiveMeanwhile(found, w0, w, still);
      if ok && wasRunning && stopped {
        ghost var w1 := w;
        ok := WaitForReadiness(me);
        LiveMeanwhile(found, w1, w, still);
      }
    }

    /** From the safety snapshot on. */
    method SaveAndUpdate(me: Actor, wasRunning: bool, stopped: bool) returns (report: UpdateReport)
      requires InCharge(me) && KeepsLive() && !still && w.phases[me].Quiet? && stopped == wasRunning
      modifies this
      ensures calls.failures >= old(calls).failures && calls.stops == old(calls).stops
      ensures report.success || report.updated <==> unitRuns == old(unitRuns) + [true]
      ensures report.unitFailed <==> unitRuns == old(unitRuns) + [false]
      ensures |unitRuns| == |old(unitRuns)| + |w.log| - |old(w.log)|
      ensures report.warning <==> report.success && !stopped && calls.lastSeen == Some(true)
      ensures report.updated ==> stopped && !(seenUp && answered)
      ensures calls.failures == old(calls).failures ==> report.success
      ensures InCharge(me) && KeepsLive() && found == old(found) && !still
      ensures old(w.log) <= w.log && |w.log| <= |old(w.log)| + 1
      ensures report.success || report.updated <==> |w.log| == |old(w.log)| + 1 && !report.unitFailed
      ensures |w.log| > |old(w.log)| ==> report.safety == Some(w.log[|w.log| - 1].safety)
      ensures !(report.success && report.updated) && (report.success && stopped ==> seenUp && answered)
      ensures restarts == old(restarts) + (if stopped then 1 else 0) && (stopped ==> settled)
    {
      hide Known, OthersKept, Reachable, Inv, Enabled, Next, LiveKept, Drift;
      ghost var w0 := w;
      var id := SafetyBackup(me);
      LiveMeanwhile(found, w0.(backups := w.backups), w, still);
      if id.None? || id.value == "" {
        var restarted := StartOriginal(me, wasRunning, stopped);
        return UpdateReport(false, None, false, false, false);
      }
      var ran := RunUpdateUnit(me);
      assert unitRuns[|unitRuns| - 1] == ran;
      var back := StartOriginal(me, wasRunning, stopped);
      if !ran || !back {
        return UpdateReport(false, id, ran, !ran, false);
      }
      report := UpdateReport(true, id, false, false, false);
      if !wasRunning {
        ghost var w1 := w;
        var now := ServiceState(me);
        LiveMeanwhile(found, w1, w, still);
        report := report.(warning := now == Some(true));
      }
    }

    /** updateServer between taking and giving back the lock.  The update unit runs at most once
        and never without a snapshot; whatever happens, a service that was stopped for it is
        started again exactly once, and the data directory stays where it is. */
    method UpdateLocked(me: Actor) returns (report: UpdateReport, ghost stopped: bool)
      requires InCharge(me) && KeepsLive() && !still && w.phases[me].Locked?
      modifies this
      ensures calls.failures >= old(calls).failures && (calls.failures == old(calls).failures ==> report.success)
      ensures report.success || report.updated <==> unitRuns == old(unitRuns) + [true]
      ensures report.unitFailed <==> unitRuns == old(unitRuns) + [false]
      ensures |unitRuns| == |old(unitRuns)| + |w.log| - |old(w.log)|
      ensures report.warning <==> report.success && !stopped && calls.lastSeen == Some(true)
      ensures report.updated ==> stopped && !(seenUp && answered)
      ensures InCharge(me) && KeepsLive() && found == old(found) && !still
      ensures old(w.log) <= w.log && |w.log| <= |old(w.log)| + 1
      ensures report.success || report.updated <==> |w.log| == |old(w.log)| + 1 && !report.unitFailed
      ensures |w.log| > |old(w.log)| ==> report.safety == Some(w.log[|w.log| - 1].safety)
      ensures !(report.success && report.updated) && (report.success && stopped ==> seenUp && answered)
      ensures stopped ==> restarts == old(restarts) + 1 && settled
      ensures !stopped ==> restarts == old(restarts)
    {
      hide Known, OthersKept, Reachable, Inv, Enabled, Next, LiveKept, Drift;
      report, stopped := UpdateReport(false, None, false, false, false), false;
      ghost var w0 := w;
      var state := ServiceState(me);
      LiveMeanwhile(found, w0, w, still);
      if state.None? { return; }
      if !state.value {
        report := SaveAndUpdate(me, false, false);
        return;
      }
      ghost var w1 := w;
      var halted := Stop(me);
      LiveMeanwhile(found, w1, w, still);
      if !halted { return; }
      stopped := true;
      ghost var w2 := w;
      var down := WaitForState(me, false);
      LiveMeanwhile(found, w2, w, still);
      if !down {
        var restarted := StartOriginal(me, true, true);
        return;
      }
      report := SaveAndUpdate(me, true, true);
    }

    method UpdateServer(me: Actor, serverId: string, updateUnit: string, confirmation: string)
      returns (report: UpdateReport, ghost stopped: bool)
      requires Valid() && me !in w.phases
      modifies this
      ensures Valid() && old(w.log) <= w.log
      ensures if updateUnit == "" || confirmation != serverId
        then report == UpdateReport(false, None, false, false, false) && w == old(w) && !stopped
        else
          && w.holder.None? && me !in w.phases && KeepsLive()
          && (calls.failures == 0 ==> report.success)
          && (report.success || report.updated <==> unitRuns == [true]) && (report.unitFailed <==> unitRuns == [false])
          && |unitRuns| <= 1 && (report.updated ==> stopped && !(seenUp && answered))
          && (report.warning <==> report.success && !stopped && calls.lastSeen == Some(true))
      ensures stopped ==> restarts == 1 && settled
      ensures report.success && stopped ==> seenUp && answered
    {
      stopped := false;
      if updateUnit == "" || confirmation != serverId {
        return UpdateReport(false, None, false, false, false), stopped;
      }
      Acquire(me);
      still := false;  // the update unit may write
      assert KeepsLive();
      hide Known, OthersKept, Reachable, Inv, Enabled, Next, LiveKept;
      report, stopped := UpdateLocked(me);
      Release(me);
    }

    // -------------------------------------------------------------- actions and wakes

    method HandleAction(me: Actor, action: string) returns (ok: bool)
      requires Valid() && me !in w.phases
      modifies this
      ensures Valid() && old(w.log) <= w.log && w.holder.None? && me !in w.phases
      ensures action == "start" ==> starts == 1 && calls.stops == 0
      ensures action == "stop" ==> starts == 0 && calls.stops == 1
      ensures action == "restart" ==> calls.stops == 1 && (starts == 1 || (starts == 0 && !ok))
      ensures action in {"start", "stop", "restart"} ==> (ok <==> calls.failures == 0)
      ensures action !in {"start", "stop", "restart"} ==> !ok && starts == 0 && calls.stops == 0
      ensures restarts == 0
    {
      hide Known, OthersKept, Reachable, Inv, Enabled, Next;
      Acquire(me);
      ok := false;
      if action == "stop" || action == "restart" {
        ok := Stop(me);
      }
      if action == "start" || (action == "restart" && ok) {
        ok := Start(me, false);
      }
      Release(me);
    }

    /** The start requested by the gateway: only a unit that is not active is started. */
    method WakeStart(me: Actor) returns (ok: bool, state: Option<bool>)
      requires Valid() && me !in w.phases
      modifies this
      ensures Valid() && old(w.log) <= w.log && w.holder.None? && me !in w.phases
      ensures starts == if state == Some(true) then 0 else 1
      ensures restarts == 0 && calls.stops == 0 && (ok <==> calls.failures == if state.None? then 1 else 0)
    {
      hide Known, OthersKept, Reachable, Inv, Enabled, Next;
      Acquire(me);
      state := ServiceState(me);
      ok := true;
      if state != Some(true) {
        ok := Start(me, false);
      }
      Release(me);
    }

    /** Any number of operations, each of them among everybody else's steps: data is only ever
        given up after a named safety snapshot of that data; if the unit does not start on its
        own, the service is stopped at that time and the snapshot is identical. */
    method Serve()
      requires Valid()
      modifies this
      ensures Valid() && old(w.log) <= w.log && Disciplined(w.log, w.selfStart)
    {
      var operations: nat := *;
      while operations > 0
        invariant Valid() && old(w.log) <= w.log
      {
        operations := operations - 1;
        var choice: nat, me: Actor, a: string, b: string, c: string, d: bool, size: nat, free: nat := *, *, *, *, *, *, *, *;
        if me in w.phases {
        } else if choice == 0 {
          ghost var aside, stopped;
          var report;
          report, aside, stopped := RestoreSnapshot(me, a, b, c, d, Space(size, free));
        } else if choice == 1 {
          ghost var stopped;
          var report;
          report, stopped := UpdateServer(me, a, b, c);
        } else if choice == 2 {
          var ok := HandleAction(me, a);
        } else {
          var ok, state := WakeStart(me);
        }
      }
    }
  }
}
