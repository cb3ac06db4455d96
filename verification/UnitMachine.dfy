/** One service unit of a node and everybody who works on it (operation_lock.go, restore.go,
    update.go, http_api.go and gateway.go below cmd/hogs-agent).

    `World` holds the operation lock, the service, the directories beside the data directory and
    the safety snapshots.  Every operation is an actor that walks through phases; one `Action` is
    one call of one actor, or something the game or systemd does, so a run of actions is an
    arbitrary interleaving of restores, updates, manual actions and wakes.  An action depends on
    its actor's own phase only; just taking the lock waits until the lock is free. */
module UnitMachine {
  import opened Wrappers

  type Actor = nat

  /** A directory tree: where its content comes from, how often it was written to since, and
      whether it holds anything. */
  datatype Tree = Tree(lineage: nat, edits: nat, empty: bool)

  /** The data directory, directories with generated names beside it, and the copy of the data
      directory inside a staging directory. */
  datatype Place = Live | Temp(n: nat) | Inside(n: nat)

  type Disk = map<Place, Tree>

  /** One attempt to give up the current data: `saved` is what the named snapshot holds,
      `replaced` what is being given up. */
  datatype Replacement = Replacement(running: bool, safety: string, saved: Option<Tree>, replaced: Option<Tree>)

  /** How far an operation has come. */
  datatype Phase =
    | Waiting                         // wants the lock
    | Locked                          // has the lock
    | Quiet                           // has seen the service stopped, and not started it since
    | Saved(id: string)               // has a named snapshot taken since then
    | Moved(id: string, aside: Place) // has moved the data aside
    | Finished                        // has given the lock back

  datatype World = World(
    selfStart: bool,                  // systemd may start the unit on its own
    holder: Option<Actor>,
    running: bool,
    disk: Disk,
    nextLineage: nat,
    snapshotOf: map<nat, string>,     // which trees were restored from which snapshot
    backups: map<string, Tree>,       // what the safety snapshots hold
    log: seq<Replacement>,
    phases: map<Actor, Phase>)

  datatype Action =
    | Arrive(actor: Actor)
    | Lock(actor: Actor)
    | Unlock(actor: Actor)
    | Leave(actor: Actor)
    | Look(actor: Actor)
    | Stop(actor: Actor, dies: bool)
    | Start(actor: Actor, comes: bool)
    | Backup(actor: Actor, id: string)
    | MakeDir(actor: Actor, n: nat)
    | Drop(actor: Actor, place: Place)
    | Damage(actor: Actor, place: Place)    // a removal that only got half way
    | Stage(actor: Actor, n: nat, snapshot: Option<string>, empty: bool)
    | MoveAside(actor: Actor, aside: Place, ok: bool)
    | Activate(actor: Actor, staged: Place, ok: bool)
    | Rename(actor: Actor, source: Place, target: Place)
    | UpdateUnit(actor: Actor)
    | Dies
    | SelfStarts
    | Plays(empty: bool)

  predicate IsInside(phase: Phase) {
    !phase.Waiting? && !phase.Finished?
  }

  predicate In(w: World, a: Actor) {
    a in w.phases && IsInside(w.phases[a])
  }

  /** os.Rename never replaces a directory that holds something. */
  predicate CanRename(disk: Disk, source: Place, target: Place) {
    source != target && source in disk && (target in disk ==> disk[target].empty)
  }

  predicate Enabled(w: World, a: Action) {
    match a
    case Arrive(x) => x !in w.phases
    case Lock(x) => x in w.phases && w.phases[x].Waiting? && w.holder.None?
    case Unlock(x) => In(w, x)
    case Leave(x) => x in w.phases && w.phases[x].Finished?
    case Look(x) => In(w, x)
    case Stop(x, _) => In(w, x)
    case Start(x, _) => In(w, x)
    case Backup(x, _) => In(w, x) && Live in w.disk
    case MakeDir(x, n) => In(w, x) && Temp(n) !in w.disk && Inside(n) !in w.disk
    case Drop(x, p) => In(w, x) && p != Live
    case Damage(x, p) => In(w, x) && p != Live && p in w.disk
    case Stage(x, n, _, _) => In(w, x) && Inside(n) !in w.disk
    case MoveAside(x, aside, ok) =>
      In(w, x) && w.phases[x].Saved? && aside.Temp? && aside !in w.disk && (ok ==> Live in w.disk)
    case Activate(x, staged, ok) =>
      In(w, x) && w.phases[x].Moved? && staged != w.phases[x].aside && (ok ==> CanRename(w.disk, staged, Live))
    case Rename(x, source, target) => In(w, x) && CanRename(w.disk, source, target)
    case UpdateUnit(x) => In(w, x) && w.phases[x].Saved?
    case Dies => true
    case SelfStarts => w.selfStart
    case Plays(_) => w.running
  }

  function Get<K, V>(m: map<K, V>, k: K): Option<V> {
    if k in m then Some(m[k]) else None
  }

  function Enter(w: World, a: Actor, phase: Phase): World {
    w.(phases := w.phases[a := phase])
  }

  function Moving(disk: Disk, source: Place, target: Place): Disk
    requires source in disk
  {
    disk[target := disk[source]] - {source}
  }

  function Attempt(w: World, id: string, replaced: Place): World {
    w.(log := w.log + [Replacement(w.running, id, Get(w.backups, id), Get(w.disk, replaced))])
  }

  /** The game writes to its data directory, or creates it. */
  function Written(w: World, empty: bool): World {
    if Live in w.disk then
      w.(disk := w.disk[Live := w.disk[Live].(edits := w.disk[Live].edits + 1, empty := empty)])
    else
      w.(disk := w.disk[Live := Tree(w.nextLineage, 0, empty)], nextLineage := w.nextLineage + 1)
  }

  predicate Locking(a: Action) {
    a.Arrive? || a.Lock? || a.Unlock? || a.Leave?
  }

  predicate Replacing(a: Action) {
    a.MoveAside? || a.Activate? || a.UpdateUnit?
  }

  predicate Filing(a: Action) {
    a.Backup? || a.MakeDir? || a.Drop? || a.Damage? || a.Stage? || a.Rename?
  }

  function LockingNext(w: World, a: Action): World
    requires Enabled(w, a) && Locking(a)
  {
    match a
    case Arrive(x) => Enter(w, x, Waiting)
    case Lock(x) => Enter(w, x, Locked).(holder := Some(x))
    case Unlock(x) => Enter(w, x, Finished).(holder := None)
    case Leave(x) => w.(phases := w.phases - {x})
  }

  function ServiceNext(w: World, a: Action): World
    requires Enabled(w, a) && !Locking(a) && !Replacing(a) && !Filing(a)
  {
    match a
    case Look(x) => if w.phases[x].Locked? && !w.running then Enter(w, x, Quiet) else w
    case Stop(_, dies) => w.(running := w.running && !dies)
    case Start(x, comes) => Enter(w, x, Locked).(running := w.running || comes)
    case Dies => w.(running := false)
    case SelfStarts => w.(running := true)
    case Plays(empty) => Written(w, empty)
  }

  /** A call that is not the next one of an exchange ends it. */
  function Aborted(w: World, a: Actor): World
    requires a in w.phases
  {
    if w.phases[a].Moved? then Enter(w, a, Locked) else w
  }

  function FilingNext(w: World, a: Action): World
    requires Enabled(w, a) && Filing(a)
  {
    match a
    case Backup(x, id) =>
      var w' := Aborted(w.(backups := w.backups[id := w.disk[Live]]), x);
      if w'.phases[x].Locked? then w' else Enter(w', x, if id != "" then Saved(id) else Quiet)
    case MakeDir(_, n) =>
      w.(disk := w.disk[Temp(n) := Tree(w.nextLineage, 0, true)], nextLineage := w.nextLineage + 1)
    case Drop(x, p) => Aborted(w.(disk := w.disk - {p}), x)
    case Damage(x, p) => Aborted(w.(disk := w.disk[p := w.disk[p].(edits := w.disk[p].edits + 1)]), x)
    case Stage(_, n, snapshot, empty) =>
      w.(disk := w.disk[Inside(n) := Tree(w.nextLineage, 0, empty)],
         snapshotOf := if snapshot.Some? then w.snapshotOf[w.nextLineage := snapshot.value] else w.snapshotOf,
         nextLineage := w.nextLineage + 1)
    case Rename(x, source, target) => Enter(w, x, Locked).(disk := Moving(w.disk, source, target))
  }

  function ReplacingNext(w: World, a: Action): World
    requires Enabled(w, a) && Replacing(a)
  {
    match a
    case MoveAside(x, aside, ok) =>
      var id := w.phases[x].id;
      var w' := Attempt(w, id, Live);
      if ok then Enter(w', x, Moved(id, aside)).(disk := Moving(w.disk, Live, aside)) else w'
    case Activate(x, staged, ok) =>
      var w' := Enter(Attempt(w, w.phases[x].id, w.phases[x].aside), x, Locked);
      if ok then w'.(disk := Moving(w.disk, staged, Live)) else w'
    case UpdateUnit(x) => Written(Enter(Attempt(w, w.phases[x].id, Live), x, Locked), false)
  }

  function Next(w: World, a: Action): World
    requires Enabled(w, a)
  {
    if Locking(a) then LockingNext(w, a)
    else if Replacing(a) then ReplacingNext(w, a)
    else if Filing(a) then FilingNext(w, a)
    else ServiceNext(w, a)
  }

  ghost predicate Possible(w: World, acts: seq<Action>)
    decreases |acts|
  {
    acts == [] || (Enabled(w, acts[0]) && Possible(Next(w, acts[0]), acts[1..]))
  }

  ghost function Run(w: World, acts: seq<Action>): World
    requires Possible(w, acts)
    decreases |acts|
  {
    if acts == [] then w else Run(Next(w, acts[0]), acts[1..])
  }

  lemma {:induction false} AppendToRun(w: World, acts: seq<Action>, a: Action)
    requires Possible(w, acts) && Enabled(Run(w, acts), a)
    ensures Possible(w, acts + [a]) && Run(w, acts + [a]) == Next(Run(w, acts), a)
    decreases |acts|
  {
    hide Next, Enabled;
    if acts == [] {
      assert acts + [a] == [a] && [a][1..] == [];
      assert Possible(Next(w, a), []);
    } else {
      AppendToRun(Next(w, acts[0]), acts[1..], a);
      assert (acts + [a])[1..] == acts[1..] + [a];
    }
  }

  /** Nobody is at work, and the data directory exists. */
  predicate Initial(w: World) {
    && w.holder.None? && w.phases == map[] && w.log == [] && w.snapshotOf == map[]
    && Live in w.disk && forall p :: p in w.disk ==> w.disk[p].lineage < w.nextLineage
  }

  // ---------------------------------------------------------------- the invariant

  /** Exactly the holder of the lock is between taking it and giving it back. */
  ghost predicate Exclusive(w: World) {
    && (forall a: Actor :: In(w, a) <==> w.holder == Some(a))
  }

  predicate Known(disk: Disk, next: nat) {
    forall p :: p in disk ==> disk[p].lineage < next
  }

  /** The snapshot `id` was taken of this tree; it is the same tree if nobody could write. */
  predicate Covers(w: World, id: string, p: Place) {
    && id != "" && id in w.backups && p in w.disk
    && w.backups[id].lineage == w.disk[p].lineage
    && (!w.selfStart ==> !w.running && w.backups[id] == w.disk[p])
  }

  predicate PhaseOK(w: World, phase: Phase) {
    match phase
    case Quiet => !w.selfStart ==> !w.running
    case Saved(id) => Covers(w, id, Live)
    case Moved(id, aside) => aside.Temp? && Covers(w, id, aside)
    case _ => true
  }

  /** Data is only ever given up after a named snapshot of it; if the unit does not start on its
      own, the service is stopped then and the snapshot is identical. */
  predicate Disciplined(log: seq<Replacement>, selfStart: bool) {
    forall e :: e in log ==>
      && e.safety != "" && e.saved.Some? && e.replaced.Some?
      && e.saved.value.lineage == e.replaced.value.lineage
      && (!selfStart ==> !e.running && e.saved == e.replaced)
  }

  ghost predicate Inv(w: World) {
    && Exclusive(w)
    && (w.holder.Some? ==> PhaseOK(w, w.phases[w.holder.value]))
    && Known(w.disk, w.nextLineage) && (forall l :: l in w.snapshotOf ==> l < w.nextLineage)
    && Disciplined(w.log, w.selfStart)
  }

  lemma AttemptDisciplined(w: World, id: string, p: Place)
    requires Disciplined(w.log, w.selfStart) && Covers(w, id, p)
    ensures Disciplined(Attempt(w, id, p).log, w.selfStart)
  {}

  lemma LockingKeepsInv(w: World, a: Action)
    requires Inv(w) && Enabled(w, a) && Locking(a)
    ensures Inv(Next(w, a))
  {
    hide Known, Disciplined;
  }

  lemma ServiceKeepsInv(w: World, a: Action)
    requires Inv(w) && Enabled(w, a) && (a.Look? || a.Stop? || a.Start?)
    ensures Inv(Next(w, a))
  {
    hide Disciplined, Known;
  }

  lemma GameKeepsInv(w: World, a: Action)
    requires Inv(w) && Enabled(w, a) && (a.Dies? || a.SelfStarts? || a.Plays?)
    ensures Inv(Next(w, a))
  {
    hide Disciplined;
  }

  lemma BackupKeepsInv(w: World, a: Action)
    requires Inv(w) && Enabled(w, a) && a.Backup?
    ensures Inv(Next(w, a))
  {
    hide Disciplined, Known;
  }

  lemma NewDirectoryKeepsInv(w: World, a: Action)
    requires Inv(w) && Enabled(w, a) && (a.MakeDir? || a.Stage?)
    ensures Inv(Next(w, a))
  {
    hide Disciplined;
  }

  lemma DropKeepsInv(w: World, a: Action)
    requires Inv(w) && Enabled(w, a) && a.Drop?
    ensures Inv(Next(w, a))
  {
    hide Disciplined;
  }

  lemma DamageKeepsInv(w: World, a: Action)
    requires Inv(w) && Enabled(w, a) && a.Damage?
    ensures Inv(Next(w, a))
  {
    hide Disciplined;
  }

  lemma RenameKeepsInv(w: World, a: Action)
    requires Inv(w) && Enabled(w, a) && a.Rename?
    ensures Inv(Next(w, a))
  {
    hide Disciplined;
  }

  lemma ReplacingKeepsInv(w: World, a: Action)
    requires Inv(w) && Enabled(w, a) && Replacing(a)
    ensures Inv(Next(w, a))
  {
    hide Disciplined;
    match a
    case MoveAside(x, _, _) => AttemptDisciplined(w, w.phases[x].id, Live);
    case Activate(x, _, _) => AttemptDisciplined(w, w.phases[x].id, w.phases[x].aside);
    case UpdateUnit(x) => AttemptDisciplined(w, w.phases[x].id, Live);
  }

  lemma StepKeepsInv(w: World, a: Action)
    requires Inv(w) && Enabled(w, a)
    ensures Inv(Next(w, a))
  {
    hide Inv, Enabled, Next;
    if Locking(a) {
      LockingKeepsInv(w, a);
    } else if Replacing(a) {
      ReplacingKeepsInv(w, a);
    } else if a.Backup? {
      BackupKeepsInv(w, a);
    } else if a.MakeDir? || a.Stage? {
      NewDirectoryKeepsInv(w, a);
    } else if a.Drop? {
      DropKeepsInv(w, a);
    } else if a.Damage? {
      DamageKeepsInv(w, a);
    } else if a.Rename? {
      RenameKeepsInv(w, a);
    } else if a.Look? || a.Stop? || a.Start? {
      ServiceKeepsInv(w, a);
    } else {
      GameKeepsInv(w, a);
    }
  }

  lemma {:induction false} RunKeepsInv(w: World, acts: seq<Action>)
    requires Inv(w) && Possible(w, acts)
    ensures Inv(Run(w, acts))
    decreases |acts|
  {
    hide Inv, Enabled, Next;
    if acts != [] {
      StepKeepsInv(w, acts[0]);
      RunKeepsInv(Next(w, acts[0]), acts[1..]);
    }
  }

  // ---------------------------------------------------------------- what every interleaving keeps

  /** At most one operation is between taking the lock and giving it back. */
  lemma AtMostOneInside(first: World, acts: seq<Action>, a: Actor, b: Actor)
    requires Initial(first) && Possible(first, acts) && In(Run(first, acts), a) && In(Run(first, acts), b)
    ensures a == b
  {
    RunKeepsInv(first, acts);
  }

  /** An operation that is done, or has not got the lock yet, does not hold it; and whoever holds
      it is still at work and can give it back. */
  lemma LockIsReleased(first: World, acts: seq<Action>, a: Actor)
    requires Initial(first) && Possible(first, acts)
    ensures var w := Run(first, acts);
            && (a in w.phases && !IsInside(w.phases[a]) ==> w.holder != Some(a))
            && (w.holder == Some(a) ==> Enabled(w, Unlock(a)) && Next(w, Unlock(a)).holder.None?)
  {
    RunKeepsInv(first, acts);
  }

  /** In every interleaving of restores, updates, actions and wakes, the data exchange and the
      update unit come after a named snapshot of the data, with the service stopped. */
  lemma SnapshotBeforeReplacement(first: World, acts: seq<Action>)
    requires Initial(first) && Possible(first, acts)
    ensures Disciplined(Run(first, acts).log, Run(first, acts).selfStart)
  {
    RunKeepsInv(first, acts);
  }

  // ---------------------------------------------------------------- what others can do meanwhile

  /** What a game that runs, or stops, does to the directories. */
  predicate Drift(before: Disk, after: Disk, next: nat) {
    after == before ||
    (Live in after && after == before[Live := after[Live]]
     && if Live in before then after[Live].lineage == before[Live].lineage else after[Live].lineage >= next)
  }

  predicate Frozen(w: World, w': World) {
    !w.selfStart && !w.running ==> !w'.running && w'.disk == w.disk
  }

  /** What the holder of the lock finds when it looks again later. */
  predicate Passed(w: World, w': World) {
    && w'.selfStart == w.selfStart && w'.holder == w.holder && w'.log == w.log
    && w'.backups == w.backups && w'.snapshotOf == w.snapshotOf
    && w.nextLineage <= w'.nextLineage && Drift(w.disk, w'.disk, w.nextLineage)
  }

  lemma PassedTwice(w: World, w': World, w'': World)
    requires Passed(w, w') && Passed(w', w'')
    ensures Passed(w, w'')
    ensures Frozen(w, w') && Frozen(w', w'') ==> Frozen(w, w'')
  {
    if w'.disk != w.disk && w''.disk != w'.disk {
      assert w''.disk == w.disk[Live := w''.disk[Live]];
    }
  }

  predicate BelongsTo(a: Action, me: Actor) {
    !a.Dies? && !a.SelfStarts? && !a.Plays? && a.actor == me
  }

  /** While one operation holds the lock, whatever anybody else does leaves everything but the
      running game's own data as it is. */
  lemma OthersLeaveAlone(w: World, a: Action, me: Actor)
    requires Inv(w) && w.holder == Some(me) && Enabled(w, a) && !BelongsTo(a, me)
    ensures Passed(w, Next(w, a)) && Frozen(w, Next(w, a))
    ensures me in Next(w, a).phases && Next(w, a).phases[me] == w.phases[me]
  {
    hide Known, Disciplined, PhaseOK;
    assert forall x: Actor :: In(w, x) ==> x == me;
  }

  /** Nobody but the actor itself changes its phase; its own calls keep it inside until it gives
      the lock back. */
  predicate PhaseKept(w: World, w': World, a: Action, me: Actor) {
    && (!BelongsTo(a, me) && me in w.phases ==> me in w'.phases && w'.phases[me] == w.phases[me])
    && (BelongsTo(a, me) && !Locking(a) ==> In(w', me) && w'.holder == w.holder && w.nextLineage <= w'.nextLineage)
  }

  lemma LockingKeepsTheRest(w: World, a: Action, me: Actor)
    requires Enabled(w, a) && Locking(a)
    ensures var w' := Next(w, a); w'.log == w.log && w'.selfStart == w.selfStart && PhaseKept(w, w', a, me)
  {}

  lemma ServiceKeepsTheRest(w: World, a: Action, me: Actor)
    requires Enabled(w, a) && !Locking(a) && !Replacing(a) && !Filing(a)
    ensures var w' := Next(w, a); w'.log == w.log && w'.selfStart == w.selfStart && PhaseKept(w, w', a, me)
  {}

  lemma BackupKeepsTheRest(w: World, a: Action, me: Actor)
    requires Enabled(w, a) && a.Backup?
    ensures var w' := Next(w, a); w'.log == w.log && w'.selfStart == w.selfStart && PhaseKept(w, w', a, me)
  {}

  lemma FilingKeepsTheRest(w: World, a: Action, me: Actor)
    requires Enabled(w, a) && Filing(a) && !a.Backup?
    ensures var w' := Next(w, a); w'.log == w.log && w'.selfStart == w.selfStart && PhaseKept(w, w', a, me)
  {
    hide Moving, CanRename;
  }

  lemma WrittenKeepsTheRest(w: World, empty: bool)
    ensures var w' := Written(w, empty); w'.log == w.log && w'.selfStart == w.selfStart && w'.phases == w.phases
    ensures Written(w, empty).holder == w.holder && w.nextLineage <= Written(w, empty).nextLineage
  {}

  lemma MoveAsideKeepsTheRest(w: World, a: Action, me: Actor)
    requires Enabled(w, a) && a.MoveAside?
    ensures var w' := Next(w, a); w.log <= w'.log && w'.selfStart == w.selfStart && PhaseKept(w, w', a, me)
  {
    hide Moving, Get, CanRename;
  }

  lemma ActivateKeepsTheRest(w: World, a: Action, me: Actor)
    requires Enabled(w, a) && a.Activate?
    ensures var w' := Next(w, a); w.log <= w'.log && w'.selfStart == w.selfStart && PhaseKept(w, w', a, me)
  {
    hide Moving, Get, CanRename;
  }

  lemma UpdateKeepsTheRest(w: World, a: Action, me: Actor)
    requires Enabled(w, a) && a.UpdateUnit?
    ensures var w' := Next(w, a); w.log <= w'.log && w'.selfStart == w.selfStart && PhaseKept(w, w', a, me)
  {
    WrittenKeepsTheRest(Enter(Attempt(w, w.phases[a.actor].id, Live), a.actor, Locked), false);
    hide Get, Written;
  }

  lemma StepKeepsTheRest(w: World, a: Action, me: Actor)
    requires Enabled(w, a)
    ensures var w' := Next(w, a); w.log <= w'.log && w'.selfStart == w.selfStart && PhaseKept(w, w', a, me)
  {
    hide Enabled, Next;
    if Locking(a) {
      LockingKeepsTheRest(w, a, me);
    } else if a.UpdateUnit? {
      UpdateKeepsTheRest(w, a, me);
    } else if a.MoveAside? {
      MoveAsideKeepsTheRest(w, a, me);
    } else if a.Activate? {
      ActivateKeepsTheRest(w, a, me);
    } else if a.Backup? {
      BackupKeepsTheRest(w, a, me);
    } else if Filing(a) {
      FilingKeepsTheRest(w, a, me);
    } else {
      ServiceKeepsTheRest(w, a, me);
    }
  }

  ghost predicate Reachable(w: World) {
    exists first, acts :: Initial(first) && Possible(first, acts) && Run(first, acts) == w
  }

  lemma ReachableInv(w: World)
    requires Reachable(w)
    ensures Inv(w)
  {
    var first, acts :| Initial(first) && Possible(first, acts) && Run(first, acts) == w;
    RunKeepsInv(first, acts);
  }

  lemma ReachableStep(w: World, a: Action)
    requires Reachable(w) && Enabled(w, a)
    ensures Reachable(Next(w, a))
  {
    hide Next, Enabled;
    var first, acts :| Initial(first) && Possible(first, acts) && Run(first, acts) == w;
    AppendToRun(first, acts, a);
  }

  lemma CanArrive(w: World, me: Actor)
    requires me !in w.phases
    ensures Enabled(w, Arrive(me))
    ensures var w' := Next(w, Arrive(me)); me in w'.phases && w'.phases[me].Waiting? && w'.log == w.log && w'.selfStart == w.selfStart
  {}

  /** Whoever has the lock can give it back, and somebody who waits can then take it. */
  lemma HolderCanUnlock(w: World, me: Actor)
    requires Inv(w) && w.holder.Some? && me in w.phases && w.phases[me].Waiting?
    ensures Enabled(w, Unlock(w.holder.value)) && !BelongsTo(Unlock(w.holder.value), me)
    ensures Next(w, Unlock(w.holder.value)).holder.None?
  {
    assert In(w, w.holder.value);
  }

  lemma WaiterCanLock(w: World, me: Actor)
    requires w.holder.None? && me in w.phases && w.phases[me].Waiting?
    ensures Enabled(w, Lock(me))
    ensures var w' := Next(w, Lock(me));
            && w'.holder == Some(me) && In(w', me) && w'.phases[me].Locked? && w'.log == w.log
            && w'.selfStart == w.selfStart
  {}

  lemma StagedCopy(w: World, me: Actor, n: nat, snapshot: Option<string>, empty: bool)
    requires In(w, me) && Inside(n) !in w.disk
    ensures Enabled(w, Stage(me, n, snapshot, empty))
    ensures Next(w, Stage(me, n, snapshot, empty)) ==
            w.(disk := w.disk[Inside(n) := Tree(w.nextLineage, 0, empty)],
               snapshotOf := if snapshot.Some? then w.snapshotOf[w.nextLineage := snapshot.value] else w.snapshotOf,
               nextLineage := w.nextLineage + 1)
  {}
}
