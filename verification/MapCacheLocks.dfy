/** The per-key locks of the map cache under any interleaving of requests
    (api/map_cache.go, serveCachedMap in api/server_handler.go).

    A lock object is created when a key is first wanted and dropped from the table when its
    last user is done, so the same key is guarded by different objects over time.  Each action
    is one critical section of the table's mutex or one step of a request. */
module MapCacheLocks {
  import opened Wrappers

  type Key = string
  type RequestId = nat
  type LockId = nat

  datatype Lock = Lock(holder: Option<RequestId>, refs: int)

  datatype Phase =
    | Waiting    // counted, about to lock the mutex
    | Holding    // has the mutex, has not looked into the cache yet
    | Fetching   // asks the origin
    | Served     // done, still has the mutex
    | Releasing  // gave the mutex back, not uncounted yet

  datatype Request = Request(key: Key, lock: LockId, phase: Phase)

  datatype State = State(
    table: map<Key, LockId>,
    locks: map<LockId, Lock>,       // every lock object ever created
    requests: map<RequestId, Request>,
    freshKeys: set<Key>)                // keys with a fresh cache entry

  datatype Action =
    | Enter(r: RequestId, key: Key, newLock: LockId)
    | Take(r: RequestId)
    | Fetch(r: RequestId)
    | Serve(r: RequestId, stored: bool)
    | Unlock(r: RequestId)
    | Leave(r: RequestId)
    | Expire(key: Key)

  const INITIAL := State(map[], map[], map[], {})

  predicate In(s: State, r: RequestId, phase: Phase) {
    r in s.requests && s.requests[r].phase == phase
  }

  predicate Known(s: State, r: RequestId) {
    r in s.requests && s.requests[r].lock in s.locks
  }

  predicate Enabled(s: State, a: Action) {
    match a
    case Enter(r, key, newLock) =>
      r !in s.requests && newLock !in s.locks && (key in s.table ==> s.table[key] in s.locks)
    case Take(r) => Known(s, r) && In(s, r, Waiting) && s.locks[s.requests[r].lock].holder.None?
    // the cache is looked up again under the lock
    case Fetch(r) => In(s, r, Holding) && s.requests[r].key !in s.freshKeys
    case Serve(r, stored) => In(s, r, Fetching) || (In(s, r, Holding) && s.requests[r].key in s.freshKeys && !stored)
    case Unlock(r) => Known(s, r) && In(s, r, Served)
    case Leave(r) => Known(s, r) && In(s, r, Releasing)
    case Expire(_) => true
  }

  function Move(s: State, r: RequestId, phase: Phase): State
    requires r in s.requests
  {
    s.(requests := s.requests[r := s.requests[r].(phase := phase)])
  }

  function SetHolder(s: State, l: LockId, holder: Option<RequestId>): State
    requires l in s.locks
  {
    s.(locks := s.locks[l := s.locks[l].(holder := holder)])
  }

  function EnterStep(s: State, r: RequestId, key: Key, newLock: LockId): State
    requires key in s.table ==> s.table[key] in s.locks
  {
    var l := if key in s.table then s.table[key] else newLock;
    var lock := if key in s.table then s.locks[l] else Lock(None, 0);
    s.(table := s.table[key := l],
       locks := s.locks[l := lock.(refs := lock.refs + 1)],
       requests := s.requests[r := Request(key, l, Waiting)])
  }

  function LeaveStep(s: State, r: RequestId): State
    requires Known(s, r)
  {
    var q := s.requests[r];
    var refs := s.locks[q.lock].refs - 1;
    s.(table := if refs == 0 then s.table - {q.key} else s.table,
       locks := s.locks[q.lock := s.locks[q.lock].(refs := refs)],
       requests := s.requests - {r})
  }

  function Next(s: State, a: Action): State
    requires Enabled(s, a)
  {
    match a
    case Enter(r, key, newLock) => EnterStep(s, r, key, newLock)
    case Take(r) => SetHolder(Move(s, r, Holding), s.requests[r].lock, Some(r))
    case Fetch(r) => Move(s, r, Fetching)
    case Serve(r, stored) =>
      Move(s, r, Served).(freshKeys := if stored then s.freshKeys + {s.requests[r].key} else s.freshKeys)
    case Unlock(r) => SetHolder(Move(s, r, Releasing), s.requests[r].lock, None)
    case Leave(r) => LeaveStep(s, r)
    case Expire(key) => s.(freshKeys := s.freshKeys - {key})
  }

  predicate Possible(s: State, acts: seq<Action>)
    decreases |acts|
  {
    acts == [] || (Enabled(s, acts[0]) && Possible(Next(s, acts[0]), acts[1..]))
  }

  function Run(s: State, acts: seq<Action>): State
    requires Possible(s, acts)
    decreases |acts|
  {
    if acts == [] then s else Run(Next(s, acts[0]), acts[1..])
  }

  // ---------------------------------------------------------------- the invariant

  predicate Holds(phase: Phase) {
    phase == Holding || phase == Fetching || phase == Served
  }

  /** Holders, waiters, and releasers that are not uncounted yet. */
  function Users(requests: map<RequestId, Request>, l: LockId): set<RequestId> {
    set r | r in requests && requests[r].lock == l
  }

  ghost predicate TableOK(s: State) {
    && (forall r :: r in s.requests ==> s.requests[r].key in s.table && s.table[s.requests[r].key] == s.requests[r].lock)
    && (forall k :: k in s.table ==> s.table[k] in s.locks && s.locks[s.table[k]].refs > 0)
    && (forall k, k' :: k in s.table && k' in s.table && s.table[k] == s.table[k'] ==> k == k')
  }

  ghost predicate RefsOK(s: State) {
    forall l :: l in s.locks ==> s.locks[l].refs == |Users(s.requests, l)|
  }

  ghost predicate HoldersOK(s: State) {
    && (forall r :: r in s.requests && Holds(s.requests[r].phase) ==>
          s.requests[r].lock in s.locks && s.locks[s.requests[r].lock].holder == Some(r))
    && (forall l :: l in s.locks && s.locks[l].holder.Some? ==>
          var r := s.locks[l].holder.value;
          r in s.requests && s.requests[r].lock == l && Holds(s.requests[r].phase))
  }

  ghost predicate Inv(s: State) {
    TableOK(s) && RefsOK(s) && HoldersOK(s)
  }

  lemma UsersWith(requests: map<RequestId, Request>, r: RequestId, q: Request, l: LockId)
    requires r !in requests
    ensures |Users(requests[r := q], l)| == |Users(requests, l)| + if q.lock == l then 1 else 0
  {
    assert Users(requests[r := q], l) == Users(requests, l) + if q.lock == l then {r} else {};
  }

  lemma UsersWithout(requests: map<RequestId, Request>, r: RequestId, l: LockId)
    requires r in requests
    ensures |Users(requests - {r}, l)| == |Users(requests, l)| - if requests[r].lock == l then 1 else 0
  {
    assert Users(requests - {r}, l) == Users(requests, l) - if requests[r].lock == l then {r} else {};
  }

  lemma UsersMoved(s: State, r: RequestId, phase: Phase)
    requires r in s.requests
    ensures forall l :: Users(Move(s, r, phase).requests, l) == Users(s.requests, l)
  {}

  lemma NoUsers(s: State, l: LockId)
    requires TableOK(s) && l !in s.locks
    ensures Users(s.requests, l) == {}
  {}

  lemma EnterKeepsRefs(s: State, r: RequestId, key: Key, newLock: LockId)
    requires TableOK(s) && RefsOK(s) && Enabled(s, Enter(r, key, newLock))
    ensures RefsOK(EnterStep(s, r, key, newLock))
  {
    NoUsers(s, newLock);
    hide Users, TableOK;
    var s' := EnterStep(s, r, key, newLock);
    forall l | l in s'.locks ensures s'.locks[l].refs == |Users(s'.requests, l)| {
      UsersWith(s.requests, r, Request(key, s'.table[key], Waiting), l);
    }
  }

  lemma LeaveKeepsRefs(s: State, r: RequestId)
    requires RefsOK(s) && Enabled(s, Leave(r))
    ensures RefsOK(LeaveStep(s, r))
  {
    hide Users;
    var s' := LeaveStep(s, r);
    forall l | l in s'.locks ensures s'.locks[l].refs == |Users(s'.requests, l)| {
      UsersWithout(s.requests, r, l);
    }
  }

  lemma EnterKeepsTable(s: State, r: RequestId, key: Key, newLock: LockId)
    requires TableOK(s) && Enabled(s, Enter(r, key, newLock))
    requires forall l :: l in s.locks ==> s.locks[l].refs >= 0
    ensures TableOK(EnterStep(s, r, key, newLock))
  {}

  /** The entry is dropped only when nobody refers to it any more. */
  lemma LeaveKeepsTable(s: State, r: RequestId)
    requires TableOK(s) && RefsOK(s) && Enabled(s, Leave(r))
    ensures TableOK(LeaveStep(s, r))
  {
    var s', l := LeaveStep(s, r), s.requests[r].lock;
    LeaveKeepsRefs(s, r);
    forall q | q in s'.requests && s'.requests[q].lock == l ensures s'.locks[l].refs != 0 {
      assert q in Users(s'.requests, l);
    }
  }

  /** A lock that is dropped or made anew has no holder, so holders are not disturbed. */
  lemma EnterAndLeaveKeepHolders(s: State, a: Action)
    requires TableOK(s) && HoldersOK(s) && Enabled(s, a) && (a.Enter? || a.Leave?)
    ensures HoldersOK(Next(s, a))
  {}

  lemma LockStepKeepsHolders(s: State, a: Action)
    requires TableOK(s) && HoldersOK(s) && Enabled(s, a) && !a.Enter? && !a.Leave?
    ensures HoldersOK(Next(s, a))
  {}

  lemma LockStepKeepsTable(s: State, a: Action)
    requires TableOK(s) && Enabled(s, a) && !a.Enter? && !a.Leave?
    ensures TableOK(Next(s, a))
  {}

  lemma LockStepKeepsRefs(s: State, a: Action)
    requires RefsOK(s) && Enabled(s, a) && !a.Enter? && !a.Leave?
    ensures RefsOK(Next(s, a))
  {
    hide Users;
    match a
    case Take(r) => UsersMoved(s, r, Holding);
    case Fetch(r) => UsersMoved(s, r, Fetching);
    case Serve(r, _) => UsersMoved(s, r, Served);
    case Unlock(r) => UsersMoved(s, r, Releasing);
    case Expire(_) =>
  }

  lemma StepKeepsInv(s: State, a: Action)
    requires Inv(s) && Enabled(s, a)
    ensures Inv(Next(s, a))
  {
    assert forall l :: l in s.locks ==> s.locks[l].refs >= 0;
    hide Users, TableOK, RefsOK, HoldersOK;
    match a
    case Enter(r, key, newLock) =>
      EnterKeepsTable(s, r, key, newLock);
      EnterKeepsRefs(s, r, key, newLock);
      EnterAndLeaveKeepHolders(s, a);
    case Leave(r) =>
      LeaveKeepsTable(s, r);
      LeaveKeepsRefs(s, r);
      EnterAndLeaveKeepHolders(s, a);
    case _ =>
      LockStepKeepsTable(s, a);
      LockStepKeepsRefs(s, a);
      LockStepKeepsHolders(s, a);
  }

  lemma {:induction false} RunKeepsInv(s: State, acts: seq<Action>)
    requires Inv(s) && Possible(s, acts)
    ensures Inv(Run(s, acts))
    decreases |acts|
  {
    if acts != [] {
      StepKeepsInv(s, acts[0]);
      RunKeepsInv(Next(s, acts[0]), acts[1..]);
    }
  }

  // ---------------------------------------------------------------- what every run guarantees

  /** At most one request holds a key, so at most one fetches it from the origin. */
  lemma OneHolderPerKey(acts: seq<Action>, r: RequestId, r': RequestId)
    requires Possible(INITIAL, acts)
    requires var s := Run(INITIAL, acts);
             r in s.requests && r' in s.requests && s.requests[r].key == s.requests[r'].key
             && Holds(s.requests[r].phase) && Holds(s.requests[r'].phase)
    ensures r == r'
  {
    RunKeepsInv(INITIAL, acts);
  }

  /** The count of a lock is its users, and an idle cache has an empty table. */
  lemma CountsAndCleanup(acts: seq<Action>)
    requires Possible(INITIAL, acts)
    ensures var s := Run(INITIAL, acts);
            && (forall k :: k in s.table ==> s.table[k] in s.locks)
            && (forall k :: k in s.table ==> s.locks[s.table[k]].refs == |set r | r in s.requests && s.requests[r].key == k|)
            && (forall k :: k in s.table <==> exists r :: r in s.requests && s.requests[r].key == k)
            && (s.requests == map[] ==> s.table == map[])
  {
    RunKeepsInv(INITIAL, acts);
    var s := Run(INITIAL, acts);
    forall k | k in s.table
      ensures s.locks[s.table[k]].refs == |set r | r in s.requests && s.requests[r].key == k|
      ensures exists r :: r in s.requests && s.requests[r].key == k
    {
      var users := Users(s.requests, s.table[k]);
      assert users == set r | r in s.requests && s.requests[r].key == k;
      assert users != {};
      var r :| r in users;
    }
  }

  predicate StepOf(a: Action, r: RequestId) {
    match a
    case Take(x) => x == r
    case Fetch(x) => x == r
    case Serve(x, _) => x == r
    case Unlock(x) => x == r
    case Leave(x) => x == r
    case _ => false
  }

  /** No request waits for ever because of the locks: as long as some request wants a key, one that
      wants it can take its next step, with nobody else's help. */
  lemma SomebodyMoves(acts: seq<Action>, r: RequestId)
    requires Possible(INITIAL, acts) && r in Run(INITIAL, acts).requests
    ensures var s := Run(INITIAL, acts);
            exists q, a :: q in s.requests && s.requests[q].key == s.requests[r].key && StepOf(a, q) && Enabled(s, a)
  {
    RunKeepsInv(INITIAL, acts);
    var s := Run(INITIAL, acts);
    var l := s.requests[r].lock;
    var q := if s.locks[l].holder.Some? then s.locks[l].holder.value else r;
    var a := match s.requests[q].phase
      case Waiting => Take(q)
      case Holding => if s.requests[q].key in s.freshKeys then Serve(q, false) else Fetch(q)
      case Fetching => Serve(q, true)
      case Served => Unlock(q)
      case Releasing => Leave(q);
    SameLockSameKey(s, q, r);
    assert StepOf(a, q) && Enabled(s, a);
  }

  lemma SameLockSameKey(s: State, q: RequestId, r: RequestId)
    requires TableOK(s) && q in s.requests && r in s.requests && s.requests[q].lock == s.requests[r].lock
    ensures s.requests[q].key == s.requests[r].key
  {}

  /** While one request fetches a key, or once it has stored an entry that is still fresh, the
      key is not fetched again. */
  ghost predicate Covered(s: State, r0: RequestId, key: Key) {
    key in s.freshKeys || (In(s, r0, Fetching) && s.requests[r0].key == key)
  }

  /** The double check: whoever holds the key's lock and sees no fresh entry is the one request
      that is fetching already. */
  lemma CoveredMeansNoFetch(s: State, r0: RequestId, key: Key, r: RequestId)
    requires Inv(s) && Covered(s, r0, key) && r in s.requests && s.requests[r].key == key
    ensures !Enabled(s, Fetch(r))
    ensures In(s, r, Fetching) && key !in s.freshKeys ==> r == r0
  {
    hide RefsOK;
  }

  lemma StepKeepsCovered(s: State, a: Action, r0: RequestId, key: Key)
    requires Inv(s) && Covered(s, r0, key) && Enabled(s, a) && a != Expire(key) && a != Serve(r0, false)
    ensures Covered(Next(s, a), r0, key)
  {
    hide Inv, TableOK, RefsOK, HoldersOK;
  }

  /** What the second lookup under the lock buys: from the moment a request asks the origin, no
      request fetches that key until the entry expires or the response was not stored. */
  lemma {:induction false} NoSecondFetch(s: State, acts: seq<Action>, r0: RequestId, key: Key, r: RequestId)
    requires Inv(s) && Covered(s, r0, key) && Possible(s, acts)
    requires forall i :: 0 <= i < |acts| ==> acts[i] != Expire(key) && acts[i] != Serve(r0, false)
    ensures var t := Run(s, acts);
            && Covered(t, r0, key)
            && (r in t.requests && t.requests[r].key == key ==> !Enabled(t, Fetch(r)))
    decreases |acts|
  {
    hide Inv, Enabled, Next, Covered;
    if acts == [] {
      if r in s.requests && s.requests[r].key == key { CoveredMeansNoFetch(s, r0, key, r); }
    } else {
      StepKeepsInv(s, acts[0]);
      StepKeepsCovered(s, acts[0], r0, key);
      NoSecondFetch(Next(s, acts[0]), acts[1..], r0, key, r);
    }
  }

  /** In a whole run: after any beginning that ends with r0 asking the origin. */
  lemma OneFetchUntilExpiry(start: seq<Action>, acts: seq<Action>, r0: RequestId, r: RequestId)
    requires Possible(INITIAL, start) && In(Run(INITIAL, start), r0, Fetching)
    requires var s := Run(INITIAL, start);
             && Possible(s, acts)
             && forall i :: 0 <= i < |acts| ==> acts[i] != Expire(s.requests[r0].key) && acts[i] != Serve(r0, false)
    ensures var key, t := Run(INITIAL, start).requests[r0].key, Run(Run(INITIAL, start), acts);
            r in t.requests && t.requests[r].key == key ==> !Enabled(t, Fetch(r))
  {
    RunKeepsInv(INITIAL, start);
    NoSecondFetch(Run(INITIAL, start), acts, r0, Run(INITIAL, start).requests[r0].key, r);
  }
}
