/** The wake machine of the on-demand gateway (cmd/hogs-agent/gateway.go).

    Every method below is one critical section of the gateway's mutex, or one atomic counter
    update; connections, status requests and boot tasks interleave freely between them.  What
    was observed outside the mutex (is the backend up, is the unit active) may be out of date
    by then and is an arbitrary argument. */
module Gateway {
  import opened Sequences
  import opened Wrappers

  const MAX_BOOT_SAMPLES := 20

  datatype State = Stopped | Starting | Ready | Failed

  /** Neighbours are at least `gap` apart. */
  ghost predicate Apart(times: seq<int>, gap: int) {
    forall i :: 0 < i < |times| ==> times[i] - times[i - 1] >= gap
  }

  lemma AppendApart(times: seq<int>, now: int, gap: int)
    requires Apart(times, gap) && (times != [] ==> now - times[|times| - 1] >= gap)
    ensures Apart(times + [now], gap)
  {}

  lemma AppendSample(samples: seq<int>, x: int, kept: seq<int>)
    requires kept == LastUpTo(samples, MAX_BOOT_SAMPLES) + [x]
    ensures LastUpTo(samples + [x], MAX_BOOT_SAMPLES) ==
            if |kept| > MAX_BOOT_SAMPLES then kept[|kept| - MAX_BOOT_SAMPLES..] else kept
  {}

  /** Any two are then at least `gap` apart. */
  lemma {:induction false} ApartPairwise(times: seq<int>, gap: nat, i: nat, j: nat)
    requires Apart(times, gap) && i < j < |times|
    ensures times[j] - times[i] >= gap * (j - i)
    decreases j
  {
    if i < j - 1 {
      ApartPairwise(times, gap, i, j - 1);
      assert gap * (j - 1 - i) + gap == gap * (j - i);
    }
  }

  predicate OneTaskPerBoot(state: State, inFlight: bool, startedAt: Option<int>, launching: nat, awaiting: nat) {
    && launching + awaiting == (if inFlight then 1 else 0)
    && (inFlight ==> (state == Starting || state == Ready) && startedAt.Some?)
  }

  ghost predicate WakesKnown(wakes: seq<int>, last: Option<int>, triggered: nat, cooldown: nat, clock: int) {
    && Apart(wakes, cooldown) && |wakes| == triggered
    && if wakes == [] then last == None else last == Some(wakes[|wakes| - 1]) && wakes[|wakes| - 1] <= clock
  }

  lemma OneMoreWake(wakes: seq<int>, last: Option<int>, triggered: nat, cooldown: nat, clock: int, now: int)
    requires WakesKnown(wakes, last, triggered, cooldown, clock) && (last.None? || now - last.value >= cooldown)
    ensures WakesKnown(wakes + [now], Some(now), triggered + 1, cooldown, now)
  {
    AppendApart(wakes, now, cooldown);
  }

  lemma LaterClock(wakes: seq<int>, last: Option<int>, triggered: nat, cooldown: nat, clock: int, now: int)
    requires WakesKnown(wakes, last, triggered, cooldown, clock) && clock <= now
    ensures WakesKnown(wakes, last, triggered, cooldown, now)
  {}

  // ---------------------------------------------------------------- the boot estimate

  function CountAtMost(s: seq<int>, v: int): nat {
    if s == [] then 0 else CountAtMost(s[1..], v) + if s[0] <= v then 1 else 0
  }

  ghost predicate Ascending(s: seq<int>) {
    s != [] ==> (forall x :: x in s[1..] ==> s[0] <= x) && Ascending(s[1..])
  }

  function Insert(x: int, s: seq<int>): seq<int> {
    if s == [] || x <= s[0] then [x] + s else [s[0]] + Insert(x, s[1..])
  }

  lemma {:induction false} InsertMembers(x: int, s: seq<int>)
    ensures forall y :: y in Insert(x, s) <==> y == x || y in s
    ensures |Insert(x, s)| == |s| + 1
  {
    if s != [] && x > s[0] {
      assert s == [s[0]] + s[1..];
      InsertMembers(x, s[1..]);
    }
  }

  lemma {:induction false} InsertAscending(x: int, s: seq<int>)
    requires Ascending(s)
    ensures Ascending(Insert(x, s))
  {
    if s == [] || x <= s[0] {
      assert ([x] + s)[1..] == s;
      if s != [] { assert s == [s[0]] + s[1..]; }
    } else {
      InsertAscending(x, s[1..]);
      InsertMembers(x, s[1..]);
      assert Insert(x, s)[1..] == Insert(x, s[1..]);
    }
  }

  lemma {:induction false} InsertCount(x: int, s: seq<int>, v: int)
    ensures CountAtMost(Insert(x, s), v) == CountAtMost(s, v) + if x <= v then 1 else 0
  {
    if s == [] || x <= s[0] {
      assert ([x] + s)[1..] == s;
    } else {
      InsertCount(x, s[1..], v);
      assert Insert(x, s)[1..] == Insert(x, s[1..]);
    }
  }

  ghost predicate SameCounts(s: seq<int>, t: seq<int>) {
    |s| == |t| && forall v :: CountAtMost(s, v) == CountAtMost(t, v)
  }

  lemma {:induction false} CountBelow(s: seq<int>, v: int)
    requires forall x :: x in s ==> x > v
    ensures CountAtMost(s, v) == 0
  {
    if s != [] {
      assert s[0] in s && forall x :: x in s[1..] ==> x in s;
      CountBelow(s[1..], v);
    }
  }

  /** Position k of an ascending sequence has more than k entries at or below it, and no smaller
      value has. */
  lemma {:induction false} RankInAscending(s: seq<int>, k: nat, w: int)
    requires Ascending(s) && k < |s|
    ensures CountAtMost(s, s[k]) > k
    ensures w < s[k] ==> CountAtMost(s, w) <= k
  {
    if k > 0 {
      assert s[1..][k - 1] == s[k] && s[k] in s[1..];
      RankInAscending(s[1..], k - 1, w);
    } else if w < s[0] {
      assert forall x :: x in s ==> x == s[0] || x in s[1..] by { assert s == [s[0]] + s[1..]; }
      CountBelow(s, w);
    }
  }

  /** `v` is the least value that at least three quarters of the samples do not exceed. */
  ghost predicate ThreeQuarterPoint(samples: seq<int>, v: int) {
    && 4 * CountAtMost(samples, v) >= 3 * |samples|
    && forall w :: w < v ==> 4 * CountAtMost(samples, w) < 3 * |samples|
  }

  method Sort(list: seq<int>) returns (sorted: seq<int>)
    ensures Ascending(sorted) && SameCounts(sorted, list)
  {
    sorted := [];
    var i := |list|;
    assert list[i..] == [];
    while i > 0
      invariant 0 <= i <= |list| && Ascending(sorted) && SameCounts(sorted, list[i..])
    {
      i := i - 1;
      ghost var before := sorted;
      InsertAscending(list[i], sorted);
      InsertMembers(list[i], sorted);
      sorted := Insert(list[i], sorted);
      assert list[i..][1..] == list[i + 1..];
      forall v ensures CountAtMost(sorted, v) == CountAtMost(list[i..], v) {
        InsertCount(list[i], before, v);
      }
    }
    assert list[0..] == list;
  }

  class MinecraftGateway {
    const wakeCooldown: nat
    const defaultBoot: int
    var state: State
    var startInFlight: bool
    var bootStartedAt: Option<int>
    var lastWakeAt: Option<int>
    var lastReadyAt: Option<int>
    var lastError: string
    var bootDurations: seq<int>
    var wakeAttempts: nat
    var wakeTriggered: nat

    // goroutines and the clock, which the program does not keep in fields
    var clock: int          // the time of the latest reading under the mutex
    var launching: nat      // boot tasks that start the unit
    var awaiting: nat       // boot tasks that wait for the backend
    var pending: nat        // counted attempts that have not asked for the wake yet

    ghost var wakes: seq<int>     // when a wake was triggered
    ghost var samples: seq<int>   // every boot duration, the stored ones first
    ghost var stored: nat         // how many of them were stored
    ghost var begun: nat          // boots begun by this process

    ghost predicate Valid()
      reads this
    {
      && OneTaskPerBoot(state, startInFlight, bootStartedAt, launching, awaiting)
      && WakesKnown(wakes, lastWakeAt, wakeTriggered, wakeCooldown, clock)
      && wakeTriggered + pending <= wakeAttempts && wakeTriggered <= begun
      && bootDurations == LastUpTo(samples, MAX_BOOT_SAMPLES)
      && stored <= |samples| && |samples| - stored + launching + awaiting <= begun
    }

    /** loadState and the two looks at the backend and the unit. */
    constructor (wakeCooldown: nat, defaultBoot: int, saved: seq<int>, savedReadyAt: Option<int>,
                 backendReady: bool, active: bool, now: int)
      ensures Valid() && wakes == [] && samples == saved && clock == now && pending == 0
      ensures startInFlight <==> !backendReady && active
      ensures bootStartedAt == (if startInFlight then Some(now) else None) && lastReadyAt == savedReadyAt && lastError == ""
      ensures state == if backendReady then Ready else if active then Starting else Stopped
      ensures this.wakeCooldown == wakeCooldown && this.defaultBoot == defaultBoot
    {
      this.wakeCooldown, this.defaultBoot := wakeCooldown, defaultBoot;
      bootDurations, samples, stored := LastUpTo(saved, MAX_BOOT_SAMPLES), saved, |saved|;
      lastReadyAt, lastWakeAt, lastError := savedReadyAt, None, "";
      wakeAttempts, wakeTriggered, wakes, pending := 0, 0, [], 0;
      state, startInFlight, bootStartedAt := Stopped, false, None;
      clock, launching, awaiting, begun := now, 0, 0, 0;
      if backendReady {
        state := Ready;
      } else if active {
        state, startInFlight, bootStartedAt := Starting, true, Some(now);
        awaiting, begun := 1, 1;
      }
    }

    /** A status request; a unit that was started by someone else gets its own boot task, unless
        one is under way. */
    method RefreshState(backendReady: bool, active: bool, now: int)
      requires Valid() && clock <= now
      modifies this
      ensures Valid() && clock == now && wakes == old(wakes) && samples == old(samples) && pending == old(pending)
      ensures begun == old(begun) + (if !backendReady && active && !old(startInFlight) then 1 else 0)
      ensures startInFlight <==> old(startInFlight) || (!backendReady && active)
      ensures bootStartedAt == if !backendReady && active && !old(startInFlight) then Some(now) else old(bootStartedAt)
      ensures lastReadyAt == old(lastReadyAt) && lastError == if backendReady then "" else old(lastError)
      ensures state == if backendReady then Ready else if old(startInFlight) then old(state) else if active then Starting else Stopped
    {
      hide LastUpTo, WakesKnown;
      LaterClock(wakes, lastWakeAt, wakeTriggered, wakeCooldown, clock, now);
      clock := now;
      if backendReady {
        MarkReadyWithoutBoot();
        return;
      }
      if startInFlight {
        return;
      }
      if !active {
        state := Stopped;
        return;
      }
      state, startInFlight, bootStartedAt := Starting, true, Some(now);
      awaiting, begun := awaiting + 1, begun + 1;
    }

    method MarkReadyWithoutBoot()
      requires Valid()
      modifies this`state, this`lastError
      ensures Valid() && state == Ready && lastError == ""
    {
      state, lastError := Ready, "";
    }

    method MarkBackendUnavailable(active: bool)
      requires Valid()
      modifies this`state
      ensures Valid()
      ensures state == if startInFlight then old(state) else if active then Starting else Stopped
    {
      if !startInFlight {
        state := if active then Starting else Stopped;
      }
    }

    /** A login that passed the limiter is counted before the wake is asked for. */
    method CountAttempt()
      requires Valid()
      modifies this`wakeAttempts, this`pending
      ensures Valid() && wakeAttempts == old(wakeAttempts) + 1 && pending == old(pending) + 1
    {
      wakeAttempts, pending := wakeAttempts + 1, pending + 1;
    }

    predicate WakeDue(now: int)
      reads this`startInFlight, this`lastWakeAt
    {
      !startInFlight && (lastWakeAt.None? || now - lastWakeAt.value >= wakeCooldown)
    }

    /** Triggers a wake exactly when no boot is under way and the last wake is long enough ago. */
    method RequestWake(now: int) returns (estimate: int)
      requires Valid() && clock <= now && pending > 0
      modifies this`state, this`startInFlight, this`bootStartedAt, this`lastWakeAt, this`lastError, this`wakeTriggered
      modifies this`clock, this`pending, this`wakes, this`launching, this`begun
      ensures Valid() && clock == now && pending == old(pending) - 1
      ensures wakes == if old(WakeDue(now)) then old(wakes) + [now] else old(wakes)
      ensures launching == old(launching) + if old(WakeDue(now)) then 1 else 0
      ensures begun == old(begun) + if old(WakeDue(now)) then 1 else 0
      ensures state == if old(WakeDue(now)) then Starting else old(state)
      ensures bootStartedAt == if old(WakeDue(now)) then Some(now) else old(bootStartedAt)
      ensures startInFlight == (old(startInFlight) || old(WakeDue(now)))
      ensures lastError == if old(WakeDue(now)) then "" else old(lastError)
      ensures if bootDurations == [] then estimate == defaultBoot else ThreeQuarterPoint(bootDurations, estimate)
    {
      hide CountAtMost, ThreeQuarterPoint, WakesKnown, LastUpTo;
      estimate := EstimatedBoot();
      LaterClock(wakes, lastWakeAt, wakeTriggered, wakeCooldown, clock, now);
      clock, pending := now, pending - 1;
      if startInFlight {
        return;
      }
      if lastWakeAt.Some? && now - lastWakeAt.value < wakeCooldown {
        return;
      }
      Trigger(now);
    }

    /** The rest of requestWake: the boot is marked as begun and its task is launched. */
    method Trigger(now: int)
      requires Valid() && WakeDue(now) && clock == now && wakeTriggered + pending < wakeAttempts
      modifies this`state, this`startInFlight, this`bootStartedAt, this`lastWakeAt, this`lastError, this`wakeTriggered
      modifies this`wakes, this`launching, this`begun
      ensures Valid() && wakes == old(wakes) + [now] && launching == old(launching) + 1 && begun == old(begun) + 1
      ensures state == Starting && bootStartedAt == Some(now) && startInFlight && lastError == ""
    {
      hide WakesKnown, LastUpTo;
      OneMoreWake(wakes, lastWakeAt, wakeTriggered, wakeCooldown, now, now);
      state, startInFlight, bootStartedAt := Starting, true, Some(now);
      lastWakeAt, lastError, wakeTriggered := Some(now), "", wakeTriggered + 1;
      wakes, launching, begun := wakes + [now], launching + 1, begun + 1;
    }

    /** The boot task has started the unit, or found it active, or failed to. */
    method LaunchDone(success: bool, message: string)
      requires Valid() && launching > 0
      modifies this
      ensures Valid() && launching == old(launching) - 1
      ensures clock == old(clock) && wakes == old(wakes) && samples == old(samples) && pending == old(pending)
      ensures startInFlight == success && awaiting == old(awaiting) + (if success then 1 else 0)
      ensures state == (if success then old(state) else Failed) && lastError == (if success then old(lastError) else message)
      ensures bootStartedAt == old(bootStartedAt) && lastReadyAt == old(lastReadyAt)
    {
      hide LastUpTo, WakesKnown;
      launching := launching - 1;
      if !success {
        state, startInFlight, lastError := Failed, false, message;
        return;
      }
      awaiting := awaiting + 1;
    }

    /** The boot task saw the backend; `now` was read before the mutex was taken. */
    method AwaitReady(now: int)
      requires Valid() && awaiting > 0
      modifies this
      ensures Valid() && state == Ready && !startInFlight && lastReadyAt == Some(now) && lastError == ""
      ensures awaiting == old(awaiting) - 1 && launching == old(launching) && bootStartedAt == old(bootStartedAt)
      ensures clock == old(clock) && wakes == old(wakes) && pending == old(pending)
      ensures samples == old(samples) + (if now > old(bootStartedAt).value then [now - old(bootStartedAt).value] else [])
    {
      hide LastUpTo, WakesKnown;
      awaiting := awaiting - 1;
      state, startInFlight := Ready, false;
      if bootStartedAt.Some? && now - bootStartedAt.value > 0 {
        RecordBoot(now - bootStartedAt.value);
      }
      lastReadyAt, lastError := Some(now), "";
    }

    /** Keeps the durations of the last 20 boots. */
    method RecordBoot(duration: int)
      requires Valid() && |samples| - stored + launching + awaiting < begun
      modifies this`bootDurations, this`samples
      ensures Valid() && samples == old(samples) + [duration]
    {
      hide LastUpTo, WakesKnown, OneTaskPerBoot;
      AppendSample(samples, duration, bootDurations + [duration]);
      samples := samples + [duration];
      bootDurations := bootDurations + [duration];
      if |bootDurations| > MAX_BOOT_SAMPLES {
        bootDurations := bootDurations[|bootDurations| - MAX_BOOT_SAMPLES..];
      }
    }

    method AwaitTimedOut()
      requires Valid() && awaiting > 0
      modifies this
      ensures Valid() && state == Failed && !startInFlight && lastError == "backend readiness timeout"
      ensures awaiting == old(awaiting) - 1 && launching == old(launching)
      ensures bootStartedAt == old(bootStartedAt) && lastReadyAt == old(lastReadyAt)
      ensures clock == old(clock) && wakes == old(wakes) && samples == old(samples) && pending == old(pending)
    {
      hide LastUpTo, WakesKnown;
      state, startInFlight, lastError := Failed, false, "backend readiness timeout";
      awaiting := awaiting - 1;
    }

    /** With at most 20 samples the rounded index ceil(0.75 n) - 1 is exact. */
    method EstimatedBoot() returns (estimate: int)
      ensures if bootDurations == [] then estimate == defaultBoot else ThreeQuarterPoint(bootDurations, estimate)
    {
      if |bootDurations| == 0 {
        return defaultBoot;
      }
      var values := Sort(bootDurations);
      var index := (3 * |values| + 3) / 4 - 1;
      estimate := values[index];
      forall w ensures CountAtMost(values, estimate) > index && (w < estimate ==> CountAtMost(values, w) <= index) {
        RankInAscending(values, index, w);
      }
    }

    /** Any interleaving of connections, status requests and boot tasks.  At most one boot is
        under way; triggered wakes keep the cooldown and are never more than the attempts; the
        estimate is taken from the last 20 boots. */
    method Serve()
      requires Valid()
      modifies this
      ensures Valid()
      ensures launching + awaiting <= 1 && (startInFlight ==> state == Starting || state == Ready)
      ensures Apart(wakes, wakeCooldown) && wakeTriggered <= wakeAttempts
      ensures old(wakes) <= wakes && old(samples) <= samples
      ensures |bootDurations| <= MAX_BOOT_SAMPLES && bootDurations == samples[|samples| - |bootDurations|..]
    {
      hide Apart, ThreeQuarterPoint, CountAtMost;
      var steps: nat := *;
      while steps > 0
        invariant Valid() && old(wakes) <= wakes && old(samples) <= samples
      {
        steps := steps - 1;
        var choice: nat, now: int, up: bool, active: bool := *, *, *, *;
        if choice == 0 && clock <= now {
          RefreshState(up, active, now);
        } else if choice == 1 {
          MarkReadyWithoutBoot();
        } else if choice == 2 {
          MarkBackendUnavailable(active);
        } else if choice == 3 {
          CountAttempt();
        } else if choice == 4 && clock <= now && pending > 0 {
          var estimate := RequestWake(now);
        } else if choice == 5 && launching > 0 {
          LaunchDone(up, "");
        } else if choice == 6 && awaiting > 0 {
          AwaitReady(now);
        } else if awaiting > 0 {
          AwaitTimedOut();
        }
      }
    }
  }
}
