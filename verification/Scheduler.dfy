/** Automation rules: the stability timer and the cooldown (cron/scheduler.go).

    One rule is evaluated again and again, one evaluation after the other.  The value of its
    condition, the telemetry behind it, the engine's verdict, the result of the action and
    whether a write of the rule's state takes effect are arbitrary, and the wall clock may jump.
    Times are nanoseconds; a stored timestamp keeps whole seconds only. */
module Scheduler {
  import opened Wrappers

  const SECOND := 1_000_000_000

  datatype Value = True | False | NotBool | Failed

  datatype Verdict = Allowed(executes: bool) | NoExecutor | Blocked | Denied | Queued

  /** What one evaluation meets; the errors of its two writes are discarded. */
  datatype Tick = Tick(
    now: int,
    stale: bool,
    value: Value,
    stability: int,
    cooldown: int,
    verdict: Verdict,
    timerWritten: bool,  // the write that starts the timer took effect
    written: bool)       // the write at the end of the evaluation took effect

  datatype Output = Ready | TelemetryStale | ConditionError | ConditionFalse | WaitingFor

  datatype Outcome = Waiting(output: Output) | Cooldown | Called(success: bool) | NotCalled

  datatype Record = Record(tick: Tick, outcome: Outcome)

  /** now.Format(time.RFC3339), read back. */
  function Truncated(now: int): int {
    now / SECOND
  }

  predicate Holds(tick: Tick) {
    !tick.stale && tick.value.True?
  }

  // ---------------------------------------------------------------- what a call needs

  /** Every evaluation from i on found the condition true on fresh telemetry. */
  ghost predicate UnbrokenFrom(history: seq<Record>, i: nat) {
    forall k :: i <= k < |history| ==> Holds(history[k].tick)
  }

  /** The condition had been seen true without a break for the required time. */
  ghost predicate StableEnough(history: seq<Record>, tick: Tick) {
    tick.stability > 0 ==>
      exists i :: 0 <= i < |history| && UnbrokenFrom(history, i)
        && tick.now >= (Truncated(history[i].tick.now) + tick.stability) * SECOND
  }

  /** The last action that succeeded lies at least the cooldown back. */
  ghost predicate CooledDown(history: seq<Record>, tick: Tick) {
    tick.cooldown > 0 ==>
      forall i :: 0 <= i < |history| && LastSuccess(history, i) ==>
        tick.now >= (Truncated(history[i].tick.now) + tick.cooldown) * SECOND
  }

  ghost predicate LastSuccess(history: seq<Record>, i: nat) {
    && i < |history| && history[i].outcome == Called(true)
    && forall k :: i < k < |history| ==> history[k].outcome != Called(true)
  }

  // ---------------------------------------------------------------- what the rule goes by

  predicate Ripe(since: Option<int>, tick: Tick) {
    tick.stability > 0 ==> since.Some? && tick.now >= (since.value + tick.stability) * SECOND
  }

  predicate Cooled(last: Option<int>, tick: Tick) {
    tick.cooldown > 0 && last.Some? ==> tick.now >= (last.value + tick.cooldown) * SECOND
  }

  /** The executor is called. */
  predicate Calls(since: Option<int>, last: Option<int>, tick: Tick) {
    Holds(tick) && Ripe(since, tick) && Cooled(last, tick) && tick.verdict.Allowed?
  }

  predicate Starts(timer: Option<nat>, tick: Tick) {
    timer.None? && Holds(tick) && tick.stability > 0
  }

  /** The evaluation whose time the stored timer holds. */
  function TimerStart(history: seq<Record>): (start: Option<nat>)
    ensures start.Some? ==> start.value < |history|
  {
    if history == [] then None
    else
      var n, r := |history| - 1, history[|history| - 1];
      var stored := TimerStart(history[..n]);
      var known := if Starts(stored, r.tick) then Some(n) else stored;
      if r.tick.written then if r.outcome == Waiting(WaitingFor) then known else None
      else if Starts(stored, r.tick) && r.tick.timerWritten then known
      else stored
  }

  /** The success whose time is stored. */
  function StoredSuccess(history: seq<Record>): (i: Option<nat>)
    ensures i.Some? ==> i.value < |history| && history[i.value].outcome == Called(true)
  {
    if history == [] then None
    else
      var n, r := |history| - 1, history[|history| - 1];
      if r.outcome == Called(true) && r.tick.written then Some(n) else StoredSuccess(history[..n])
  }

  function Timer(history: seq<Record>): Option<int> {
    var start := TimerStart(history);
    if start.Some? then Some(Truncated(history[start.value].tick.now)) else None
  }

  function LastAction(history: seq<Record>): Option<int> {
    var i := StoredSuccess(history);
    if i.Some? then Some(Truncated(history[i.value].tick.now)) else None
  }

  /** The output tells why the rule waits. */
  predicate Explains(output: Output, tick: Tick) {
    match output
    case TelemetryStale => tick.stale
    case ConditionError => !tick.stale && (tick.value.Failed? || tick.value.NotBool?)
    case ConditionFalse => !tick.stale && tick.value.False?
    case Ready => Holds(tick)
    case WaitingFor => Holds(tick)
  }

  /** An outcome the rule can come to. */
  predicate Fits(since: Option<int>, last: Option<int>, r: Record) {
    match r.outcome
    case Waiting(output) => Explains(output, r.tick) && (Holds(r.tick) ==> output.WaitingFor? && !Ripe(since, r.tick))
    case Cooldown => Holds(r.tick) && Ripe(since, r.tick) && !Cooled(last, r.tick)
    case Called(success) => Calls(since, last, r.tick) && success == r.tick.verdict.executes
    case NotCalled => Holds(r.tick) && Ripe(since, r.tick) && Cooled(last, r.tick) && !r.tick.verdict.Allowed?
  }

  ghost predicate IsRun(history: seq<Record>) {
    history != [] ==>
      var front := history[..|history| - 1];
      IsRun(front) && Fits(Timer(front), LastAction(front), history[|history| - 1])
  }

  lemma RunNext(history: seq<Record>, r: Record)
    requires IsRun(history) && Fits(Timer(history), LastAction(history), r)
    ensures IsRun(history + [r])
    ensures TimerStart(history + [r]) ==
              var stored := TimerStart(history);
              var known := if Starts(stored, r.tick) then Some(|history|) else stored;
              if r.tick.written then if r.outcome == Waiting(WaitingFor) then known else None
              else if Starts(stored, r.tick) && r.tick.timerWritten then known
              else stored
    ensures LastAction(history + [r]) ==
              if r.outcome == Called(true) && r.tick.written then Some(Truncated(r.tick.now)) else LastAction(history)
  {
    assert (history + [r])[..|history|] == history;
  }

  lemma {:induction false} RunBefore(history: seq<Record>, j: nat)
    requires IsRun(history) && j < |history|
    ensures IsRun(history[..j]) && Fits(Timer(history[..j]), LastAction(history[..j]), history[j])
  {
    var front := history[..|history| - 1];
    if j < |front| {
      RunBefore(front, j);
      assert front[..j] == history[..j];
    }
  }

  // ---------------------------------------------------------------- the stability timer

  /** An evaluation from i on found the condition not true, and could not clear the timer. */
  ghost predicate ClearingLost(history: seq<Record>, i: nat) {
    exists k :: i <= k < |history| && !Holds(history[k].tick) && !history[k].tick.written
  }

  /** A timer only outlives an evaluation that breaks the condition if the clearing was lost. */
  lemma {:induction false} TimerSurvives(history: seq<Record>)
    requires IsRun(history) && TimerStart(history).Some?
    ensures var i := TimerStart(history).value;
            && Holds(history[i].tick)
            && forall k :: i <= k < |history| ==> Holds(history[k].tick) || !history[k].tick.written
  {
    var n := |history| - 1;
    if TimerStart(history) != Some(n) {
      assert TimerStart(history) == TimerStart(history[..n]);
      TimerSurvives(history[..n]);
      forall k | TimerStart(history).value <= k < |history|
        ensures Holds(history[k].tick) || !history[k].tick.written
      {
        if k < n { assert history[k] == history[..n][k]; }
      }
    }
  }

  lemma UnbrokenUnlessLost(history: seq<Record>)
    requires IsRun(history) && TimerStart(history).Some?
    ensures UnbrokenFrom(history, TimerStart(history).value) <==> !ClearingLost(history, TimerStart(history).value)
  {
    TimerSurvives(history);
  }

  /** The condition has been true since an evaluation that is dated no later than the timer. */
  ghost predicate TrueSince(history: seq<Record>, time: int) {
    exists i :: 0 <= i < |history| && UnbrokenFrom(history, i) && Truncated(history[i].tick.now) <= time
  }

  /** The condition broke after the timer was set, the timer could not be cleared, and no
      evaluation dated before the timer makes up for it, as one could if the clock went back. */
  ghost predicate TimerMisleads(history: seq<Record>) {
    && TimerStart(history).Some? && ClearingLost(history, TimerStart(history).value)
    && !TrueSince(history, Timer(history).value)
  }

  /** Whatever the next evaluation meets, it only calls the executor after the stability period,
      if and only if no clearing of the timer was lost since it was set (or the clock went back
      far enough). */
  lemma StableExactly(history: seq<Record>)
    requires IsRun(history)
    ensures (forall tick :: Calls(Timer(history), LastAction(history), tick) ==> StableEnough(history, tick)) <==>
            !TimerMisleads(history)
  {
    if Timer(history).Some? {
      UnbrokenUnlessLost(history);
      assert !ClearingLost(history, TimerStart(history).value) ==> TrueSince(history, Timer(history).value);
      hide UnbrokenFrom, ClearingLost, TrueSince, StableEnough, Calls, IsRun;
      if TrueSince(history, Timer(history).value) { StableIfTrueSince(history); } else { CallsTooEarly(history); }
    }
  }

  lemma StableIfTrueSince(history: seq<Record>)
    requires Timer(history).Some? && TrueSince(history, Timer(history).value)
    ensures forall tick :: Calls(Timer(history), LastAction(history), tick) ==> StableEnough(history, tick)
  {
    var i :| 0 <= i < |history| && UnbrokenFrom(history, i) && Truncated(history[i].tick.now) <= Timer(history).value;
  }

  lemma CallsTooEarly(history: seq<Record>)
    requires Timer(history).Some? && !TrueSince(history, Timer(history).value)
    ensures exists tick :: Calls(Timer(history), LastAction(history), tick) && !StableEnough(history, tick)
  {
    var time := Timer(history).value;
    var tick := Tick((time + 1) * SECOND, false, True, 1, 0, Allowed(true), true, true);
    hide UnbrokenFrom, TimerStart, StoredSuccess;
    assert Calls(Some(time), LastAction(history), tick);
    assert forall i :: 0 <= i < |history| && UnbrokenFrom(history, i) ==> Truncated(history[i].tick.now) > time;
  }

  /** While the clock goes forward, the lost clearing alone decides. */
  lemma StableWhileClockAdvances(history: seq<Record>)
    requires IsRun(history)
    requires forall i, j :: 0 <= i < j < |history| ==> Truncated(history[i].tick.now) < Truncated(history[j].tick.now)
    ensures (forall tick :: Calls(Timer(history), LastAction(history), tick) ==> StableEnough(history, tick)) <==>
            (TimerStart(history).Some? ==> !ClearingLost(history, TimerStart(history).value))
  {
    StableExactly(history);
    hide StableEnough, Calls, IsRun, Truncated;
    if TimerStart(history).Some? && TrueSince(history, Timer(history).value) {
      var i :| 0 <= i < |history| && UnbrokenFrom(history, i) && Truncated(history[i].tick.now) <= Timer(history).value;
      assert i <= TimerStart(history).value;
    }
  }

  /** A timer whose clearing is lost makes the executor run too early: true at zero, false at half
      a minute, true again a minute later, with a stability period of a minute. */
  lemma LostClearingCallsEarly()
    ensures var t0 := Tick(0, false, True, 60, 0, Allowed(true), true, true);
            var t1 := t0.(now := 30 * SECOND, value := False, written := false);
            var t2 := t0.(now := 61 * SECOND);
            var before := [Record(t0, Waiting(WaitingFor)), Record(t1, Waiting(ConditionFalse))];
            IsRun(before + [Record(t2, Called(true))]) && !StableEnough(before, t2)
  {
    var t0 := Tick(0, false, True, 60, 0, Allowed(true), true, true);
    var t1 := t0.(now := 30 * SECOND, value := False, written := false);
    var t2 := t0.(now := 61 * SECOND);
    var r0, r1 := Record(t0, Waiting(WaitingFor)), Record(t1, Waiting(ConditionFalse));
    assert IsRun([]) && TimerStart([]) == None && StoredSuccess([]) == None;
    RunNext([], r0);
    assert [] + [r0] == [r0];
    RunNext([r0], r1);
    assert [r0] + [r1] == [r0, r1];
    RunNext([r0, r1], Record(t2, Called(true)));
    assert !Holds([r0, r1][1].tick);
  }

  // ---------------------------------------------------------------- the cooldown

  /** The stored time is the one of the last success, unless writing that one was lost. */
  lemma {:induction false} StoredIsLast(history: seq<Record>, i: nat)
    requires LastSuccess(history, i) && history[i].tick.written
    ensures StoredSuccess(history) == Some(i)
  {
    var n := |history| - 1;
    if i < n {
      assert history[..n][i] == history[i];
      StoredIsLast(history[..n], i);
    }
  }

  ghost predicate SuccessRemembered(history: seq<Record>, i: nat)
    requires i < |history|
  {
    || history[i].tick.written
    || (LastAction(history).Some? && Truncated(history[i].tick.now) <= LastAction(history).value)
  }

  /** Whatever the next evaluation meets, it only calls the executor after the cooldown, if and
      only if the time of the last success was written, or the clock went back so far that a time
      stored before is no earlier. */
  lemma CooledExactly(history: seq<Record>)
    requires IsRun(history)
    ensures (forall tick :: Calls(Timer(history), LastAction(history), tick) ==> CooledDown(history, tick)) <==>
            (forall i :: 0 <= i < |history| && LastSuccess(history, i) ==> SuccessRemembered(history, i))
  {
    var last := LastAction(history);
    forall i | 0 <= i < |history| && LastSuccess(history, i)
      ensures SuccessRemembered(history, i) <==> last.Some? && Truncated(history[i].tick.now) <= last.value
      ensures !SuccessRemembered(history, i) ==>
                exists tick :: Calls(Timer(history), last, tick) && !CooledDown(history, tick)
    {
      if history[i].tick.written { StoredIsLast(history, i); }
      if !SuccessRemembered(history, i) { CallsTooSoon(history, i); }
    }
  }

  lemma CallsTooSoon(history: seq<Record>, i: nat)
    requires LastSuccess(history, i) && !SuccessRemembered(history, i)
    ensures exists tick :: Calls(Timer(history), LastAction(history), tick) && !CooledDown(history, tick)
  {
    var last := LastAction(history);
    var now := if last.Some? then (last.value + 1) * SECOND else Truncated(history[i].tick.now) * SECOND;
    var tick := Tick(now, false, True, 0, 1, Allowed(true), true, true);
    assert Calls(Timer(history), last, tick) && !CooledDown(history, tick);
  }

  /** A success whose time is not written is followed by the next one at once. */
  lemma LostSuccessCallsAgain()
    ensures var t0 := Tick(0, false, True, 0, 60, Allowed(true), true, false);
            var t1 := t0.(now := SECOND);
            IsRun([Record(t0, Called(true))] + [Record(t1, Called(true))]) && !CooledDown([Record(t0, Called(true))], t1)
  {
    var t0 := Tick(0, false, True, 0, 60, Allowed(true), true, false);
    var t1 := t0.(now := SECOND);
    var r0 := Record(t0, Called(true));
    assert IsRun([]) && TimerStart([]) == None && StoredSuccess([]) == None;
    RunNext([], r0);
    assert [] + [r0] == [r0];
    RunNext([r0], Record(t1, Called(true)));
    assert LastSuccess([r0], 0);
  }

  // ---------------------------------------------------------------- whole runs

  /** Every call of the executor in a run came on a true, fresh evaluation; after the stability
      period, unless clearing the timer was lost; and after the cooldown, unless writing the last
      success was lost. */
  lemma CallsJustified(history: seq<Record>, j: nat)
    requires IsRun(history) && j < |history| && history[j].outcome.Called?
    ensures Holds(history[j].tick)
    ensures (TimerStart(history[..j]).Some? ==> !ClearingLost(history[..j], TimerStart(history[..j]).value)) ==>
              StableEnough(history[..j], history[j].tick)
    ensures (forall i :: 0 <= i < j && LastSuccess(history[..j], i) ==> history[i].tick.written) ==>
              CooledDown(history[..j], history[j].tick)
  {
    RunBefore(history, j);
    StableExactly(history[..j]);
    CooledExactly(history[..j]);
  }

  /** The promise for a store that takes every write. */
  lemma WrittenRunIsJustified(history: seq<Record>, j: nat)
    requires IsRun(history) && j < |history| && history[j].outcome.Called?
    requires forall k :: 0 <= k < j ==> history[k].tick.written
    ensures Holds(history[j].tick) && StableEnough(history[..j], history[j].tick) && CooledDown(history[..j], history[j].tick)
  {
    CallsJustified(history, j);
  }

  /** An action after a success that was written is at least the cooldown behind it. */
  lemma ConsecutiveSuccesses(history: seq<Record>, i: nat, j: nat)
    requires IsRun(history) && i < j < |history|
    requires history[i].outcome == Called(true) && history[i].tick.written && history[j].outcome.Called?
    requires forall k :: i < k < j ==> history[k].outcome != Called(true)
    requires history[j].tick.cooldown > 0
    ensures history[j].tick.now >= (Truncated(history[i].tick.now) + history[j].tick.cooldown) * SECOND
  {
    RunBefore(history, j);
    assert history[..j][i] == history[i];
    assert LastSuccess(history[..j], i);
    StoredIsLast(history[..j], i);
  }

  class Rule {
    var conditionTrueSince: Option<int>  // stored timestamp, whole seconds
    var lastActionAt: Option<int>
    ghost var history: seq<Record>

    ghost predicate Valid()
      reads this
    {
      IsRun(history) && conditionTrueSince == Timer(history) && lastActionAt == LastAction(history)
    }

    constructor ()
      ensures Valid() && history == []
    {
      conditionTrueSince, lastActionAt, history := None, None, [];
    }

    /** Whether the action may run now, and the timer as the evaluation knows it. */
    method EvaluateCondition(tick: Tick) returns (ok: bool, output: Output, since: Option<int>)
      modifies this`conditionTrueSince
      ensures var starts := old(conditionTrueSince.None?) && Holds(tick) && tick.stability > 0;
              && since == (if starts then Some(Truncated(tick.now)) else old(conditionTrueSince))
              && conditionTrueSince == if starts && tick.timerWritten then since else old(conditionTrueSince)
      ensures ok == (output == Ready) == (Holds(tick) && Ripe(old(conditionTrueSince), tick))
      ensures Explains(output, tick)
    {
      since := conditionTrueSince;
      if tick.stale {
        return false, TelemetryStale, since;
      }
      match tick.value {
        case Failed => return false, ConditionError, since;
        case NotBool => return false, ConditionError, since;
        case False => return false, ConditionFalse, since;
        case True =>
      }
      if tick.stability <= 0 {
        return true, Ready, since;
      }
      if since.None? {
        since := Some(Truncated(tick.now));
        if tick.timerWritten { conditionTrueSince := since; }
      }
      var remaining := tick.stability * SECOND - (tick.now - since.value * SECOND);
      if remaining > 0 {
        return false, WaitingFor, since;
      }
      return true, Ready, since;
    }

    /** Stores the outcome; only a wait for the condition to stay true keeps the timer. */
    method FinishJob(tick: Tick, outcome: Outcome, since: Option<int>, last: Option<int>)
      modifies this
      ensures conditionTrueSince ==
                if !tick.written then old(conditionTrueSince)
                else if outcome == Waiting(ConditionFalse) || outcome == Waiting(ConditionError) || !outcome.Waiting? then None
                else since
      ensures lastActionAt == if tick.written then last else old(lastActionAt)
      ensures history == old(history) + [Record(tick, outcome)]
    {
      var kept := since;
      if !outcome.Waiting? || outcome.output == ConditionFalse || outcome.output == ConditionError {
        kept := None;
      }
      if tick.written {
        conditionTrueSince, lastActionAt := kept, last;
      }
      history := history + [Record(tick, outcome)];
    }

    /** One evaluation.  `Valid` says that what is stored is what the lemmas about runs speak of. */
    method ExecuteJob(tick: Tick) returns (outcome: Outcome)
      requires Valid()
      modifies this
      ensures Valid() && history == old(history) + [Record(tick, outcome)]
      ensures Fits(old(conditionTrueSince), old(lastActionAt), Record(tick, outcome))
      ensures outcome.Called? <==> Calls(old(conditionTrueSince), old(lastActionAt), tick)
    {
      hide IsRun, TimerStart, StoredSuccess;
      var ok, output, since := EvaluateCondition(tick);
      var last := lastActionAt;
      if !ok {
        outcome := Waiting(output);
        RunNext(history, Record(tick, outcome));
        FinishJob(tick, outcome, if output == WaitingFor then since else None, last);
        return;
      }
      if tick.cooldown > 0 && last.Some? {
        var remaining := tick.cooldown * SECOND - (tick.now - last.value * SECOND);
        if remaining > 0 {
          outcome := Cooldown;
          RunNext(history, Record(tick, outcome));
          FinishJob(tick, outcome, since, last);
          return;
        }
      }
      match tick.verdict {
        case Allowed(executes) =>
          outcome := Called(executes);
          if executes {
            last := Some(Truncated(tick.now));
          }
        case _ => outcome := NotCalled;
      }
      RunNext(history, Record(tick, outcome));
      FinishJob(tick, outcome, since, last);
    }
  }
}
