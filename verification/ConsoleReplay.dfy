/** Replaying a unit's journal to a console and then following it
    (cmd/hogs-agent/console_journal.go, handleConsole in cmd/hogs-agent/http_api.go).

    The journal only grows.  A cursor is the position of a record; a replayed or followed line
    is the position it was read from. */
module ConsoleReplay {
  import opened Sequences
  import opened Wrappers

  /** What journalctl prints for one record: something that is no entry, or an entry whose line
      is shown or is one of the game's routine lines. */
  datatype Record = Unreadable | Entry(shown: bool)

  type Journal = seq<Record>

  const REPLAY_LIMIT: nat := 500
  const FALLBACK_BACKLOG: nat := 200
  const SCAN_LIMIT: nat := 20000

  /** The shown lines of journal[from..end]. */
  function Shown(journal: Journal, from: nat, end: nat): (r: seq<nat>)
    requires end <= |journal|
    ensures |r| <= if from <= end then end - from else 0
    decreases end
  {
    if end <= from then []
    else
      var rest := Shown(journal, from, end - 1);
      if journal[end - 1] == Entry(true) then rest + [end - 1] else rest
  }

  /** The newest entry of journal[from..end]. */
  function LastRead(journal: Journal, from: nat, end: nat): (r: Option<nat>)
    requires end <= |journal|
    ensures r.Some? ==> from <= r.value < end && journal[r.value].Entry?
    decreases end
  {
    if end <= from then None
    else if journal[end - 1].Entry? then Some(end - 1)
    else LastRead(journal, from, end - 1)
  }

  predicate IsSuffix(s: seq<nat>, t: seq<nat>) {
    |s| <= |t| && s == t[|t| - |s|..]
  }

  lemma {:induction false} ShownSplit(journal: Journal, from: nat, mid: nat, end: nat)
    requires from <= mid <= end <= |journal|
    ensures Shown(journal, from, end) == Shown(journal, from, mid) + Shown(journal, mid, end)
    decreases end
  {
    if mid < end {
      ShownSplit(journal, from, mid, end - 1);
    }
  }

  lemma {:induction false} ShownOfLonger(journal: Journal, longer: Journal, from: nat, end: nat)
    requires end <= |journal| && journal <= longer
    ensures Shown(longer, from, end) == Shown(journal, from, end)
    decreases end
  {
    if from < end {
      ShownOfLonger(journal, longer, from, end - 1);
      assert longer[end - 1] == journal[end - 1];
    }
  }

  lemma {:induction false} LastReadOfLonger(journal: Journal, longer: Journal, from: nat, end: nat)
    requires end <= |journal| && journal <= longer
    ensures LastRead(longer, from, end) == LastRead(journal, from, end)
    decreases end
  {
    if from < end {
      LastReadOfLonger(journal, longer, from, end - 1);
      assert longer[end - 1] == journal[end - 1];
    }
  }

  /** Nothing is shown behind the newest entry. */
  lemma {:induction false} NothingBehindLast(journal: Journal, from: nat, end: nat)
    requires end <= |journal|
    ensures LastRead(journal, from, end).None? ==> Shown(journal, from, end) == []
    ensures LastRead(journal, from, end).Some? ==>
      var next := LastRead(journal, from, end).value + 1;
      next <= end && Shown(journal, next, end) == [] && Shown(journal, from, next) == Shown(journal, from, end)
    decreases end
  {
    if from < end && !journal[end - 1].Entry? {
      NothingBehindLast(journal, from, end - 1);
    }
  }

  lemma ShownFromBelow(journal: Journal, from: nat, end: nat)
    requires 0 < from <= end <= |journal|
    ensures Shown(journal, from - 1, end) ==
            (if journal[from - 1] == Entry(true) then [from - 1] else []) + Shown(journal, from, end)
  {
    ShownSplit(journal, from - 1, from, end);
    assert Shown(journal, from - 1, from - 1) == [];
  }

  lemma {:induction false} LastReadFromBelow(journal: Journal, from: nat, end: nat)
    requires 0 < from <= end <= |journal|
    ensures LastRead(journal, from - 1, end) ==
            if LastRead(journal, from, end).Some? then LastRead(journal, from, end)
            else if journal[from - 1].Entry? then Some(from - 1) else None
    decreases end
  {
    if from < end && !journal[end - 1].Entry? {
      LastReadFromBelow(journal, from, end - 1);
    } else if from == end {
      assert LastRead(journal, from - 1, from - 1).None?;
    }
  }

  /** The replayed lines are the newest shown lines between `from` and the position where
      following starts. */
  predicate Gapless(journal: Journal, from: nat, replay: seq<nat>, follow: nat)
    requires follow <= |journal|
  {
    IsSuffix(replay, Shown(journal, from, follow))
  }

  /** Whatever is logged later: the replayed lines and then the followed lines are a suffix of
      all shown lines after the starting point, without a gap and without a repetition. */
  lemma ReplayThenFollow(journal: Journal, from: nat, replay: seq<nat>, follow: nat, later: Journal)
    requires from <= follow <= |journal| && journal <= later
    requires Gapless(journal, from, replay, follow)
    ensures IsSuffix(replay + Shown(later, follow, |later|), Shown(later, from, |later|))
    ensures replay == Shown(journal, from, follow) ==>
      replay + Shown(later, follow, |later|) == Shown(later, from, |later|)
  {
    ShownOfLonger(journal, later, from, follow);
    ShownSplit(later, from, follow, |later|);
    SuffixAppended(replay, Shown(journal, from, follow), Shown(later, follow, |later|));
  }

  lemma SuffixAppended(s: seq<nat>, t: seq<nat>, more: seq<nat>)
    requires IsSuffix(s, t)
    ensures IsSuffix(s + more, t + more)
  {}

  /** The scan after a cursor, continued behind the last entry it read, misses and repeats
      nothing. */
  lemma ForwardThenFollow(journal: Journal, from: nat, end: nat, later: Journal)
    requires from <= end <= |journal| && journal <= later
    ensures var last := LastRead(journal, from, end);
            var follow := if last.Some? then last.value + 1 else from;
            && from <= follow <= |journal|
            && Shown(later, from, follow) == Shown(journal, from, end)
  {
    NothingBehindLast(journal, from, end);
    var last := LastRead(journal, from, end);
    ShownOfLonger(journal, later, from, if last.Some? then last.value + 1 else from);
  }

  lemma ReverseThenFollow(journal: Journal, from: nat, later: Journal)
    requires from <= |journal| && journal <= later
    ensures LastRead(journal, from, |journal|).None? ==> Shown(journal, from, |journal|) == []
    ensures LastRead(journal, from, |journal|).Some? ==>
      var follow := LastRead(journal, from, |journal|).value + 1;
      follow <= |journal| && Gapless(later, 0, Shown(journal, from, |journal|), follow)
  {
    NothingBehindLast(journal, from, |journal|);
    var last := LastRead(journal, from, |journal|);
    if last.Some? {
      var follow := last.value + 1;
      ShownOfLonger(journal, later, 0, follow);
      ShownSplit(journal, 0, from, follow);
    }
  }

  /** A suffix of a split sequence. */
  lemma LongerSuffix(kept: seq<nat>, x: nat, limit: nat, all: seq<nat>)
    requires kept == LastUpTo(all, limit) && limit > 0
    ensures LastUpTo(all + [x], limit) == if |kept + [x]| > limit then (kept + [x])[1..] else kept + [x]
  {}

  /** `down` lists `up` from the end. */
  predicate Mirrors(down: seq<nat>, up: seq<nat>) {
    |down| == |up| && forall k :: 0 <= k < |down| ==> down[k] == up[|up| - 1 - k]
  }

  lemma MirrorsMore(down: seq<nat>, up: seq<nat>, x: nat)
    requires Mirrors(down, up)
    ensures Mirrors(down + [x], [x] + up)
  {}

  /** One more record is read, towards the older ones. */
  lemma ReadBackwards(journal: Journal, next: nat, read: seq<nat>, last: Option<nat>)
    requires next < |journal|
    requires Mirrors(read, Shown(journal, next + 1, |journal|)) && last == LastRead(journal, next + 1, |journal|)
    ensures LastRead(journal, next, |journal|) == if last.None? && journal[next].Entry? then Some(next) else last
    ensures Mirrors(if journal[next] == Entry(true) then read + [next] else read, Shown(journal, next, |journal|))
  {
    ShownFromBelow(journal, next + 1, |journal|);
    LastReadFromBelow(journal, next + 1, |journal|);
    if journal[next] == Entry(true) {
      MirrorsMore(read, Shown(journal, next + 1, |journal|), next);
    } else {
      assert [] + Shown(journal, next + 1, |journal|) == Shown(journal, next + 1, |journal|);
    }
  }

  lemma MirrorsOne(down: seq<nat>, up: seq<nat>, up': seq<nat>)
    requires Mirrors(down, up) && Mirrors(down, up')
    ensures up == up'
  {
    forall k | 0 <= k < |up| ensures up[k] == up'[k] {
      assert down[|down| - 1 - k] == up[k];
    }
  }

  lemma NewestShown(journal: Journal, oldest: nat, from: nat, backlog: nat)
    requires oldest <= from <= |journal| && |Shown(journal, from, |journal|)| <= backlog && backlog > 0
    ensures from == oldest || |Shown(journal, from, |journal|)| == backlog ==>
      && Shown(journal, from, |journal|) == LastUpTo(Shown(journal, oldest, |journal|), backlog)
      && LastRead(journal, from, |journal|) == LastRead(journal, oldest, |journal|)
  {
    ShownSplit(journal, oldest, from, |journal|);
    NothingBehindLast(journal, from, |journal|);
    LastReadFurther(journal, oldest, from, |journal|);
  }

  /** Reading further back finds no newer entry. */
  lemma {:induction false} LastReadFurther(journal: Journal, oldest: nat, from: nat, end: nat)
    requires oldest <= from <= end <= |journal|
    ensures LastRead(journal, from, end).Some? ==> LastRead(journal, oldest, end) == LastRead(journal, from, end)
    decreases end
  {
    if from < end && !journal[end - 1].Entry? { LastReadFurther(journal, oldest, from, end - 1); }
  }

  /** How far back a scan without a cursor goes. */
  function Oldest(journal: Journal): (from: nat)
    ensures from <= |journal|
  {
    if |journal| > SCAN_LIMIT then |journal| - SCAN_LIMIT else 0
  }

  function Newest(journal: Journal, backlog: nat): seq<nat> {
    LastUpTo(Shown(journal, Oldest(journal), |journal|), backlog)
  }

  function NewestRead(journal: Journal): Option<nat> {
    LastRead(journal, Oldest(journal), |journal|)
  }

  function Behind(last: Option<nat>): Option<nat> {
    if last.Some? then Some(last.value + 1) else None
  }

  /** What a request with a cursor is due: the newest 500 lines behind it, and from there on. */
  function ResumedStream(journal: Journal, position: nat): Response
    requires position < |journal|
  {
    var last := LastRead(journal, position + 1, |journal|);
    Stream(LastUpTo(Shown(journal, position + 1, |journal|), REPLAY_LIMIT), if last.Some? then last.value + 1 else position + 1)
  }

  /** What a request without one is due; `end` is where the journal ends when following starts. */
  function RecentStream(journal: Journal, backlog: nat, end: nat): Response {
    var last := NewestRead(journal);
    if backlog == 0 || last.None? then Stream([], end) else Stream(Newest(journal, backlog), last.value + 1)
  }

  /** What is asked for: nothing, a cursor the journal knows, one it does not know (any more), or
      no cursor at all. */
  datatype Point = NoCursor | At(position: nat) | Unresolved | Malformed

  datatype Response = BadRequest | BadGateway | Stream(replay: seq<nat>, follow: nat)

  datatype Mode = Resumed | Recent | LiveEnd

  class Console {
    var journal: Journal
    ghost var faults: nat  // scans of the journal that broke off or died

    constructor (journal: Journal)
      ensures this.journal == journal && faults == 0
    {
      this.journal, faults := journal, 0;
    }

    /** Other processes log. */
    method Grow()
      modifies this`journal
      ensures old(journal) <= journal
    {
      var more: Journal := *;
      journal := journal + more;
    }

    /** The scan after a cursor: the newest at most 500 shown lines of what could be read. */
    method ReplayForward(from: nat) returns (entries: seq<nat>, last: Option<nat>, failed: bool, end: nat)
      requires from <= |journal|
      modifies this`faults
      ensures faults == old(faults) + if failed then 1 else 0
      ensures from <= end <= |journal| && (!failed ==> end == |journal|)
      ensures entries == LastUpTo(Shown(journal, from, end), REPLAY_LIMIT)
      ensures last == LastRead(journal, from, end)
    {
      entries, last := [], None;
      var next := from;
      while next < |journal|
        invariant from <= next <= |journal|
        invariant entries == LastUpTo(Shown(journal, from, next), REPLAY_LIMIT)
        invariant last == LastRead(journal, from, next) && faults == old(faults)
      {
        if * {
          faults := faults + 1;
          return entries, last, true, next;  // the line is too long, or journalctl died
        }
        var record := journal[next];
        next := next + 1;
        if record.Unreadable? { continue; }
        last := Some(next - 1);
        if !record.shown { continue; }
        LongerSuffix(entries, next - 1, REPLAY_LIMIT, Shown(journal, from, next - 1));
        entries := entries + [next - 1];
        if |entries| > REPLAY_LIMIT {
          entries := entries[1..];
        }
      }
      failed := *;
      end := next;
      if failed { faults := faults + 1; }
    }

    static method ReverseEntries(read: seq<nat>) returns (entries: seq<nat>)
      ensures Mirrors(read, entries)
    {
      entries := read;
      var i, j := 0, |entries| - 1;
      while i < j
        invariant 0 <= i <= j + 1 <= |read| && i + j == |read| - 1 && |entries| == |read|
        invariant forall k :: 0 <= k < i ==> entries[k] == read[|read| - 1 - k]
        invariant forall k :: j < k < |read| ==> entries[k] == read[|read| - 1 - k]
        invariant forall k :: i <= k <= j ==> entries[k] == read[k]
        decreases j - i
      {
        entries := entries[i := entries[j]][j := entries[i]];
        i, j := i + 1, j - 1;
      }
    }

    /** Reads records from the newest one back to `oldest`, until enough lines are found. */
    method ScanBack(backlog: nat, oldest: nat) returns (read: seq<nat>, last: Option<nat>, next: nat, broken: bool)
      requires 0 < backlog && oldest <= |journal|
      ensures broken ==> |read| < backlog
      ensures oldest <= next <= |journal| && |read| <= backlog && (!broken && |read| < backlog ==> next == oldest)
      ensures Mirrors(read, Shown(journal, next, |journal|)) && last == LastRead(journal, next, |journal|)
    {
      read, last, next, broken := [], None, |journal|, false;
      assert Shown(journal, next, |journal|) == [] && LastRead(journal, next, |journal|) == None && Mirrors([], []);
      hide *;
      while next > oldest && |read| < backlog && !broken
        invariant oldest <= next <= |journal| && |read| <= backlog && (broken ==> |read| < backlog)
        invariant Mirrors(read, Shown(journal, next, |journal|)) && last == LastRead(journal, next, |journal|)
        decreases next, !broken
      {
        if * {
          broken := true;
        } else {
          next := next - 1;
          ReadBackwards(journal, next, read, last);
          if journal[next].Entry? {
            if last.None? { last := Some(next); }
            if journal[next].shown { read := read + [next]; }
          }
        }
      }
    }

    /** The scan of the newest records, newest first, until enough lines are found: the newest at
        most `backlog` shown lines of the scanned part, oldest first. */
    method ReplayReverse(backlog: nat) returns (entries: seq<nat>, last: Option<nat>, failed: bool, from: nat)
      requires 0 < backlog <= REPLAY_LIMIT
      modifies this`faults
      ensures faults == old(faults) + if failed then 1 else 0
      ensures from <= |journal| && entries == Shown(journal, from, |journal|) && |entries| <= backlog
      ensures last == LastRead(journal, from, |journal|)
      ensures !failed ==> entries == Newest(journal, backlog) && last == NewestRead(journal)
      ensures |entries| == backlog ==> !failed
    {
      hide Shown, LastRead;
      var oldest := Oldest(journal);
      var read, broken;
      read, last, from, broken := ScanBack(backlog, oldest);
      var died: bool := *;
      failed := broken || (died && |read| < backlog);
      if failed { faults := faults + 1; }
      entries := ReverseEntries(read);
      MirrorsOne(read, entries, Shown(journal, from, |journal|));
      NewestShown(journal, oldest, from, backlog);
    }

    /** Resuming behind a cursor. */
    method Resume(position: nat) returns (replay: seq<nat>, follow: nat, failed: bool, ghost seen: Journal)
      requires position < |journal|
      modifies this
      ensures old(journal) <= seen == journal && position < follow <= |journal|
      ensures faults == old(faults) + if failed then 1 else 0
      ensures replay == LastUpTo(Shown(journal, position + 1, follow), REPLAY_LIMIT)
      ensures !failed ==> Stream(replay, follow) == ResumedStream(seen, position)
    {
      Grow();
      seen := journal;
      var last, end;
      replay, last, failed, end := ReplayForward(position + 1);
      ForwardThenFollow(journal, position + 1, end, journal);
      follow := if last.Some? then last.value + 1 else position + 1;
    }

    /** The newest lines; `follow` is absent if no entry was read. */
    method ReadRecent(backlog: nat) returns (replay: seq<nat>, follow: Option<nat>, failed: bool, ghost seen: Journal)
      requires 0 < backlog <= REPLAY_LIMIT
      modifies this
      ensures old(journal) <= seen == journal && |replay| <= backlog
      ensures faults == old(faults) + if failed then 1 else 0
      ensures follow.None? ==> replay == []
      ensures follow.Some? ==> follow.value <= |journal| && Gapless(journal, 0, replay, follow.value)
      ensures !failed ==> replay == Newest(seen, backlog) && follow == Behind(NewestRead(seen))
    {
      Grow();
      seen := journal;
      var last, from;
      replay, last, failed, from := ReplayReverse(backlog);
      ReverseThenFollow(journal, from, journal);
      follow := if last.Some? then Some(last.value + 1) else None;
    }

    /** The answer to one console request; `mode` says where the replay starts, `seen` is the
        journal that was scanned, and `got` the shown lines that were read.  If no scan broke off, the answer is exactly: behind a cursor the
        newest lines logged since, and otherwise the newest lines of the scanned tail, followed from
        the newest entry read. */
    method HandleConsole(point: Point, backlog: int)
      returns (response: Response, ghost mode: Mode, ghost seen: Journal, ghost got: seq<nat>)
      requires point.At? ==> point.position < |journal|
      modifies this
      ensures old(journal) <= seen <= journal && faults >= old(faults)
      ensures response.BadRequest? <==> point.Malformed? || backlog < 0 || backlog > REPLAY_LIMIT
      ensures response.BadGateway? ==> faults > old(faults)
      ensures response.Stream? ==> response.follow <= |journal|
      ensures response.Stream? && point.At? && faults == old(faults) ==>
        mode.Resumed? && response == ResumedStream(seen, point.position)
      ensures response.Stream? && !point.At? && faults == old(faults) ==>
        response == RecentStream(seen, if point.NoCursor? then backlog else FALLBACK_BACKLOG, |journal|)
      ensures response.Stream? && mode.Resumed? && response.replay == [] ==> faults == old(faults)
      ensures if response.BadGateway? then got == [] else response.Stream? ==> response.replay == got
      ensures response.Stream? && mode.Resumed? ==>
        && point.At? && point.position < response.follow
        && response.replay == LastUpTo(Shown(journal, point.position + 1, response.follow), REPLAY_LIMIT)
        && Gapless(journal, point.position + 1, response.replay, response.follow)
      ensures response.Stream? && mode.Recent? ==>
        && |response.replay| <= (if point.NoCursor? then backlog else FALLBACK_BACKLOG)
        && Gapless(journal, 0, response.replay, response.follow)
      ensures response.Stream? && mode.LiveEnd? ==> response.replay == [] && response.follow == |journal|
    {
      mode, seen, got := LiveEnd, journal, [];
      if point.Malformed? || backlog < 0 || backlog > REPLAY_LIMIT { return BadRequest, mode, seen, got; }
      if point.At? {
        var replay, follow, failed;
        replay, follow, failed, seen := Resume(point.position);
        if !failed || |replay| > 0 {
          Grow();
          ShownOfLonger(seen, journal, point.position + 1, follow);
          return Stream(replay, follow), Resumed, seen, replay;
        }
      }
      if point.NoCursor? && backlog == 0 {
        Grow();
        return Stream([], |journal|), mode, seen, got;
      }
      response, mode, seen, got := StreamRecent(if point.NoCursor? then backlog else FALLBACK_BACKLOG);
    }

    /** A backlog request, or the fallback when the cursor does not resolve any more. */
    method StreamRecent(backlog: nat)
      returns (response: Response, ghost mode: Mode, ghost seen: Journal, ghost got: seq<nat>)
      requires 0 < backlog <= REPLAY_LIMIT
      modifies this
      ensures old(journal) <= seen <= journal && faults >= old(faults) && !response.BadRequest? && !mode.Resumed?
      ensures response.BadGateway? ==> faults > old(faults)
      ensures if response.BadGateway? then got == [] else response.Stream? ==> response.replay == got
      ensures response.Stream? ==> response.follow <= |journal| && |response.replay| <= backlog
      ensures response.Stream? && faults == old(faults) ==> response == RecentStream(seen, backlog, |journal|)
      ensures response.Stream? && mode.Recent? ==> Gapless(journal, 0, response.replay, response.follow)
      ensures response.Stream? && mode.LiveEnd? ==> response.replay == [] && response.follow == |journal|
    {
      var replay, follow, failed;
      replay, follow, failed, seen := ReadRecent(backlog);
      mode := if follow.Some? then Recent else LiveEnd;
      got := replay;
      if failed && |replay| == 0 { return BadGateway, mode, seen, got; }
      Grow();
      if follow.Some? { ShownOfLonger(seen, journal, 0, follow.value); }
      response := Stream(replay, if follow.Some? then follow.value else |journal|);
    }
  }
}
