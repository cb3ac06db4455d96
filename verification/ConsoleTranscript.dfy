/** The stored console transcript of a server and the viewers that fill it
    (AppendConsoleHistory and LastConsoleCursor in database/database.go, ServeWS in
    api/console_handler.go).

    The shown lines of the journal are numbered in order, and that number stands for the line's
    cursor.  Every viewer receives the lines behind its starting point without a gap, as
    ConsoleReplay proves, and stores each one; viewers interleave freely.  An error of storing a
    line is discarded, so any line may be lost, and a cursor that cannot be read or resolved
    counts as none. */
module ConsoleTranscript {
  import ConsoleReplay
  import opened Sequences
  import opened Wrappers

  const REPLAY_LIMIT: nat := 500
  const INITIAL_BACKLOG: nat := 200

  /** A stored row: a line of the server, or something without a cursor. */
  type Row = Option<nat>

  /** A limit that is not positive stands for the default. */
  function Limit(limit: int): (n: nat)
    ensures n > 0
  {
    if limit <= 0 then 500 else limit
  }

  /** A line whose cursor is stored is skipped; the transcript is trimmed either way. */
  function Append(rows: seq<Row>, row: Row, limit: int): seq<Row> {
    LastUpTo(if row.Some? && row in rows then rows else rows + [row], Limit(limit))
  }

  function LastCursor(rows: seq<Row>): Option<nat> {
    if rows == [] then None
    else if rows[|rows| - 1].Some? then rows[|rows| - 1]
    else LastCursor(rows[..|rows| - 1])
  }

  /** The server's lines in the transcript. */
  function Outputs(rows: seq<Row>): seq<nat> {
    if rows == [] then []
    else Outputs(rows[..|rows| - 1]) + if rows[|rows| - 1].Some? then [rows[|rows| - 1].value] else []
  }

  /** Consecutive lines, each once. */
  predicate Consecutive(o: seq<nat>) {
    forall i :: 0 <= i < |o| ==> o[i] == o[0] + i
  }

  lemma {:induction false} OutputsMembers(rows: seq<Row>)
    ensures forall n :: n in Outputs(rows) <==> Some(n) in rows
    ensures LastCursor(rows) == if Outputs(rows) == [] then None else Some(Outputs(rows)[|Outputs(rows)| - 1])
  {
    if rows != [] {
      var front, last := rows[..|rows| - 1], rows[|rows| - 1];
      OutputsMembers(front);
      assert forall r :: r in rows <==> r in front || r == last by { assert rows == front + [last]; }
    }
  }

  lemma OutputsAppend(rows: seq<Row>, row: Row)
    ensures Outputs(rows + [row]) == Outputs(rows) + if row.Some? then [row.value] else []
  {
    assert (rows + [row])[..|rows|] == rows;
  }

  lemma {:induction false} OutputsTail(rows: seq<Row>)
    requires rows != []
    ensures rows[0].Some? ==> Outputs(rows) != []
    ensures Outputs(rows[1..]) == if rows[0].Some? then Outputs(rows)[1..] else Outputs(rows)
  {
    if |rows| == 1 {
      assert rows[1..] == [] && rows[..0] == [] && Outputs(rows[..0]) == [];
    } else {
      OutputsTail(rows[..|rows| - 1]);
      assert rows[1..][..|rows| - 2] == rows[..|rows| - 1][1..];
    }
  }

  /** One more row, at most one trimmed: the stored lines lose their first one exactly if the
      transcript is full and begins with it. */
  lemma OutputsStored(rows: seq<Row>, row: Row, limit: int)
    requires |rows| <= Limit(limit)
    ensures |Append(rows, row, limit)| <= Limit(limit)
    ensures row.Some? && row in rows ==> Append(rows, row, limit) == rows
    ensures !(row.Some? && row in rows) ==>
      var o := Outputs(rows) + if row.Some? then [row.value] else [];
      Outputs(Append(rows, row, limit)) == if |rows| == Limit(limit) && rows[0].Some? && o != [] then o[1..] else o
  {
    OutputsAppend(rows, row);
    OutputsTail(rows + [row]);
    if rows != [] { OutputsTail(rows); }
  }

  /** One more row would push out the only stored line. */
  predicate OnlyOldest(rows: seq<Row>, limit: int) {
    |rows| == Limit(limit) && rows[0].Some? && |Outputs(rows)| == 1
  }

  // ---------------------------------------------------------------- viewers

  datatype State = State(rows: seq<Row>, logged: nat, viewers: map<nat, nat>)

  /** `stored` says that the row took effect in the database. */
  datatype Action =
    | Log                           // the server prints a line
    | Open(viewer: nat, start: nat)
    | Deliver(viewer: nat, stored: bool)
    | Command(stored: bool)         // a viewer's input or its result
    | Close(viewer: nat)

  const INITIAL := State([], 0, map[])

  /** Where a viewer starts: right behind the newest stored line, or later if more lines than the
      replay limit follow it; without a cursor that can be used at some recent line. */
  predicate StartsAt(s: State, start: nat) {
    || (start <= s.logged <= start + INITIAL_BACKLOG)
    || match LastCursor(s.rows)
       case Some(c) => start == c + 1 || (start > c && start + REPLAY_LIMIT <= s.logged)
       case None => false
  }

  // ---------------------------------------------------------------- where the node makes viewers start

  ghost predicate ShownInOrder(journal: ConsoleReplay.Journal, from: nat, end: nat, lines: seq<nat>) {
    && (forall i :: 0 <= i < |lines| ==> from <= lines[i] < end && lines[i] < |journal| && journal[lines[i]] == ConsoleReplay.Entry(true))
    && (forall i, j :: 0 <= i < j < |lines| ==> lines[i] < lines[j])
  }

  lemma OneMoreInOrder(journal: ConsoleReplay.Journal, from: nat, end: nat, lines: seq<nat>)
    requires from <= end < |journal| && ShownInOrder(journal, from, end, lines)
    ensures ShownInOrder(journal, from, end + 1, lines)
    ensures journal[end] == ConsoleReplay.Entry(true) ==> ShownInOrder(journal, from, end + 1, lines + [end])
  {}

  lemma {:induction false} ShownAscends(journal: ConsoleReplay.Journal, from: nat, end: nat)
    requires end <= |journal|
    ensures ShownInOrder(journal, from, end, ConsoleReplay.Shown(journal, from, end))
    decreases end
  {
    if from < end {
      ShownAscends(journal, from, end - 1);
      OneMoreInOrder(journal, from, end - 1, ConsoleReplay.Shown(journal, from, end - 1));
    }
  }

  /** The lines up to the c-th one are c + 1. */
  lemma LinesUpTo(journal: ConsoleReplay.Journal, c: nat)
    requires c < |ConsoleReplay.Shown(journal, 0, |journal|)|
    ensures var position := ConsoleReplay.Shown(journal, 0, |journal|)[c];
            && position < |journal| && |ConsoleReplay.Shown(journal, 0, position + 1)| == c + 1
            && ConsoleReplay.Shown(journal, 0, |journal|) ==
               ConsoleReplay.Shown(journal, 0, position + 1) + ConsoleReplay.Shown(journal, position + 1, |journal|)
  {
    var all := ConsoleReplay.Shown(journal, 0, |journal|);
    ShownAscends(journal, 0, |journal|);
    var position := all[c];
    var upTo, behind := ConsoleReplay.Shown(journal, 0, position + 1), ConsoleReplay.Shown(journal, position + 1, |journal|);
    ConsoleReplay.ShownSplit(journal, 0, position + 1, |journal|);
    assert upTo[|upTo| - 1] == position;
    assert all == upTo + behind;
    ShownAscends(journal, 0, position + 1);
    assert all[|upTo| - 1] == position;
  }

  /** A viewer that resumes behind the newest stored line gets every line from one of the starts
      allowed here, whatever is logged later. */
  lemma ResumedViewerStarts(s: State, journal: ConsoleReplay.Journal, later: ConsoleReplay.Journal)
    requires journal <= later && s.logged == |ConsoleReplay.Shown(journal, 0, |journal|)|
    requires LastCursor(s.rows).Some? && LastCursor(s.rows).value < s.logged
    ensures var lines, all := ConsoleReplay.Shown(journal, 0, |journal|), ConsoleReplay.Shown(later, 0, |later|);
            var position := lines[LastCursor(s.rows).value];
            position < |journal| &&
            var stream := ConsoleReplay.ResumedStream(journal, position);
            var start := |lines| - |stream.replay|;
            && stream.follow <= |later| && 0 <= start <= |all|
            && stream.replay + ConsoleReplay.Shown(later, stream.follow, |later|) == all[start..]
            && StartsAt(s, start)
  {
    var c := LastCursor(s.rows).value;
    LinesUpTo(journal, c);
    var position := ConsoleReplay.Shown(journal, 0, |journal|)[c];
    var stream := ConsoleReplay.ResumedStream(journal, position);
    ConsoleReplay.NothingBehindLast(journal, position + 1, |journal|);
    SuffixDelivered(journal, later, position + 1, stream.follow, stream.replay);
  }

  lemma SuffixDelivered(journal: ConsoleReplay.Journal, later: ConsoleReplay.Journal, from: nat, follow: nat, replay: seq<nat>)
    requires journal <= later && from <= follow <= |journal|
    requires ConsoleReplay.IsSuffix(replay, ConsoleReplay.Shown(journal, from, follow))
    requires ConsoleReplay.Shown(journal, follow, |journal|) == []
    ensures var lines, all := ConsoleReplay.Shown(journal, 0, |journal|), ConsoleReplay.Shown(later, 0, |later|);
            |replay| <= |lines| <= |all| && replay + ConsoleReplay.Shown(later, follow, |later|) == all[|lines| - |replay|..]
  {
    ConsoleReplay.ShownSplit(journal, 0, from, follow);
    ConsoleReplay.ShownSplit(journal, 0, follow, |journal|);
    ConsoleReplay.ShownOfLonger(journal, later, 0, follow);
    ConsoleReplay.ShownSplit(later, 0, follow, |later|);
    var lines, rest := ConsoleReplay.Shown(journal, 0, follow), ConsoleReplay.Shown(later, follow, |later|);
    assert lines + [] == lines;
    assert (lines + rest)[|lines| - |replay|..] == lines[|lines| - |replay|..] + rest;
  }

  /** So does a viewer without a cursor that can be used. */
  lemma RecentViewerStarts(s: State, journal: ConsoleReplay.Journal, later: ConsoleReplay.Journal, backlog: nat)
    requires journal <= later && 0 < backlog <= INITIAL_BACKLOG && s.logged == |ConsoleReplay.Shown(journal, 0, |journal|)|
    ensures var lines, all := ConsoleReplay.Shown(journal, 0, |journal|), ConsoleReplay.Shown(later, 0, |later|);
            var stream := ConsoleReplay.RecentStream(journal, backlog, |journal|);
            var start := |lines| - |stream.replay|;
            && stream.follow <= |later| && 0 <= start <= |all|
            && stream.replay + ConsoleReplay.Shown(later, stream.follow, |later|) == all[start..]
            && StartsAt(s, start)
  {
    var stream := ConsoleReplay.RecentStream(journal, backlog, |journal|);
    var oldest := ConsoleReplay.Oldest(journal);
    ConsoleReplay.NothingBehindLast(journal, oldest, |journal|);
    if ConsoleReplay.NewestRead(journal).Some? {
      SuffixDelivered(journal, later, oldest, stream.follow, stream.replay);
    } else {
      assert ConsoleReplay.Shown(journal, |journal|, |journal|) == [];
      SuffixDelivered(journal, later, oldest, |journal|, []);
    }
  }

  predicate Enabled(s: State, a: Action) {
    match a
    case Log => true
    case Open(v, start) => v !in s.viewers && StartsAt(s, start)
    case Deliver(v, _) => v in s.viewers && s.viewers[v] < s.logged
    case Command(_) => true
    case Close(v) => v in s.viewers
  }

  function Next(s: State, a: Action, limit: int): State
    requires Enabled(s, a)
  {
    match a
    case Log => s.(logged := s.logged + 1)
    case Open(v, start) => s.(viewers := s.viewers[v := start])
    case Deliver(v, stored) =>
      s.(rows := if stored then Append(s.rows, Some(s.viewers[v]), limit) else s.rows,
         viewers := s.viewers[v := s.viewers[v] + 1])
    case Command(stored) => s.(rows := if stored then Append(s.rows, None, limit) else s.rows)
    case Close(v) => s.(viewers := s.viewers - {v})
  }

  /** The stored lines are consecutive, each once and in order. */
  predicate Gapless(s: State, limit: int) {
    |s.rows| <= Limit(limit) && Consecutive(Outputs(s.rows))
  }

  /** The cursor a new viewer resumes from does not move back and is not lost. */
  predicate CursorKept(s: State, s': State) {
    LastCursor(s.rows).Some? ==> LastCursor(s'.rows).Some? && LastCursor(s'.rows).value >= LastCursor(s.rows).value
  }

  /** The guard of a harmless step: a line is stored that is among those stored or right behind
      them, or that takes the place of the only one, in a full transcript; and no input pushes
      the only stored line out. */
  predicate Orderly(s: State, a: Action, limit: int)
    requires Enabled(s, a)
  {
    var o := Outputs(s.rows);
    match a
    case Deliver(v, stored) =>
      stored && o != [] ==> var n := s.viewers[v];
        o[0] <= n <= o[|o| - 1] + 1 || (OnlyOldest(s.rows, limit) && n > o[0])
    case Command(stored) => !(stored && OnlyOldest(s.rows, limit))
    case _ => true
  }

  // ---------------------------------------------------------------- runs

  ghost predicate Possible(s: State, acts: seq<Action>, limit: int)
    decreases |acts|
  {
    acts == [] || (Enabled(s, acts[0]) && Possible(Next(s, acts[0], limit), acts[1..], limit))
  }

  ghost function Run(s: State, acts: seq<Action>, limit: int): State
    requires Possible(s, acts, limit)
    decreases |acts|
  {
    if acts == [] then s else Run(Next(s, acts[0], limit), acts[1..], limit)
  }

  ghost predicate EveryStepOrderly(s: State, acts: seq<Action>, limit: int)
    requires Possible(s, acts, limit)
    decreases |acts|
  {
    acts == [] || (Orderly(s, acts[0], limit) && EveryStepOrderly(Next(s, acts[0], limit), acts[1..], limit))
  }

  ghost predicate EveryStateGapless(s: State, acts: seq<Action>, limit: int)
    requires Possible(s, acts, limit)
    decreases |acts|
  {
    Gapless(s, limit) &&
    (acts == [] || (var s' := Next(s, acts[0], limit); CursorKept(s, s') && EveryStateGapless(s', acts[1..], limit)))
  }

  lemma ConsecutiveNext(o: seq<nat>, n: nat)
    requires Consecutive(o) && (o != [] ==> n == o[|o| - 1] + 1)
    ensures Consecutive(o + [n]) && Consecutive((o + [n])[1..])
  {
    if o != [] { assert o[|o| - 1] == o[0] + (|o| - 1); }
  }

  lemma ConsecutiveTail(o: seq<nat>)
    requires Consecutive(o) && o != []
    ensures Consecutive(o[1..])
  {}

  lemma ConsecutiveHas(o: seq<nat>, n: nat)
    requires Consecutive(o) && o != []
    ensures n in o <==> o[0] <= n <= o[|o| - 1]
  {
    assert o[|o| - 1] == o[0] + (|o| - 1);
    if o[0] <= n <= o[|o| - 1] { assert o[n - o[0]] == n; }
  }

  /** What the stored lines are after one that is not older than all of them. */
  lemma Delivered(rows: seq<Row>, n: nat, limit: int)
    requires |rows| <= Limit(limit) && Consecutive(Outputs(rows))
    requires Outputs(rows) != [] ==> Outputs(rows)[0] <= n <= Outputs(rows)[|Outputs(rows)| - 1] + 1
    ensures var o, o' := Outputs(rows), Outputs(Append(rows, Some(n), limit));
            && Consecutive(o') && o' != []
            && o'[|o'| - 1] == if o != [] && n <= o[|o| - 1] then o[|o| - 1] else n
  {
    var o := Outputs(rows);
    OutputsMembers(rows);
    OutputsStored(rows, Some(n), limit);
    hide Outputs, LastCursor, Append, Consecutive;
    if o == [] {
      EmptyOutputs(rows, n, limit);
      ConsecutiveNext(o, n);
    } else {
      ConsecutiveHas(o, n);
      if n > o[|o| - 1] { ConsecutiveNext(o, n); }
    }
  }

  /** A transcript without server lines keeps its first one. */
  lemma EmptyOutputs(rows: seq<Row>, n: nat, limit: int)
    requires |rows| <= Limit(limit) && Outputs(rows) == []
    ensures Outputs(Append(rows, Some(n), limit)) == [n]
  {
    OutputsMembers(rows);
    var longer := rows + [Some(n)];
    OutputsAppend(rows, Some(n));
    OutputsTail(longer);
    if |rows| == Limit(limit) { assert longer[0] == rows[0] && rows[0] in rows; }
  }

  /** A viewer that lags behind everything stored is the one that does harm: storing its line
      moves the cursor back, so a later viewer resumes from an old line.  A line is stored without
      moving the cursor back exactly when it is not older than all that is stored. */
  lemma CursorNeverGoesBack(rows: seq<Row>, n: nat, limit: int)
    requires |rows| <= Limit(limit) && Outputs(rows) != [] && Consecutive(Outputs(rows))
    ensures LastCursor(rows).Some? && LastCursor(Append(rows, Some(n), limit)).Some?
    ensures LastCursor(Append(rows, Some(n), limit)).value >= LastCursor(rows).value <==> n >= Outputs(rows)[0]
  {
    var o := Outputs(rows);
    OutputsMembers(rows);
    ConsecutiveHas(o, n);
    if n in o {
      OutputsStored(rows, Some(n), limit);
    } else {
      assert Append(rows, Some(n), limit)[|Append(rows, Some(n), limit)| - 1] == Some(n);
    }
  }

  /** Skipping a line leaves a gap, unless there is nothing left to leave one to. */
  lemma SkippedLine(rows: seq<Row>, n: nat, limit: int)
    requires |rows| <= Limit(limit) && Consecutive(Outputs(rows)) && Outputs(rows) != []
    requires n > Outputs(rows)[|Outputs(rows)| - 1] + 1
    ensures Consecutive(Outputs(Append(rows, Some(n), limit))) <==> OnlyOldest(rows, limit)
  {
    var o := Outputs(rows);
    OutputsMembers(rows);
    OutputsStored(rows, Some(n), limit);
    ConsecutiveHas(o, n);
    hide Outputs, Append;
    var all := o + [n];
    assert o[|o| - 1] == o[0] + (|o| - 1);
    if |o| > 1 {
      assert all[|o|] == n && all[1..][|o| - 1] == n && all[1..][0] == o[1] == o[0] + 1;
    } else {
      assert all[1] == n && all[1..] == [n];
    }
  }

  /** Storing one line, exactly. */
  lemma LineExactly(rows: seq<Row>, n: nat, limit: int)
    requires |rows| <= Limit(limit) && Consecutive(Outputs(rows))
    ensures var o, rows' := Outputs(rows), Append(rows, Some(n), limit);
            && Consecutive(Outputs(rows'))
            && (LastCursor(rows).Some? ==> LastCursor(rows').Some? && LastCursor(rows').value >= LastCursor(rows).value)
            <==> o == [] || o[0] <= n <= o[|o| - 1] + 1 || (OnlyOldest(rows, limit) && n > o[0])
  {
    var o := Outputs(rows);
    OutputsMembers(rows);
    if o == [] {
      EmptyOutputs(rows, n, limit);
      ConsecutiveNext([], n);
      assert [] + [n] == [n];
    } else {
      CursorNeverGoesBack(rows, n, limit);
      if n > o[|o| - 1] + 1 {
        SkippedLine(rows, n, limit);
      } else if n >= o[0] {
        Delivered(rows, n, limit);
      }
      hide Outputs, LastCursor, Append, Consecutive;
      assert OnlyOldest(rows, limit) && n > o[0] ==> n >= o[|o| - 1] + 1;
    }
  }

  lemma DeliverExactly(s: State, v: nat, stored: bool, limit: int)
    requires Gapless(s, limit) && Enabled(s, Deliver(v, stored))
    ensures var a := Deliver(v, stored); var s' := Next(s, a, limit);
            Gapless(s', limit) && CursorKept(s, s') <==> Orderly(s, a, limit)
  {
    LineExactly(s.rows, s.viewers[v], limit);
    OutputsStored(s.rows, Some(s.viewers[v]), limit);
    hide Outputs, LastCursor, Append, Consecutive, OnlyOldest;
  }

  lemma CommandExactly(s: State, stored: bool, limit: int)
    requires Gapless(s, limit)
    ensures var a := Command(stored); var s' := Next(s, a, limit);
            Gapless(s', limit) && CursorKept(s, s') <==> Orderly(s, a, limit)
  {
    var o := Outputs(s.rows);
    OutputsMembers(s.rows);
    OutputsMembers(Append(s.rows, None, limit));
    hide Outputs, LastCursor, Append, Consecutive;
    OutputsStored(s.rows, None, limit);
    assert o + [] == o;
    if o != [] { ConsecutiveTail(o); }
  }

  /** Exactly the orderly steps keep the stored lines consecutive and the resume cursor in place. */
  lemma StepExactly(s: State, a: Action, limit: int)
    requires Gapless(s, limit) && Enabled(s, a)
    ensures var s' := Next(s, a, limit);
            Gapless(s', limit) && CursorKept(s, s') <==> Orderly(s, a, limit)
  {
    match a
    case Deliver(v, stored) => DeliverExactly(s, v, stored, limit);
    case Command(stored) => CommandExactly(s, stored, limit);
    case _ =>
  }

  lemma {:induction false} RunExactly(s: State, acts: seq<Action>, limit: int)
    requires Gapless(s, limit) && Possible(s, acts, limit)
    ensures EveryStateGapless(s, acts, limit) <==> EveryStepOrderly(s, acts, limit)
    ensures EveryStepOrderly(s, acts, limit) ==> Gapless(Run(s, acts, limit), limit)
    decreases |acts|
  {
    hide Gapless, Enabled, Orderly, CursorKept, Next;
    if acts != [] {
      var s' := Next(s, acts[0], limit);
      StepExactly(s, acts[0], limit);
      if Gapless(s', limit) { RunExactly(s', acts[1..], limit); }
    }
  }

  /** However many viewers come, go and interleave, and whatever is lost: over a run from the empty
      transcript the stored lines stay consecutive and the resume cursor in place if and only if
      every step was orderly; a new viewer then resumes behind the last stored line. */
  lemma TranscriptIsGapless(acts: seq<Action>, limit: int)
    requires Possible(INITIAL, acts, limit)
    ensures EveryStateGapless(INITIAL, acts, limit) <==> EveryStepOrderly(INITIAL, acts, limit)
    ensures EveryStepOrderly(INITIAL, acts, limit) ==>
      var t := Run(INITIAL, acts, limit); var o := Outputs(t.rows);
      Consecutive(o) && LastCursor(t.rows) == if o == [] then None else Some(o[|o| - 1])
  {
    RunExactly(INITIAL, acts, limit);
    OutputsMembers(Run(INITIAL, acts, limit).rows);
  }

  // ---------------------------------------------------------------- viewers that do no harm

  /** A viewer starts where the others stand, or right behind what is stored; it stores no line
      that is older than everything stored, and loses none that nobody has stored; and input does
      not push the only stored line out. */
  predicate Steady(s: State, a: Action, limit: int)
    requires Enabled(s, a)
  {
    var o := Outputs(s.rows);
    match a
    case Open(_, start) =>
      if o == [] then forall v :: v in s.viewers ==> s.viewers[v] == start else start == o[|o| - 1] + 1
    case Deliver(v, stored) =>
      if o == [] then stored else if stored then s.viewers[v] >= o[0] else s.viewers[v] <= o[|o| - 1]
    case Command(stored) => !(stored && OnlyOldest(s.rows, limit))
    case _ => true
  }

  /** Every viewer continues within the stored lines or right behind; before the first line is
      stored, all viewers stand at the same one. */
  ghost predicate Sound(s: State, limit: int) {
    var o := Outputs(s.rows);
    && Gapless(s, limit)
    && (forall v :: v in s.viewers ==> s.viewers[v] <= s.logged)
    && (o != [] ==> o[|o| - 1] < s.logged && forall v :: v in s.viewers ==> s.viewers[v] <= o[|o| - 1] + 1)
    && (o == [] ==> forall v, w :: v in s.viewers && w in s.viewers ==> s.viewers[v] == s.viewers[w])
  }

  ghost predicate EveryStepSteady(s: State, acts: seq<Action>, limit: int)
    requires Possible(s, acts, limit)
    decreases |acts|
  {
    acts == [] || (Steady(s, acts[0], limit) && EveryStepSteady(Next(s, acts[0], limit), acts[1..], limit))
  }

  lemma DeliverKeepsSound(s: State, v: nat, limit: int)
    requires Sound(s, limit) && Enabled(s, Deliver(v, true)) && Steady(s, Deliver(v, true), limit)
    ensures Sound(Next(s, Deliver(v, true), limit), limit)
  {
    hide Outputs, LastCursor, Append, Consecutive;
    Delivered(s.rows, s.viewers[v], limit);
    OutputsStored(s.rows, Some(s.viewers[v]), limit);
  }

  /** Input that does not push the only line out leaves the last one. */
  lemma LastLineStays(rows: seq<Row>, limit: int)
    requires |rows| <= Limit(limit) && !OnlyOldest(rows, limit)
    ensures var o, o' := Outputs(rows), Outputs(Append(rows, None, limit));
            if o == [] then o' == [] else o' != [] && o'[|o'| - 1] == o[|o| - 1]
  {
    OutputsStored(rows, None, limit);
    assert Outputs(rows) + [] == Outputs(rows);
  }

  lemma CommandKeepsSound(s: State, stored: bool, limit: int)
    requires Sound(s, limit) && Steady(s, Command(stored), limit)
    ensures Sound(Next(s, Command(stored), limit), limit)
  {
    hide Outputs, LastCursor, Append, Consecutive, OnlyOldest;
    CommandExactly(s, stored, limit);
    if stored { LastLineStays(s.rows, limit); }
  }

  lemma OpenKeepsSound(s: State, v: nat, start: nat, limit: int)
    requires Sound(s, limit) && Enabled(s, Open(v, start)) && Steady(s, Open(v, start), limit)
    ensures Sound(Next(s, Open(v, start), limit), limit)
  {
    OutputsMembers(s.rows);
    hide Outputs, LastCursor, Append, Consecutive;
  }

  /** Viewers that keep together never disorder the transcript. */
  lemma SteadyIsOrderly(s: State, a: Action, limit: int)
    requires Sound(s, limit) && Enabled(s, a) && Steady(s, a, limit)
    ensures Orderly(s, a, limit) && Sound(Next(s, a, limit), limit)
  {
    match a
    case Deliver(v, stored) => if stored { DeliverKeepsSound(s, v, limit); }
    case Command(stored) => CommandKeepsSound(s, stored, limit);
    case Open(v, start) => OpenKeepsSound(s, v, start, limit);
    case _ =>
  }

  lemma {:induction false} SteadyRunIsOrderly(s: State, acts: seq<Action>, limit: int)
    requires Sound(s, limit) && Possible(s, acts, limit) && EveryStepSteady(s, acts, limit)
    ensures EveryStepOrderly(s, acts, limit) && Sound(Run(s, acts, limit), limit)
    decreases |acts|
  {
    hide Sound, Enabled, Steady, Orderly, Next;
    if acts != [] {
      SteadyIsOrderly(s, acts[0], limit);
      SteadyRunIsOrderly(Next(s, acts[0], limit), acts[1..], limit);
    }
  }

  // ---------------------------------------------------------------- runs that fail, and one that does not

  lemma OneMore(s: State, acts: seq<Action>, a: Action, limit: int)
    requires Enabled(s, a) && Possible(Next(s, a, limit), acts, limit)
    ensures Possible(s, [a] + acts, limit) && Run(s, [a] + acts, limit) == Run(Next(s, a, limit), acts, limit)
  {
    assert ([a] + acts)[1..] == acts;
  }

  /** Two viewers open a fresh transcript one line apart. */
  ghost function OneApart(rest: seq<Action>): seq<Action> {
    [Log] + ([Log] + ([Open(1, 0)] + ([Open(2, 1)] + rest)))
  }

  const APART := State([], 2, map[1 := 0, 2 := 1])

  lemma ReachesApart(rest: seq<Action>, limit: int)
    requires Possible(APART, rest, limit)
    ensures Possible(INITIAL, OneApart(rest), limit) && Run(INITIAL, OneApart(rest), limit) == Run(APART, rest, limit)
  {
    var s3 := State([], 2, map[1 := 0]);
    assert Next(s3, Open(2, 1), limit) == APART;
    assert Next(State([], 2, map[]), Open(1, 0), limit) == s3;
    OneMore(s3, rest, Open(2, 1), limit);
    OneMore(State([], 2, map[]), [Open(2, 1)] + rest, Open(1, 0), limit);
    OneMore(State([], 1, map[]), [Open(1, 0)] + ([Open(2, 1)] + rest), Log, limit);
    OneMore(INITIAL, [Log] + ([Open(1, 0)] + ([Open(2, 1)] + rest)), Log, limit);
  }

  /** If the later start is served first, the older line is stored behind the newer one, and the
      cursor moves back. */
  lemma FreshTranscriptDisorder(limit: int)
    requires Limit(limit) >= 2
    ensures var acts := OneApart([Deliver(2, true)] + []);
            Possible(INITIAL, acts, limit) && LastCursor(Run(INITIAL, acts, limit).rows) == Some(1)
    ensures var acts := OneApart([Deliver(2, true)] + ([Deliver(1, true)] + []));
            && Possible(INITIAL, acts, limit)
            && Run(INITIAL, acts, limit).rows == [Some(1), Some(0)]
            && LastCursor(Run(INITIAL, acts, limit).rows) == Some(0)
  {
    var s5 := State([Some(1)], 2, map[1 := 0, 2 := 2]);
    assert Next(APART, Deliver(2, true), limit) == s5;
    assert Next(s5, Deliver(1, true), limit) == State([Some(1), Some(0)], 2, map[1 := 1, 2 := 2]);
    OneMore(s5, [], Deliver(1, true), limit);
    OneMore(APART, [], Deliver(2, true), limit);
    OneMore(APART, [Deliver(1, true)] + [], Deliver(2, true), limit);
    ReachesApart([Deliver(2, true)] + [], limit);
    ReachesApart([Deliver(2, true)] + ([Deliver(1, true)] + []), limit);
  }

  /** If the earlier start is served first, the same two viewers do no harm, although the second
      did not start where the first one stood. */
  lemma NotSteadyButOrderly(limit: int)
    requires Limit(limit) >= 2
    ensures var acts := OneApart([Deliver(1, true)] + ([Deliver(2, true)] + []));
            && Possible(INITIAL, acts, limit)
            && Run(INITIAL, acts, limit).rows == [Some(0), Some(1)]
    ensures var s := State([], 2, map[1 := 0]); Enabled(s, Open(2, 1)) && !Steady(s, Open(2, 1), limit)
  {
    var s5 := State([Some(0)], 2, map[1 := 1, 2 := 1]);
    assert Next(APART, Deliver(1, true), limit) == s5;
    assert Next(s5, Deliver(2, true), limit) == State([Some(0), Some(1)], 2, map[1 := 1, 2 := 2]);
    OneMore(s5, [], Deliver(2, true), limit);
    OneMore(APART, [Deliver(2, true)] + [], Deliver(1, true), limit);
    ReachesApart([Deliver(1, true)] + ([Deliver(2, true)] + []), limit);
    assert State([], 2, map[1 := 0]).viewers[1] == 0;
  }

  /** A single viewer whose second line is not stored leaves a gap that no later viewer fills, since
      they resume behind the third. */
  lemma LostLineLeavesGap(limit: int)
    requires Limit(limit) >= 2
    ensures var acts := [Log] + ([Log] + ([Log] + ([Open(1, 0)] + ([Deliver(1, true)] + ([Deliver(1, false)] + ([Deliver(1, true)] + []))))));
            && Possible(INITIAL, acts, limit)
            && Run(INITIAL, acts, limit).rows == [Some(0), Some(2)]
            && LastCursor(Run(INITIAL, acts, limit).rows) == Some(2)
  {
    var s3, s4 := State([], 3, map[]), State([], 3, map[1 := 0]);
    var s5, s6 := State([Some(0)], 3, map[1 := 1]), State([Some(0)], 3, map[1 := 2]);
    assert Next(s3, Open(1, 0), limit) == s4;
    assert Next(s4, Deliver(1, true), limit) == s5;
    assert Next(s5, Deliver(1, false), limit) == s6;
    assert Next(s6, Deliver(1, true), limit) == State([Some(0), Some(2)], 3, map[1 := 3]);
    var r6 := [Deliver(1, true)] + [];
    var r5 := [Deliver(1, false)] + r6;
    var r4 := [Deliver(1, true)] + r5;
    var r3 := [Open(1, 0)] + r4;
    OneMore(s6, [], Deliver(1, true), limit);
    OneMore(s5, r6, Deliver(1, false), limit);
    OneMore(s4, r5, Deliver(1, true), limit);
    OneMore(s3, r4, Open(1, 0), limit);
    OneMore(State([], 2, map[]), r3, Log, limit);
    OneMore(State([], 1, map[]), [Log] + r3, Log, limit);
    OneMore(INITIAL, [Log] + ([Log] + r3), Log, limit);
  }
}
