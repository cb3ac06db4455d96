/** The event outbox of one stream and the event server it feeds (events/events.go).

    `World` holds everything durable about one stream: the two database tables, the
    server, and the messages on the network.  One `Action` is one atomic step of the
    program or of its environment, so a run of actions is an arbitrary interleaving of
    emitters, the flusher, crashes, lost or late messages, and server restarts. */
module EventOutbox {
  import opened Wrappers

  /** A CloudEvent.  Its random id is never reused; `number`, its place in the order of
      emission, stands for that identity here. */
  datatype Event = Event(number: nat, data: string)

  datatype Row = Row(id: nat, seqNo: int, event: Event)
  datatype Producer = Producer(epoch: int, nextSeq: int)
  datatype Request = Request(epoch: int, seqNo: int, event: Event)

  /** What the server remembers about this producer. */
  datatype ServerState = Unknown | Known(epoch: int, expected: nat)

  datatype Reply = Accepted | Conflict(expectedSeq: Option<int>)

  /** Where the single flusher of the process stands. */
  datatype Flusher =
    | Idle
    | Opened(epoch: int)
    | Sending(epoch: int, rest: seq<Row>)
    | Acked(epoch: int, rest: seq<Row>)
    | Conflicted

  datatype World = World(
    producer: Option<Producer>,  // row of event_producers
    outbox: seq<Row>,            // rows of event_outbox, by id
    nextId: nat,
    flusher: Flusher,
    server: ServerState,
    log: seq<Event>,             // records the server appended
    history: seq<Event>,         // every event ever enqueued, in order
    sent: set<Request>,          // every request ever handed to the network
    accepted: set<Request>)      // those the server appended

  datatype Action =
    | Enqueue(data: string, now: int)
    | ReadEpoch
    | ReadBatch(count: nat)      // a read that breaks off goes unnoticed
    | Send
    | Exchange(ackHeld: bool)    // the head request reaches the server and its answer comes back
    | Delete
    | Renumber(now: int)
    | Drop                       // crash, lost answer, refused append: the flush ends
    | Deliver(request: Request)  // a request arrives late or again; nobody reads the answer
    | Forget(server: ServerState)

  const BATCH := 200

  const INITIAL := World(None, [], 0, Idle, Unknown, [], [], {}, {})

  // ---------------------------------------------------------------- the server

  predicate Stale(server: ServerState, epoch: int) {
    server.Known? && epoch < server.epoch
  }

  function ExpectedSeq(server: ServerState, epoch: int): nat {
    if server.Known? && server.epoch == epoch then server.expected else 0
  }

  predicate Appends(server: ServerState, r: Request) {
    !Stale(server, r.epoch) && r.seqNo == ExpectedSeq(server, r.epoch)
  }

  /** An already held sequence may be answered with success or with the expected value. */
  function Answer(server: ServerState, r: Request, ackHeld: bool): Reply {
    var expected := ExpectedSeq(server, r.epoch);
    if Stale(server, r.epoch) then Conflict(None)
    else if r.seqNo == expected || (r.seqNo < expected && ackHeld) then Accepted
    else Conflict(Some(expected))
  }

  function ServerAfter(server: ServerState, r: Request): ServerState {
    if Appends(server, r) then Known(r.epoch, ExpectedSeq(server, r.epoch) + 1) else server
  }

  function Receive(w: World, r: Request): World {
    if Appends(w.server, r) then
      w.(server := ServerAfter(w.server, r),
         log := w.log + [r.event],
         accepted := w.accepted + {r})
    else w
  }

  predicate Held(accepted: set<Request>, epoch: int, seqNo: int) {
    exists r :: r in accepted && r.epoch == epoch && r.seqNo == seqNo
  }

  /** The server never claims to hold a sequence it did not append. */
  predicate Truthful(server: ServerState, accepted: set<Request>) {
    server.Known? ==> forall s :: 0 <= s < server.expected ==> Held(accepted, server.epoch, s)
  }

  // ---------------------------------------------------------------- the program

  /** A conflict that only says "already appended" counts as success. */
  predicate ExpectedAfter(reply: Reply, seqNo: int) {
    reply.Conflict? && reply.expectedSeq.Some? && reply.expectedSeq.value > seqNo
  }

  function Head(w: World): Request
    requires w.flusher.Sending? && w.flusher.rest != []
  {
    Request(w.flusher.epoch, w.flusher.rest[0].seqNo, w.flusher.rest[0].event)
  }

  function Remove(rows: seq<Row>, id: nat): seq<Row> {
    if rows == [] then []
    else if rows[0].id == id then Remove(rows[1..], id)
    else [rows[0]] + Remove(rows[1..], id)
  }

  function Renumbered(rows: seq<Row>): seq<Row> {
    seq(|rows|, i requires 0 <= i < |rows| => rows[i].(seqNo := i))
  }

  function NewEpoch(epoch: int, now: int): int {
    if now <= epoch then epoch + 1 else now
  }

  ghost predicate Enabled(w: World, a: Action) {
    match a
    case Enqueue(_, _) => true
    case ReadEpoch => w.flusher.Idle? && w.producer.Some?
    case ReadBatch(count) => w.flusher.Opened? && count <= |w.outbox| && count <= BATCH
    case Send => w.flusher.Sending? && w.flusher.rest != []
    case Exchange(_) => w.flusher.Sending? && w.flusher.rest != [] && Head(w) in w.sent
    case Delete => w.flusher.Acked? && w.flusher.rest != []
    case Renumber(_) => w.flusher.Conflicted? && w.producer.Some?
    case Drop => true
    case Deliver(r) => r in w.sent
    case Forget(server) => Truthful(server, w.accepted)
  }

  function EnqueueStep(w: World, data: string, now: int): World {
    var event := Event(|w.history|, data);
    var p := if w.producer.None? then Producer(now, 0) else w.producer.value;
    w.(producer := Some(p.(nextSeq := p.nextSeq + 1)),
       outbox := w.outbox + [Row(w.nextId, p.nextSeq, event)],
       nextId := w.nextId + 1,
       history := w.history + [event])
  }

  function RenumberStep(w: World, now: int): World
    requires w.producer.Some?
  {
    w.(producer := Some(Producer(NewEpoch(w.producer.value.epoch, now), |w.outbox|)),
       outbox := Renumbered(w.outbox),
       flusher := Idle)
  }

  function ExchangeStep(w: World, ackHeld: bool): World
    requires w.flusher.Sending? && w.flusher.rest != []
  {
    var reply := Answer(w.server, Head(w), ackHeld);
    Receive(w, Head(w)).(flusher :=
      if reply.Accepted? || ExpectedAfter(reply, Head(w).seqNo)
      then Acked(w.flusher.epoch, w.flusher.rest) else Conflicted)
  }

  ghost function Next(w: World, a: Action): World
    requires Enabled(w, a)
  {
    match a
    case Enqueue(data, now) => EnqueueStep(w, data, now)
    case ReadEpoch => w.(flusher := Opened(w.producer.value.epoch))
    case ReadBatch(count) => w.(flusher := Sending(w.flusher.epoch, w.outbox[..count]))
    case Send => w.(sent := w.sent + {Head(w)})
    case Exchange(ackHeld) => ExchangeStep(w, ackHeld)
    case Delete =>
      w.(outbox := Remove(w.outbox, w.flusher.rest[0].id),
         flusher := Sending(w.flusher.epoch, w.flusher.rest[1..]))
    case Renumber(now) => RenumberStep(w, now)
    case Drop => w.(flusher := Idle)
    case Deliver(r) => Receive(w, r)
    case Forget(server) => w.(server := server)
  }

  ghost predicate Possible(w: World, acts: seq<Action>)
    decreases |acts|
  {
    acts == [] || (Enabled(w, acts[0]) && Possible(Next(w, acts[0]), acts[1..]))
  }

  ghost function Run(w: World, acts: seq<Action>): World
    requires Possible(w, acts)
    decreases |acts|
  {
    if acts == [] then w else Run(Next(w, acts[0]), acts[1..])
  }

  lemma {:induction false} AppendToRun(w: World, acts: seq<Action>, a: Action)
    requires Possible(w, acts) && Enabled(Run(w, acts), a)
    ensures Possible(w, acts + [a]) && Run(w, acts + [a]) == Next(Run(w, acts), a)
    decreases |acts|
  {
    if acts == [] {
      assert acts + [a] == [a] && [a][1..] == [];
      assert Possible(Next(w, a), []);
    } else {
      AppendToRun(Next(w, acts[0]), acts[1..], a);
      assert (acts + [a])[1..] == acts[1..] + [a];
    }
  }

  // ---------------------------------------------------------------- the invariant

  /** How many events left the outbox, and the sequence the oldest queued row carries. */
  function Done(w: World): int { |w.history| - |w.outbox| }

  function Base(w: World): int
    requires w.producer.Some?
  {
    w.producer.value.nextSeq - |w.outbox|
  }

  /** The records of a log with later repeats left out. */
  function FirstOccurrences(log: seq<Event>): (d: seq<Event>)
    ensures forall e :: e in d <==> e in log
  {
    if log == [] then []
    else
      var d, e := FirstOccurrences(log[..|log| - 1]), log[|log| - 1];
      assert forall x :: x in log <==> x in log[..|log| - 1] || x == e;
      if e in d then d else d + [e]
  }

  function NotHeld(rows: seq<Row>, log: seq<Event>): seq<Event> {
    if rows == [] then []
    else (if rows[0].event in log then [] else [rows[0].event]) + NotHeld(rows[1..], log)
  }

  ghost predicate Numbered(history: seq<Event>) {
    forall i :: 0 <= i < |history| ==> history[i].number == i
  }

  ghost predicate AscendingIds(rows: seq<Row>) {
    |rows| >= 2 ==> rows[0].id < rows[1].id && AscendingIds(rows[1..])
  }

  /** The outbox is the contiguous interval that ends just below next_seq, in enqueue order. */
  ghost predicate QueueOK(w: World) {
    && Numbered(w.history)
    && 0 <= Done(w)
    && (forall i :: 0 <= i < |w.outbox| ==> w.outbox[i].event == w.history[Done(w) + i])
    && (forall i :: 0 <= i < |w.outbox| ==> w.outbox[i].id < w.nextId)
    && AscendingIds(w.outbox)
    && (w.producer.None? ==> w.history == [])
    && (w.producer.Some? ==>
          && 0 <= Base(w) <= Done(w)
          && forall i :: 0 <= i < |w.outbox| ==> w.outbox[i].seqNo == Base(w) + i)
  }

  /** A request of the current epoch names the event its sequence was given to. */
  ghost predicate RequestOK(w: World, r: Request) {
    && w.producer.Some?
    && r.epoch <= w.producer.value.epoch
    && 0 <= r.seqNo
    && r.event.number <= Done(w)
    && r.event.number < |w.history|
    && r.event == w.history[r.event.number]
    && (r.epoch == w.producer.value.epoch ==>
          r.seqNo <= Base(w) && r.event.number == Done(w) - Base(w) + r.seqNo)
  }

  /** No (epoch, seq) pair names two events. */
  ghost predicate PairsUnique(sent: set<Request>) {
    forall r, r' :: r in sent && r' in sent && r.epoch == r'.epoch && r.seqNo == r'.seqNo ==> r.event == r'.event
  }

  ghost predicate NetworkOK(w: World) {
    && (forall r :: r in w.sent ==> RequestOK(w, r))
    && PairsUnique(w.sent)
  }

  ghost predicate ServerOK(w: World) {
    && w.accepted <= w.sent
    && (forall r :: r in w.accepted ==> r.event in w.log)
    && Truthful(w.server, w.accepted)
  }

  ghost predicate LogOK(w: World) {
    var d := FirstOccurrences(w.log);
    && d <= w.history
    && Done(w) <= |d| <= Done(w) + 1
  }

  ghost predicate FlusherOK(w: World) {
    match w.flusher
    case Idle => true
    case Opened(epoch) => w.producer.Some? && w.producer.value.epoch == epoch
    case Sending(epoch, rest) => w.producer.Some? && w.producer.value.epoch == epoch && rest <= w.outbox
    case Acked(epoch, rest) =>
      && w.producer.Some? && w.producer.value.epoch == epoch
      && rest != [] && rest <= w.outbox && rest[0].event in w.log
    case Conflicted => w.producer.Some?
  }

  ghost predicate Inv(w: World) {
    QueueOK(w) && NetworkOK(w) && ServerOK(w) && LogOK(w) && FlusherOK(w)
  }

  lemma {:induction false} AscendingLater(rows: seq<Row>, i: nat)
    requires AscendingIds(rows) && 0 < i < |rows|
    ensures rows[0].id < rows[i].id
  {
    if i > 1 { AscendingLater(rows[1..], i - 1); }
  }

  lemma {:induction false} AscendingTail(rows: seq<Row>, i: nat)
    requires AscendingIds(rows) && i <= |rows|
    ensures AscendingIds(rows[i..])
  {
    if i > 0 && rows != [] {
      AscendingTail(rows[1..], i - 1);
      assert rows[1..][i - 1..] == rows[i..];
    }
  }

  lemma {:induction false} AscendingAppend(rows: seq<Row>, row: Row)
    requires AscendingIds(rows)
    requires forall i :: 0 <= i < |rows| ==> rows[i].id < row.id
    ensures AscendingIds(rows + [row])
  {
    if rows != [] {
      AscendingAppend(rows[1..], row);
      assert (rows + [row])[1..] == rows[1..] + [row];
    }
  }

  lemma {:induction false} AscendingSameIds(rows: seq<Row>, rows': seq<Row>)
    requires AscendingIds(rows) && |rows'| == |rows|
    requires forall i :: 0 <= i < |rows| ==> rows'[i].id == rows[i].id
    ensures AscendingIds(rows')
  {
    if rows != [] { AscendingSameIds(rows[1..], rows'[1..]); }
  }

  lemma {:induction false} RemoveFirst(rows: seq<Row>)
    requires rows != [] && AscendingIds(rows)
    ensures Remove(rows, rows[0].id) == rows[1..]
  {
    forall i | 0 < i < |rows| ensures rows[i].id != rows[0].id { AscendingLater(rows, i); }
    RemoveAbsent(rows[1..], rows[0].id);
  }

  lemma {:induction false} RemoveAbsent(rows: seq<Row>, id: nat)
    requires forall i :: 0 <= i < |rows| ==> rows[i].id != id
    ensures Remove(rows, id) == rows
  {
    if rows != [] { RemoveAbsent(rows[1..], id); }
  }

  lemma EnqueueKeepsQueue(w: World, data: string, now: int)
    requires QueueOK(w)
    ensures QueueOK(EnqueueStep(w, data, now))
  {
    hide AscendingIds;
    var w' := EnqueueStep(w, data, now);
    AscendingAppend(w.outbox, w'.outbox[|w.outbox|]);
    forall i | 0 <= i < |w'.outbox| ensures w'.outbox[i].event == w'.history[Done(w') + i] {
      if i < |w.outbox| { assert w'.outbox[i] == w.outbox[i]; }
    }
  }

  lemma EnqueueKeepsNetwork(w: World, data: string, now: int)
    requires QueueOK(w) && NetworkOK(w)
    ensures NetworkOK(EnqueueStep(w, data, now))
  {
    var w' := EnqueueStep(w, data, now);
    forall r | r in w'.sent ensures RequestOK(w', r) { assert RequestOK(w, r); }
  }

  lemma EnqueueKeepsInv(w: World, data: string, now: int)
    requires Inv(w)
    ensures Inv(EnqueueStep(w, data, now))
  {
    hide QueueOK, NetworkOK, FirstOccurrences;
    EnqueueKeepsQueue(w, data, now);
    EnqueueKeepsNetwork(w, data, now);
  }

  lemma SendKeepsNetwork(w: World)
    requires QueueOK(w) && NetworkOK(w) && FlusherOK(w) && w.flusher.Sending? && w.flusher.rest != []
    ensures NetworkOK(w.(sent := w.sent + {Head(w)}))
  {
    var w', r := w.(sent := w.sent + {Head(w)}), Head(w);
    assert w.flusher.rest[0] == w.outbox[0];
    assert RequestOK(w', r);
    forall q | q in w.sent ensures RequestOK(w', q) { assert RequestOK(w, q); }
  }

  lemma SendKeepsInv(w: World)
    requires Inv(w) && Enabled(w, Send)
    ensures Inv(Next(w, Send))
  {
    hide NetworkOK, FirstOccurrences;
    SendKeepsNetwork(w);
  }

  lemma SameNetwork(w: World, w': World)
    requires NetworkOK(w)
    requires w'.producer == w.producer && w'.outbox == w.outbox && w'.history == w.history && w'.sent == w.sent
    ensures NetworkOK(w')
  {}

  /** A request that was sent can only append the oldest queued event or repeat a held one. */
  lemma ReceiveKeepsInv(w: World, r: Request)
    requires Inv(w) && r in w.sent
    ensures Inv(Receive(w, r))
  {
    if Appends(w.server, r) {
      var w', d := Receive(w, r), FirstOccurrences(w.log);
      assert RequestOK(w, r);
      assert w'.log[..|w'.log| - 1] == w.log;
      assert r.event in d <==> r.event.number < |d| by {
        if r.event.number < |d| { assert d[r.event.number] == r.event; }
      }
      assert LogOK(w');
      SameNetwork(w, w');
      forall s | 0 <= s < w'.server.expected ensures Held(w'.accepted, w'.server.epoch, s) {
        if s == r.seqNo {
          assert r in w'.accepted;
        } else {
          assert Held(w.accepted, w.server.epoch, s);
        }
      }
    }
  }

  lemma MoveFlusher(w: World, flusher: Flusher)
    requires Inv(w) && FlusherOK(w.(flusher := flusher))
    ensures Inv(w.(flusher := flusher))
  {}

  lemma MoveServer(w: World, server: ServerState)
    requires Inv(w) && Truthful(server, w.accepted)
    ensures Inv(w.(server := server))
  {
    SameNetwork(w, w.(server := server));
  }

  /** Whatever the program reads as success, the event is in the log afterwards. */
  lemma SuccessMeansLogged(w: World, r: Request, ackHeld: bool)
    requires Inv(w) && r in w.sent
    requires var reply := Answer(w.server, r, ackHeld); reply.Accepted? || ExpectedAfter(reply, r.seqNo)
    ensures r.event in Receive(w, r).log
  {
    if !Appends(w.server, r) {
      assert RequestOK(w, r);
      assert Held(w.accepted, r.epoch, r.seqNo);
      var q :| q in w.accepted && q.epoch == r.epoch && q.seqNo == r.seqNo;
      assert q.event == r.event;
    }
  }

  lemma ExchangeKeepsInv(w: World, ackHeld: bool)
    requires Inv(w) && Enabled(w, Exchange(ackHeld))
    ensures Inv(ExchangeStep(w, ackHeld))
  {
    var r, w' := Head(w), ExchangeStep(w, ackHeld);
    ReceiveKeepsInv(w, r);
    if w'.flusher.Acked? { SuccessMeansLogged(w, r, ackHeld); }
    MoveFlusher(Receive(w, r), w'.flusher);
  }

  lemma DeleteKeepsQueue(w: World)
    requires QueueOK(w) && FlusherOK(w) && w.flusher.Acked?
    ensures Remove(w.outbox, w.flusher.rest[0].id) == w.outbox[1..]
    ensures QueueOK(Next(w, Delete))
  {
    RemoveFirst(w.outbox);
    assert w.flusher.rest[0] == w.outbox[0];
  }

  lemma DeleteKeepsNetwork(w: World)
    requires QueueOK(w) && NetworkOK(w) && w.outbox != []
    ensures NetworkOK(w.(outbox := w.outbox[1..]))
  {
    var w' := w.(outbox := w.outbox[1..]);
    forall r | r in w'.sent ensures RequestOK(w', r) { assert RequestOK(w, r); }
  }

  lemma DeleteKeepsInv(w: World)
    requires Inv(w) && Enabled(w, Delete)
    ensures Inv(Next(w, Delete))
  {
    hide NetworkOK, FirstOccurrences;
    DeleteKeepsQueue(w);
    DeleteKeepsNetwork(w);
    SameNetwork(w.(outbox := w.outbox[1..]), Next(w, Delete));
    var d := FirstOccurrences(w.log);
    assert w.history[Done(w)] in d;
  }

  lemma RenumberKeepsInv(w: World, now: int)
    requires Inv(w) && w.producer.Some?
    ensures Inv(RenumberStep(w, now))
  {
    hide FirstOccurrences;
    var w' := RenumberStep(w, now);
    AscendingSameIds(w.outbox, w'.outbox);
    assert NetworkOK(w') by {
      forall r | r in w'.sent ensures RequestOK(w', r) { assert RequestOK(w, r); }
    }
  }

  lemma StepKeepsInv(w: World, a: Action)
    requires Inv(w) && Enabled(w, a)
    ensures Inv(Next(w, a))
  {
    hide QueueOK, NetworkOK, ServerOK, LogOK, Receive;
    match a
    case Enqueue(data, now) => EnqueueKeepsInv(w, data, now);
    case Send => SendKeepsInv(w);
    case Exchange(ackHeld) => ExchangeKeepsInv(w, ackHeld);
    case Delete => DeleteKeepsInv(w);
    case Renumber(now) => RenumberKeepsInv(w, now);
    case Deliver(r) => ReceiveKeepsInv(w, r);
    case ReadEpoch => MoveFlusher(w, Next(w, a).flusher);
    case ReadBatch(_) => MoveFlusher(w, Next(w, a).flusher);
    case Drop => MoveFlusher(w, Next(w, a).flusher);
    case Forget(server) => MoveServer(w, server);
  }

  lemma {:induction false} RunKeepsInv(w: World, acts: seq<Action>)
    requires Inv(w) && Possible(w, acts)
    ensures Inv(Run(w, acts))
    decreases |acts|
  {
    if acts != [] {
      StepKeepsInv(w, acts[0]);
      RunKeepsInv(Next(w, acts[0]), acts[1..]);
    }
  }

  // ---------------------------------------------------------------- no event is lost

  lemma {:induction false} NoneHeld(w: World, from: nat)
    requires QueueOK(w) && FirstOccurrences(w.log) <= w.history
    requires from <= |w.outbox| && |FirstOccurrences(w.log)| <= Done(w) + from
    ensures NotHeld(w.outbox[from..], w.log) == w.history[Done(w) + from..]
    decreases |w.outbox| - from
  {
    if from < |w.outbox| {
      var e := w.outbox[from].event;
      assert e == w.history[Done(w) + from];
      assert e !in FirstOccurrences(w.log);
      NoneHeld(w, from + 1);
      assert w.outbox[from..][1..] == w.outbox[from + 1..];
      assert w.history[Done(w) + from..] == [e] + w.history[Done(w) + from + 1..];
    }
  }

  lemma QueueNotHeld(w: World)
    requires QueueOK(w) && LogOK(w)
    ensures NotHeld(w.outbox, w.log) == w.history[|FirstOccurrences(w.log)|..]
  {
    hide FirstOccurrences, AscendingIds;
    var d := FirstOccurrences(w.log);
    if |d| == Done(w) {
      NoneHeld(w, 0);
      assert w.outbox[0..] == w.outbox;
    } else {
      NoneHeld(w, 1);
      assert w.outbox[0].event == w.history[Done(w)] == d[Done(w)];
    }
  }

  lemma LogThenOutbox(w: World)
    requires QueueOK(w) && LogOK(w)
    ensures FirstOccurrences(w.log) + NotHeld(w.outbox, w.log) == w.history
  {
    hide FirstOccurrences, QueueOK, NotHeld;
    QueueNotHeld(w);
  }

  lemma InitialInv()
    ensures Inv(INITIAL)
  {}

  /** For every run: what the server logged, first copies only, followed by the queued events
      it does not hold, is exactly what was enqueued, in that order. */
  lemma NoEventLost(acts: seq<Action>)
    requires Possible(INITIAL, acts)
    ensures var w := Run(INITIAL, acts);
            FirstOccurrences(w.log) + NotHeld(w.outbox, w.log) == w.history
  {
    InitialInv();
    RunKeepsInv(INITIAL, acts);
    LogThenOutbox(Run(INITIAL, acts));
  }

  /** For every run: a pair on the wire names one event, and the outbox is the contiguous
      interval of sequences just below next_seq carrying the newest events in order. */
  lemma PairsAndIntervals(acts: seq<Action>)
    requires Possible(INITIAL, acts)
    ensures var w := Run(INITIAL, acts);
            && PairsUnique(w.sent)
            && (forall i :: 0 <= i < |w.outbox| ==>
                  && w.producer.Some?
                  && w.outbox[i].seqNo == w.producer.value.nextSeq - |w.outbox| + i
                  && 0 <= |w.history| - |w.outbox|
                  && w.outbox[i].event == w.history[|w.history| - |w.outbox| + i])
  {
    InitialInv();
    RunKeepsInv(INITIAL, acts);
  }

  /** Epochs never shrink; a renumbering raises the epoch and keeps the queued events. */
  lemma EpochsGrow(w: World, a: Action)
    requires Inv(w) && Enabled(w, a) && w.producer.Some?
    ensures var w' := Next(w, a);
            && w'.producer.Some?
            && w.producer.value.epoch <= w'.producer.value.epoch
            && (a.Renumber? ==>
                  && w.producer.value.epoch < w'.producer.value.epoch
                  && |w'.outbox| == |w.outbox|
                  && (forall i :: 0 <= i < |w.outbox| ==>
                        w'.outbox[i].event == w.outbox[i].event && w'.outbox[i].id == w.outbox[i].id)
                  && (forall r :: r in w.sent ==> r.epoch < w'.producer.value.epoch))
  {}

  /** A server that forgets can log one event twice, so first copies cannot be dropped above. */
  lemma ForgettingRepeats(data: string, now: int)
    ensures var r := Request(now, 0, Event(0, data));
            var acts := [Enqueue(data, now), ReadEpoch, ReadBatch(1), Send, Deliver(r), Forget(Unknown), Deliver(r)];
            Possible(INITIAL, acts) && Run(INITIAL, acts).log == [Event(0, data), Event(0, data)]
  {
    var r := Request(now, 0, Event(0, data));
    var acts1 := [Enqueue(data, now)];
    AppendToRun(INITIAL, [], acts1[0]);
    assert [] + acts1 == acts1;
    AppendToRun(INITIAL, acts1, ReadEpoch);
    var acts3 := [Enqueue(data, now), ReadEpoch, ReadBatch(1)];
    AppendToRun(INITIAL, acts1 + [ReadEpoch], ReadBatch(1));
    assert acts1 + [ReadEpoch] + [ReadBatch(1)] == acts3;
    assert Head(Run(INITIAL, acts3)) == r;
    AppendToRun(INITIAL, acts3, Send);
    AppendToRun(INITIAL, acts3 + [Send], Deliver(r));
    AppendToRun(INITIAL, acts3 + [Send] + [Deliver(r)], Forget(Unknown));
    AppendToRun(INITIAL, acts3 + [Send] + [Deliver(r)] + [Forget(Unknown)], Deliver(r));
    assert acts3 + [Send] + [Deliver(r)] + [Forget(Unknown)] + [Deliver(r)] ==
           [Enqueue(data, now), ReadEpoch, ReadBatch(1), Send, Deliver(r), Forget(Unknown), Deliver(r)];
  }

  /** A delivery stores an event a second time if and only if the server, in the state it fell
      back to, appends a request that was sent before and whose event it has logged. */
  lemma RepeatAfterForgetting(w: World, server: ServerState)
    requires Inv(w) && Truthful(server, w.accepted)
    ensures (exists r :: r in w.sent && r.event in w.log && Appends(server, r)) <==>
            exists r :: r in w.sent && Repeats(w.log, Receive(Next(w, Forget(server)), r).log)
  {
    var w' := Next(w, Forget(server));
    forall r | r in w.sent ensures (r.event in w.log && Appends(server, r)) <==> Repeats(w.log, Receive(w', r).log) {
      assert (w.log + [r.event])[..|w.log|] == w.log;
    }
    if r :| r in w.sent && r.event in w.log && Appends(server, r) {
      assert Repeats(w.log, Receive(w', r).log);
    }
  }

  /** The log grew without a new event. */
  ghost predicate Repeats(log: seq<Event>, log': seq<Event>) {
    |log'| > |log| && FirstOccurrences(log') == FirstOccurrences(log)
  }

  // ---------------------------------------------------------------- a server that never forgets

  ghost predicate Durable(w: World) {
    && !w.flusher.Conflicted?
    && (w.producer.Some? ==> Done(w) == Base(w))
    && (forall r :: r in w.sent ==> w.producer.Some? && r.epoch == w.producer.value.epoch)
    && match w.server
       case Unknown => w.log == [] && Done(w) == 0
       case Known(epoch, expected) =>
         && w.producer.Some? && epoch == w.producer.value.epoch
         && 0 <= Done(w) <= expected <= Done(w) + 1
         && expected <= |w.history|
         && w.log == w.history[..expected]
  }

  ghost predicate DurableInv(w: World) {
    Inv(w) && Durable(w)
  }

  lemma DurableReceive(w: World, r: Request)
    requires Durable(w) && r in w.sent && RequestOK(w, r)
    ensures Durable(Receive(w, r))
    ensures forall ackHeld :: var reply := Answer(w.server, r, ackHeld);
                              reply.Accepted? || ExpectedAfter(reply, r.seqNo)
  {
    var expected := ExpectedSeq(w.server, r.epoch);
    assert r.seqNo == r.event.number <= expected;
    if r.seqNo == expected {
      assert w.log == w.history[..expected];
      assert w.history[..expected] + [r.event] == w.history[..expected + 1];
    }
  }

  lemma {:induction false} PrefixHasNoRepeats(history: seq<Event>, n: nat)
    requires Numbered(history) && n <= |history|
    ensures FirstOccurrences(history[..n]) == history[..n]
  {
    if n > 0 {
      PrefixHasNoRepeats(history, n - 1);
      assert history[..n][..n - 1] == history[..n - 1];
    }
  }

  lemma DurableDelete(w: World)
    requires Durable(w) && QueueOK(w) && FlusherOK(w) && w.flusher.Acked?
    ensures Durable(Next(w, Delete))
  {
    RemoveFirst(w.outbox);
    assert w.flusher.rest[0] == w.outbox[0];
    assert w.outbox[0].event == w.history[Done(w)] && w.outbox[0].event in w.log;
    assert w.server.expected == Done(w) + 1;
  }

  lemma DurableStep(w: World, a: Action)
    requires DurableInv(w) && Enabled(w, a) && !a.Forget?
    ensures Durable(Next(w, a))
  {
    match a
    case Enqueue(_, _) =>
    case ReadEpoch =>
    case ReadBatch(_) =>
    case Send =>
    case Exchange(_) => assert RequestOK(w, Head(w)); DurableReceive(w, Head(w));
    case Delete => DurableDelete(w);
    case Drop =>
    case Deliver(r) => assert RequestOK(w, r); DurableReceive(w, r);
  }

  lemma {:induction false} DurableRun(w: World, acts: seq<Action>)
    requires DurableInv(w) && Possible(w, acts) && forall a :: a in acts ==> !a.Forget?
    ensures DurableInv(Run(w, acts))
    decreases |acts|
  {
    if acts != [] {
      StepKeepsInv(w, acts[0]);
      DurableStep(w, acts[0]);
      DurableRun(Next(w, acts[0]), acts[1..]);
    }
  }

  /** With a server that keeps its producer state, every run delivers each event exactly once in
      order: the log itself, followed by the queued events it lacks, is the enqueue history, and
      the producer never meets a conflict it would renumber for. */
  lemma ExactlyOnce(acts: seq<Action>)
    requires Possible(INITIAL, acts) && forall a :: a in acts ==> !a.Forget?
    ensures var w := Run(INITIAL, acts);
            w.log + NotHeld(w.outbox, w.log) == w.history && !w.flusher.Conflicted?
  {
    DurableRun(INITIAL, acts);
    var w := Run(INITIAL, acts);
    LogThenOutbox(w);
    if w.server.Known? { PrefixHasNoRepeats(w.history, w.server.expected); }
  }
}
