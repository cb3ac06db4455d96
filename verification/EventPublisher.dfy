/** The publisher that queues and flushes the events of one stream (events/events.go).

    Every method is a refinement of the machine in EventOutbox: `trace` records the atomic
    steps taken so far by this program and by everything around it, and `Valid` says the
    present state is what those steps lead to.  The theorems about runs therefore hold at
    every database statement, and so at every point where the process may die. */
module EventPublisher {
  import opened Wrappers
  import opened EventOutbox

  datatype Response = NoResponse | Success | Refused(expectedSeq: Option<int>) | OtherStatus

  ghost predicate UniqueSeqs(rows: seq<Row>) {
    forall i, j :: 0 <= i < j < |rows| ==> rows[i].seqNo != rows[j].seqNo
  }

  /** The table while `UPDATE ... SET seq = -seq - 1` has reached the rows whose id is in `done`. */
  ghost function Negated(rows: seq<Row>, done: set<nat>): seq<Row> {
    seq(|rows|, i requires 0 <= i < |rows| =>
      if rows[i].id in done then rows[i].(seqNo := -rows[i].seqNo - 1) else rows[i])
  }

  /** The table while the first `index` of the negated rows have been counted again. */
  ghost predicate Recounted(rows: seq<Row>, table: seq<Row>, index: nat) {
    && |table| == |rows|
    && (forall i :: 0 <= i < index && i < |rows| ==> table[i] == rows[i].(seqNo := i))
    && (forall i :: index <= i < |rows| ==> table[i] == rows[i].(seqNo := -rows[i].seqNo - 1))
  }

  ghost predicate DifferentIds(rows: seq<Row>) {
    forall i, j :: 0 <= i < j < |rows| ==> rows[i].id != rows[j].id
  }

  /** One row got a new sequence. */
  ghost predicate SeqSet(before: seq<Row>, after: seq<Row>, id: nat, seqNo: int) {
    && |after| == |before|
    && forall i :: 0 <= i < |after| ==> after[i] == if before[i].id == id then before[i].(seqNo := seqNo) else before[i]
  }

  lemma RecountedNext(rows: seq<Row>, before: seq<Row>, after: seq<Row>, index: nat)
    requires index < |rows| && DifferentIds(rows) && Recounted(rows, before, index)
    requires SeqSet(before, after, rows[index].id, index)
    ensures Recounted(rows, after, index + 1)
  {}

  lemma RecountedAll(rows: seq<Row>, table: seq<Row>)
    requires Recounted(rows, table, |rows|)
    ensures table == Renumbered(rows)
  {}

  lemma RecountedUnique(rows: seq<Row>, table: seq<Row>, index: nat, base: nat)
    requires Recounted(rows, table, index)
    requires forall i :: 0 <= i < |rows| ==> rows[i].seqNo == base + i
    ensures UniqueSeqs(table)
    ensures forall i :: 0 <= i < |table| && i != index ==> table[i].seqNo != index
    ensures DifferentIds(rows) && index < |rows| ==>
      DifferentIds(table) && forall i :: 0 <= i < |table| && table[i].id != rows[index].id ==> table[i].seqNo != index
  {}

  /** If reading the ids breaks off, which goes unnoticed, the rows left out keep a negative
      sequence: the queue is numbered in order if and only if every row was read. */
  lemma RecountedInOrder(rows: seq<Row>, table: seq<Row>, index: nat)
    requires Recounted(rows, table, index) && index <= |rows|
    requires forall i :: 0 <= i < |rows| ==> rows[i].seqNo >= 0
    ensures (forall i :: 0 <= i < |table| ==> table[i].seqNo == i) <==> index == |rows|
  {
    if index < |rows| { assert table[index].seqNo < 0; }
  }

  /** Moving the sequences out of the way collides at no point on the way. */
  lemma NegatedUnique(rows: seq<Row>, base: nat, done: set<nat>)
    requires forall i :: 0 <= i < |rows| ==> rows[i].seqNo == base + i
    ensures UniqueSeqs(Negated(rows, done))
  {}

  function InsertBySeq(row: Row, rows: seq<Row>): seq<Row> {
    if rows == [] || row.seqNo <= rows[0].seqNo then [row] + rows
    else [rows[0]] + InsertBySeq(row, rows[1..])
  }

  /** ORDER BY seq. */
  function OrderBySeq(rows: seq<Row>): seq<Row> {
    if rows == [] then [] else InsertBySeq(rows[0], OrderBySeq(rows[1..]))
  }

  lemma {:induction false} OrderedAlready(rows: seq<Row>)
    requires forall i, j :: 0 <= i < j < |rows| ==> rows[i].seqNo < rows[j].seqNo
    ensures OrderBySeq(rows) == rows
  {
    if rows != [] { OrderedAlready(rows[1..]); }
  }

  /** The queue is counted from zero under a higher epoch than `epoch`, and holds what has not
      left it, in the order of enqueueing. */
  ghost predicate CountedAnew(epoch: int, w: World) {
    && w.producer.Some? && w.producer.value.epoch > epoch && w.producer.value.nextSeq == |w.outbox|
    && 0 <= Done(w)
    && forall i :: 0 <= i < |w.outbox| ==> w.outbox[i].seqNo == i && w.outbox[i].event == w.history[Done(w) + i]
  }

  lemma RenumberCountsAnew(w: World, now: int)
    requires Inv(w) && Enabled(w, Action.Renumber(now))
    ensures CountedAnew(w.producer.value.epoch, RenumberStep(w, now)) && Done(RenumberStep(w, now)) == Done(w)
  {}

  class Publisher {
    var made: bool
    var producer: Option<Producer>
    var outbox: seq<Row>
    var nextId: nat
    var emitted: nat         // event identities drawn so far
    var server: ServerState  // the far side of the network
    var sent: set<Request>
    var accepted: set<Request>
    ghost var faults: nat        // calls of the flusher that failed
    ghost var cuts: nat          // its reads that broke off, which it does not notice
    ghost var creates: nat       // requests to create the stream
    ghost var lostEmits: nat     // transactions of emitters that failed
    ghost var flusher: Flusher
    ghost var log: seq<Event>
    ghost var history: seq<Event>
    ghost var trace: seq<Action>

    ghost function View(): World
      reads this
    {
      World(producer, outbox, nextId, flusher, server, log, history, sent, accepted)
    }

    ghost predicate Valid()
      reads this
    {
      Possible(INITIAL, trace) && Run(INITIAL, trace) == View() && emitted == |history|
    }

    constructor ()
      ensures Valid() && View() == INITIAL && trace == []
    {
      made := false;
      producer, outbox, nextId, emitted := None, [], 0, 0;
      server, sent, accepted := Unknown, {}, {};
      flusher, log, history, trace := Idle, [], [], [];
      faults, lostEmits, cuts, creates := 0, 0, 0, 0;
    }

    lemma Sound()
      requires Valid()
      ensures Inv(View())
    {
      InitialInv();
      RunKeepsInv(INITIAL, trace);
    }

    /** Moves the ghost parts of the world along once the others stand where `a` puts them. */
    ghost method Record(a: Action, w: World)
      requires Possible(INITIAL, trace) && Run(INITIAL, trace) == w && Enabled(w, a)
      requires var w' := Next(w, a);
               && w'.producer == producer && w'.outbox == outbox && w'.nextId == nextId
               && w'.server == server && w'.sent == sent && w'.accepted == accepted
               && |w'.history| == emitted
      modifies this`flusher, this`log, this`history, this`trace
      ensures Valid() && trace == old(trace) + [a] && View() == Next(w, a)
    {
      AppendToRun(INITIAL, trace, a);
      var w' := Next(w, a);
      trace, flusher, log, history := trace + [a], w'.flusher, w'.log, w'.history;
    }

    /** A request reaches the server. */
    method Arrive(r: Request, ghost a: Action)
      requires Valid() && Enabled(View(), a) && r in sent
      requires a == Deliver(r) || (a.Exchange? && Head(View()) == r)
      modifies this
      ensures Valid() && View() == Next(old(View()), a) && trace == old(trace) + [a] && made == old(made)
      ensures faults == old(faults) && cuts == old(cuts) && creates == old(creates)
    {
      ghost var w := View();
      if Appends(server, r) {
        server, accepted := ServerAfter(server, r), accepted + {r};
      }
      Record(a, w);
    }

    /** One transaction: take the next sequence of the stream and store the event under it. */
    method Enqueue(data: string, now: int) returns (ok: bool)
      requires Valid()
      modifies this
      ensures Valid() && made == old(made)
      ensures ok ==> View() == EnqueueStep(old(View()), data, now) && trace == old(trace) + [Action.Enqueue(data, now)]
      ensures !ok ==> View() == old(View()) && trace == old(trace)
      ensures faults == old(faults) && cuts == old(cuts) && creates == old(creates) && lostEmits == old(lostEmits) + if ok then 0 else 1
    {
      if * {
        lostEmits := lostEmits + 1;
        return false;
      }
      ghost var w := View();
      if producer.None? {
        producer := Some(Producer(now, 0));
      }
      var seqNo := producer.value.nextSeq;
      producer := Some(producer.value.(nextSeq := seqNo + 1));
      outbox := outbox + [Row(nextId, seqNo, Event(emitted, data))];
      nextId, emitted := nextId + 1, emitted + 1;
      Record(Action.Enqueue(data, now), w);
      ok := true;
    }

    /** Anything else that happens between two statements of the flusher: other goroutines emit
        events, old requests reach the server, the server loses its producer state. */
    method Others()
      requires Valid()
      modifies this
      ensures Valid() && old(trace) <= trace && made == old(made)
      ensures flusher == old(flusher) && old(sent) <= sent
      ensures faults == old(faults) && cuts == old(cuts) && creates == old(creates)
      ensures Done(View()) == old(Done(View()))
      ensures old(producer.Some?) ==> producer.Some? && producer.value.epoch == old(producer.value.epoch)
      ensures old(outbox) <= outbox
    {
      var steps :| 0 <= steps;
      for _ := 0 to steps
        invariant Valid() && old(trace) <= trace && made == old(made)
        invariant flusher == old(flusher) && old(sent) <= sent
        invariant faults == old(faults) && cuts == old(cuts) && creates == old(creates)
        invariant Done(View()) == old(Done(View()))
        invariant old(producer.Some?) ==> producer.Some? && producer.value.epoch == old(producer.value.epoch)
        invariant old(outbox) <= outbox
      {
        if * {
          var data: string, now: int := *, *;
          var _ := Enqueue(data, now);
        } else {
          var request: Request, forgotten: ServerState := *, *;
          if request in sent {
            Arrive(request, Deliver(request));
          } else if Truthful(forgotten, accepted) {
            ghost var w := View();
            server := forgotten;
            Record(Forget(forgotten), w);
          }
        }
      }
    }

    /** The request leaves; meanwhile others work. */
    method SendHead(row: Row, epoch: int)
      requires Valid() && flusher.Sending? && flusher.rest != [] && flusher.rest[0] == row && flusher.epoch == epoch
      modifies this
      ensures Valid() && old(trace) <= trace && made == old(made)
      ensures faults == old(faults) && cuts == old(cuts) && creates == old(creates)
      ensures Done(View()) == old(Done(View())) && flusher == old(flusher)
      ensures old(producer.Some?) ==> producer.Some? && producer.value.epoch == old(producer.value.epoch)
      ensures Request(epoch, row.seqNo, row.event) in sent
    {
      ghost var w := View();
      sent := sent + {Request(epoch, row.seqNo, row.event)};
      Record(Send, w);
      Others();
    }

    /** One append request for the head of the batch, with the answer the program gets to see. */
    method Post(row: Row, epoch: int) returns (response: Response)
      requires Valid() && flusher.Sending? && flusher.rest != [] && flusher.rest[0] == row && flusher.epoch == epoch
      modifies this
      ensures Valid() && old(trace) <= trace && made == old(made)
      ensures Done(View()) == old(Done(View()))
      ensures old(producer.Some?) ==> producer.Some? && producer.value.epoch == old(producer.value.epoch)
      ensures response.Success? || (response.Refused? && ExpectedAfter(Conflict(response.expectedSeq), row.seqNo))
              ==> flusher == Acked(epoch, old(flusher.rest))
      ensures response.Refused? && !ExpectedAfter(Conflict(response.expectedSeq), row.seqNo) ==> flusher == Conflicted
      ensures response.NoResponse? || response.OtherStatus? ==> flusher == old(flusher)
      ensures faults == old(faults) + if response.NoResponse? || response.OtherStatus? then 1 else 0
      ensures cuts == old(cuts) && creates == old(creates)
    {
      var request := Request(epoch, row.seqNo, row.event);
      SendHead(row, epoch);
      var reached: bool, ackHeld: bool, dropped: Response := *, *, *;
      if reached {
        response := match Answer(server, request, ackHeld) case Accepted => Success case Conflict(x) => Refused(x);
        Arrive(request, Exchange(ackHeld));
      } else {
        response := match dropped case OtherStatus => OtherStatus case _ => NoResponse;
        faults := faults + 1;
      }
      Others();
    }

    /** UPDATE event_outbox SET seq=? WHERE id=?, which the table refuses when the pair
        (stream, seq) is taken: the precondition is that unique constraint. */
    method UpdateSeq(id: nat, seqNo: int)
      requires UniqueSeqs(outbox)
      requires forall i :: 0 <= i < |outbox| && outbox[i].id != id ==> outbox[i].seqNo != seqNo
      requires DifferentIds(outbox)
      modifies this`outbox
      ensures UniqueSeqs(outbox) && SeqSet(old(outbox), outbox, id, seqNo)
    {
      outbox := seq(|outbox|, i requires 0 <= i < |outbox| reads this =>
        if outbox[i].id == id then outbox[i].(seqNo := seqNo) else outbox[i]);
    }

    /** UPDATE event_outbox SET seq = -seq - 1; the constraint is checked row after row. */
    method NegateSeqs()
      requires forall done :: UniqueSeqs(Negated(outbox, done))
      modifies this`outbox
      ensures |outbox| == |old(outbox)|
      ensures forall i :: 0 <= i < |outbox| ==> outbox[i] == old(outbox)[i].(seqNo := -old(outbox)[i].seqNo - 1)
    {
      outbox := seq(|outbox|, i requires 0 <= i < |outbox| reads this => outbox[i].(seqNo := -outbox[i].seqNo - 1));
    }

    lemma OutboxOrdered()
      requires Valid()
      ensures OrderBySeq(outbox) == outbox
    {
      Sound();
      OrderedAlready(outbox);
    }

    lemma DistinctIds()
      requires QueueOK(View())
      ensures forall i, j :: 0 <= i < j < |outbox| ==> outbox[i].id != outbox[j].id
    {
      forall i, j | 0 <= i < j < |outbox| ensures outbox[i].id != outbox[j].id {
        AscendingTail(outbox, i);
        AscendingLater(outbox[i..], j - i);
      }
    }

    /** Counts the queued rows from zero again, in order.  Every single update on the way keeps
        (stream, seq) unique. */
    method RenumberRows(ghost base: nat)
      requires forall i :: 0 <= i < |outbox| ==> outbox[i].seqNo == base + i
      requires forall i, j :: 0 <= i < j < |outbox| ==> outbox[i].id != outbox[j].id
      modifies this`outbox
      ensures outbox == Renumbered(old(outbox))
    {
      OrderedAlready(outbox);
      var rows := OrderBySeq(outbox);
      assert DifferentIds(rows);
      forall done ensures UniqueSeqs(Negated(outbox, done)) { NegatedUnique(outbox, base, done); }
      hide UniqueSeqs, Negated, OrderBySeq;
      NegateSeqs();
      assert Recounted(rows, outbox, 0);
      hide Recounted, SeqSet, DifferentIds;
      for index := 0 to |rows|
        invariant Recounted(rows, outbox, index)
      {
        RecountedUnique(rows, outbox, index, base);
        ghost var before := outbox;
        UpdateSeq(rows[index].id, index);
        RecountedNext(rows, before, outbox, index);
      }
      RecountedAll(rows, outbox);
    }

    /** Puts the queue under a fresh epoch in one transaction. */
    method Renumber(now: int) returns (ok: bool)
      requires Valid() && flusher.Conflicted? && producer.Some?
      modifies this
      ensures Valid() && made == old(made)
      ensures ok ==> View() == RenumberStep(old(View()), now) && trace == old(trace) + [Action.Renumber(now)]
      ensures !ok ==> View() == old(View()) && trace == old(trace)
      ensures faults == old(faults) + (if ok then 0 else 1) && cuts == old(cuts) && creates == old(creates)
    {
      if * {
        faults := faults + 1;
        return false;
      }
      ghost var w := View();
      Sound();
      DistinctIds();
      RenumberRows(Base(w));
      var next := now;
      if next <= producer.value.epoch {
        next := producer.value.epoch + 1;
      }
      producer := Some(Producer(next, |outbox|));
      Record(Action.Renumber(now), w);
      ok := true;
    }

    method DeleteRow(row: Row) returns (ok: bool)
      requires Valid() && flusher.Acked? && flusher.rest != [] && flusher.rest[0] == row
      modifies this
      ensures Valid() && old(trace) <= trace && made == old(made)
      ensures old(producer) == producer
      ensures ok ==> flusher == Sending(old(flusher.epoch), old(flusher.rest)[1..]) && Done(View()) == old(Done(View())) + 1
      ensures !ok ==> flusher == old(flusher) && Done(View()) == old(Done(View()))
      ensures faults == old(faults) + (if ok then 0 else 1) && cuts == old(cuts) && creates == old(creates)
    {
      Sound();
      if * {
        faults := faults + 1;
        return false;
      }
      ghost var w := View();
      RemoveFirst(outbox);
      assert flusher.rest[0] == outbox[0];
      outbox := Remove(outbox, row.id);
      Record(Delete, w);
      ok := true;
    }

    ghost method Stop()
      requires Valid()
      modifies this`flusher, this`log, this`history, this`trace
      ensures Valid() && old(trace) <= trace && flusher == Idle && View() == old(View()).(flusher := Idle)
    {
      Record(Drop, View());
    }

    /** The oldest rows; a read that breaks off gives fewer. */
    method ReadRows() returns (batch: seq<Row>)
      requires Valid() && flusher.Opened? && producer.Some?
      modifies this
      ensures Valid() && old(trace) <= trace && made == old(made) && producer == old(producer)
      ensures Done(View()) == old(Done(View())) && flusher == Sending(old(flusher.epoch), batch)
      ensures faults == old(faults) && cuts >= old(cuts) && creates == old(creates)
      ensures cuts == old(cuts) ==> |batch| >= old(if |outbox| <= BATCH then |outbox| else BATCH)
    {
      OutboxOrdered();
      hide OrderBySeq;
      var rows := OrderBySeq(outbox);
      if |rows| > BATCH { rows := rows[..BATCH]; }
      var count: nat :| count <= |rows|;
      if count < |rows| { cuts := cuts + 1; }
      batch := rows[..count];
      assert batch == outbox[..count];
      Record(ReadBatch(count), View());
    }

    /** Reads the epoch and the oldest rows, which only this flusher removes or renumbers.  Either
        query may fail; if reading the rows breaks off, the flush goes on with those it has. */
    method OpenBatch() returns (ok: bool, epoch: int, batch: seq<Row>)
      requires Valid() && flusher.Idle? && producer.Some?
      modifies this
      ensures Valid() && old(trace) <= trace && made == old(made) && producer.Some?
      ensures Done(View()) == old(Done(View())) && producer.value.epoch == old(producer.value.epoch)
      ensures if ok then flusher == Sending(epoch, batch) && faults == old(faults) else flusher == Idle && faults > old(faults)
      ensures cuts >= old(cuts) && creates == old(creates)
      ensures ok && cuts == old(cuts) ==> |batch| >= old(if |outbox| <= BATCH then |outbox| else BATCH)
    {
      ok, epoch, batch := false, 0, [];
      if * {
        faults := faults + 1;
        return;
      }
      Record(ReadEpoch, View());
      epoch := producer.value.epoch;
      Others();
      if * {
        faults := faults + 1;
        Stop();
        return;
      }
      batch := ReadRows();
      ok := true;
    }

    /** Sends one row of the batch and settles its answer.  `refused` says that the server neither
        took the row nor holds it: then the queue is counted anew, unless that transaction fails. */
    method AppendOne(row: Row, epoch: int, now: int) returns (ok: bool, ghost refused: bool)
      requires Valid() && flusher.Sending? && flusher.rest != [] && flusher.rest[0] == row
      requires flusher.epoch == epoch && producer.Some?
      modifies this
      ensures Valid() && old(trace) <= trace && made == old(made) && producer.Some? && faults >= old(faults)
      ensures cuts == old(cuts) && creates == old(creates) && (ok ==> faults == old(faults))
      ensures ok ==> flusher == Sending(epoch, old(flusher.rest)[1..]) && Done(View()) == old(Done(View())) + 1
      ensures ok ==> !refused && producer.value.epoch == old(producer.value.epoch)
      ensures !ok ==> flusher == Idle && Done(View()) == old(Done(View()))
      ensures !ok && faults == old(faults) ==> refused
      ensures refused && faults == old(faults) ==> CountedAnew(old(producer.value.epoch), View())
    {
      refused := false;
      var response := Post(row, epoch);
      match response {
        case Success =>
        case Refused(expectedSeq) =>
          if !ExpectedAfter(Conflict(expectedSeq), row.seqNo) {
            refused := true;
            Sound();
            RenumberCountsAnew(View(), now);
            var _ := Renumber(now);
            Stop();
            return false, refused;
          }
        case _ =>
          Stop();
          return false, refused;
      }
      ok := DeleteRow(row);
      if !ok { Stop(); }
    }

    /** The stream exists on the server, or is created now. */
    method EnsureStream() returns (ok: bool)
      requires Valid()
      modifies this`made, this`faults, this`creates
      ensures Valid() && ok == made && faults == old(faults) + (if ok then 0 else 1)
      ensures old(made) ==> made
      ensures creates == old(creates) + if old(made) then 0 else 1
    {
      if !made {
        creates := creates + 1;
        if * {
          faults := faults + 1;
          return false;
        }
        made := true;
      }
      return true;
    }

    /** Appends the oldest queued events of the stream in order.  Success means that no call failed
        and that at least everything the batch could hold when the flush began has been logged and
        removed, unless reading it broke off.  If no call failed, the flush only ends early because
        the stream was never used, or because the server refused a row it does not hold; then the
        queue is counted anew under a higher epoch.  Any end leaves a state the theorems about runs
        speak of. */
    method FlushStream(now: int) returns (ok: bool, ghost refused: bool)
      requires Valid() && flusher.Idle?
      modifies this
      ensures Valid() && old(trace) <= trace && flusher.Idle? && faults >= old(faults) && cuts >= old(cuts)
      ensures creates == old(creates) + (if old(made) then 0 else 1) && (!made ==> !ok && faults > old(faults)) && (old(made) ==> made)
      ensures Done(View()) >= old(Done(View()))
      ensures ok ==> faults == old(faults)
      ensures ok && cuts == old(cuts) ==>
        Done(View()) >= old(Done(View())) + old(if |outbox| <= BATCH then |outbox| else BATCH)
      ensures !ok && faults == old(faults) ==> refused || old(producer.None?)
      ensures refused && faults == old(faults) ==>
        !ok && producer.Some? && CountedAnew(if old(producer.Some?) then old(producer.value.epoch) else producer.value.epoch - 1, View())
    {
      refused := false;
      ok := EnsureStream();
      if !ok { return; }
      Others();
      if producer.None? { return false, refused; }
      ghost var before := producer.value.epoch;
      var epoch, batch;
      ok, epoch, batch := OpenBatch();
      if !ok { return; }
      for k := 0 to |batch|
        invariant Valid() && old(trace) <= trace && producer.Some? && producer.value.epoch == before && made
        invariant flusher == Sending(epoch, batch[k..]) && !refused
        invariant Done(View()) == old(Done(View())) + k
        invariant faults == old(faults) && cuts >= old(cuts) && creates == old(creates) + if old(made) then 0 else 1
        invariant cuts == old(cuts) ==> |batch| >= old(if |outbox| <= BATCH then |outbox| else BATCH)
      {
        ok, refused := AppendOne(batch[k], epoch, now);
        if !ok { return; }
      }
      Stop();
      ok := true;
    }
  }
}
