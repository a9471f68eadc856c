/** The ingest loop of scores-writer/app.py (`main`): poll a message, decode
    it, append its row to an in-memory batch, and flush the batch to the scores
    table followed by a synchronous offset commit, either when the batch holds
    `BatchSize` rows or when a poll comes back empty.

    The loop is a pure step function over a `Pipeline` state. The outcome of
    the database insert and of the offset commit are boolean inputs of a step,
    so failures of either are explored without any I/O. */
module ScoresWriter {
  import opened Wrappers
  import opened Seqs
  import opened ScoreDecode

  /** `BATCH_SIZE`. */
  const BatchSize: nat := 50

  /** What one `consumer.poll(POLL_TIMEOUT)` returns: nothing within the
      timeout, an error event, or a record with its payload. */
  datatype Poll = Idle | SourceError | Record(payload: Payload)

  /** One loop iteration's inputs: the poll outcome, whether the insert
      transaction would commit, and whether the offset commit would succeed
      (the last two are only consulted when a flush is attempted). */
  datatype Event = Event(poll: Poll, insertOk: bool, commitOk: bool)

  /** `batch` is the buffer; `sink` the rows the table holds, in commit order;
      `consumed` the records polled so far, in arrival order, so that its
      length is the consumer's position; `cursor` the committed position;
      `running` is false once `main` has left its loop. */
  datatype Pipeline = Pipeline(
    batch: seq<Row>,
    sink: seq<Row>,
    consumed: seq<Payload>,
    cursor: nat,
    running: bool)

  /** The state when the loop starts: an empty batch and nothing consumed. */
  function Start(): Pipeline
  {
    Pipeline([], [], [], 0, true)
  }

  /** The insert-then-commit sequence both flush paths share: the rows are
      inserted as one transaction; only if it commits are the offsets
      committed; only if that succeeds is the batch cleared. */
  function Flush(st: Pipeline, insertOk: bool, commitOk: bool): (r: Pipeline)
    ensures r.consumed == st.consumed && r.running == st.running
    ensures r.sink == (if insertOk then st.sink + st.batch else st.sink)
    ensures insertOk && commitOk ==> r.cursor == |st.consumed| && r.batch == []
    ensures !(insertOk && commitOk) ==> r.batch == st.batch && r.cursor == st.cursor
  {
    if !insertOk then st
    else if !commitOk then st.(sink := st.sink + st.batch)
    else st.(sink := st.sink + st.batch, cursor := |st.consumed|, batch := [])
  }

  /** One iteration of the `while True` loop. A failed flush on the idle path
      is outside the inner `try`, so it ends the loop (the `finally` closes
      the consumer); a failed flush after an append is caught and the loop
      goes on with the batch kept. */
  function Step(conv: Conversions, st: Pipeline, e: Event): (r: Pipeline)
    ensures !st.running ==> r == st
    ensures r.consumed == st.consumed || (e.poll.Record? && r.consumed == st.consumed + [e.poll.payload])
    ensures r.cursor != st.cursor ==> e.insertOk && e.commitOk && r.batch == [] && r.cursor == |r.consumed|
    ensures st.batch != [] && r.batch == [] ==> e.insertOk && e.commitOk
    ensures r.sink != st.sink ==>
              && e.insertOk
              && (r.sink == st.sink + st.batch
                  || (e.poll.Record? && Decode(conv, e.poll.payload).Some?
                      && r.sink == st.sink + st.batch + [Decode(conv, e.poll.payload).value]))
    ensures st.running && !r.running ==> e.poll.Idle? && !(e.insertOk && e.commitOk)
  {
    if !st.running then st
    else
      match e.poll
      case Idle =>
        if st.batch == [] then st
        else
          var f := Flush(st, e.insertOk, e.commitOk);
          if e.insertOk && e.commitOk then f else f.(running := false)
      case SourceError => st
      case Record(p) =>
        var read := st.(consumed := st.consumed + [p]);
        match Decode(conv, p)
        case None => read
        case Some(row) =>
          var appended := read.(batch := read.batch + [row]);
          if |appended.batch| >= BatchSize then Flush(appended, e.insertOk, e.commitOk)
          else appended
  }

  /** The state after the loop has seen `events`, in order: the records
      consumed before are kept as a prefix and each event adds at most one. */
  function Run(conv: Conversions, st: Pipeline, events: seq<Event>): (r: Pipeline)
    ensures st.consumed <= r.consumed
    ensures |r.consumed| <= |st.consumed| + |events|
    decreases |events|
  {
    if events == [] then st
    else Step(conv, Run(conv, st, events[..|events| - 1]), events[|events| - 1])
  }

  /** One more event is one more step. */
  lemma RunSnoc(conv: Conversions, st: Pipeline, events: seq<Event>, e: Event)
    ensures Run(conv, st, events + [e]) == Step(conv, Run(conv, st, events), e)
  {
    assert (events + [e])[..|events|] == events;
  }

  // ---------------------------------------------------------------------------
  // Rows of a record sequence

  /** The rows `records` decode to, in order; undecodable records add none. */
  function Rows(conv: Conversions, records: seq<Payload>): seq<Row>
    decreases |records|
  {
    if records == [] then []
    else
      var last := records[|records| - 1];
      Rows(conv, records[..|records| - 1])
        + (match Decode(conv, last) case Some(row) => [row] case None => [])
  }

  lemma RowsSnoc(conv: Conversions, records: seq<Payload>, p: Payload)
    ensures Rows(conv, records + [p])
         == Rows(conv, records) + (match Decode(conv, p) case Some(row) => [row] case None => [])
  {
    assert (records + [p])[..|records|] == records;
  }

  /** Decoding distributes over concatenation. */
  lemma {:induction false} RowsAppend(conv: Conversions, a: seq<Payload>, b: seq<Payload>)
    ensures Rows(conv, a + b) == Rows(conv, a) + Rows(conv, b)
    decreases |b|
  {
    if b == [] {
      assert a + b == a;
    } else {
      var b' := b[..|b| - 1];
      var p := b[|b| - 1];
      assert b == b' + [p];
      assert a + b == (a + b') + [p];
      RowsAppend(conv, a, b');
      RowsSnoc(conv, a + b', p);
      RowsSnoc(conv, b', p);
    }
  }

  // ---------------------------------------------------------------------------
  // Invariants

  /** The at-least-once invariant of the loop:
      - the committed position never passes the consumed one;
      - the batch holds exactly the rows of the records past the committed
        position, in arrival order;
      - the rows of the records up to the committed position are all in the
        table, in order (duplicates may sit between them);
      - the table holds only rows decoded from consumed records. */
  ghost predicate Valid(conv: Conversions, st: Pipeline)
  {
    && st.cursor <= |st.consumed|
    && st.batch == Rows(conv, st.consumed[st.cursor..])
    && IsSubseq(Rows(conv, st.consumed[..st.cursor]), st.sink)
    && (forall i :: 0 <= i < |st.sink| ==> st.sink[i] in Rows(conv, st.consumed))
  }

  /** What holds on top of `Valid` while no flush has failed: the table holds
      each committed row exactly once, the batch stays below its bound, and
      the loop is running. */
  ghost predicate Clean(conv: Conversions, st: Pipeline)
  {
    && Valid(conv, st)
    && st.sink == Rows(conv, st.consumed[..st.cursor])
    && |st.batch| < BatchSize
    && st.running
  }

  /** Every event's flushes, if attempted, succeed. */
  predicate AllSucceed(events: seq<Event>)
  {
    forall i :: 0 <= i < |events| ==> events[i].insertOk && events[i].commitOk
  }

  lemma StartValid(conv: Conversions)
    ensures Clean(conv, Start())
  {
    SubseqEmpty<Row>([]);
  }

  /** The rows of the consumed records are those up to the committed
      position followed by those past it. */
  lemma RowsSplit(conv: Conversions, consumed: seq<Payload>, cursor: nat)
    requires cursor <= |consumed|
    ensures Rows(conv, consumed) == Rows(conv, consumed[..cursor]) + Rows(conv, consumed[cursor..])
  {
    assert consumed == consumed[..cursor] + consumed[cursor..];
    RowsAppend(conv, consumed[..cursor], consumed[cursor..]);
  }

  /** A row of the table, or of the batch appended to it, is decoded from a
      consumed record. */
  lemma SinkFromConsumed(conv: Conversions, st: Pipeline)
    requires Valid(conv, st)
    ensures forall i :: 0 <= i < |st.sink + st.batch| ==> (st.sink + st.batch)[i] in Rows(conv, st.consumed)
  {
    RowsSplit(conv, st.consumed, st.cursor);
    forall i | 0 <= i < |st.sink + st.batch|
      ensures (st.sink + st.batch)[i] in Rows(conv, st.consumed)
    {
      if i >= |st.sink| {
        assert (st.sink + st.batch)[i] == st.batch[i - |st.sink|];
      }
    }
  }

  /** A flush of a state whose batch is the rows past its committed position
      keeps `Valid`, whether it succeeds, fails at the insert, or fails at the
      offset commit. */
  lemma FlushValid(conv: Conversions, st: Pipeline, insertOk: bool, commitOk: bool)
    requires Valid(conv, st)
    ensures Valid(conv, Flush(st, insertOk, commitOk))
  {
    var acked := Rows(conv, st.consumed[..st.cursor]);
    if insertOk {
      SinkFromConsumed(conv, st);
      if commitOk {
        RowsSplit(conv, st.consumed, st.cursor);
        SubseqAppendBoth(acked, st.sink, st.batch);
        var r := Flush(st, insertOk, commitOk);
        assert r.consumed[..r.cursor] == st.consumed;
        assert r.consumed[r.cursor..] == [];
      } else {
        SubseqExtend(acked, st.sink, st.batch);
      }
    }
  }

  /** Reading a record keeps `Valid`, with its row, if it decodes to one,
      appended to the batch. */
  lemma RecordValid(conv: Conversions, st: Pipeline, p: Payload)
    requires Valid(conv, st)
    ensures var read := st.(consumed := st.consumed + [p]);
            match Decode(conv, p)
            case None => Valid(conv, read)
            case Some(row) => Valid(conv, read.(batch := read.batch + [row]))
  {
    var read := st.(consumed := st.consumed + [p]);
    assert read.consumed[..st.cursor] == st.consumed[..st.cursor];
    assert read.consumed[st.cursor..] == st.consumed[st.cursor..] + [p];
    RowsSnoc(conv, st.consumed[st.cursor..], p);
    RowsSnoc(conv, st.consumed, p);
    assert forall i :: 0 <= i < |st.sink| ==> st.sink[i] in Rows(conv, read.consumed);
  }

  /** Every step keeps `Valid`. */
  lemma StepValid(conv: Conversions, st: Pipeline, e: Event)
    requires Valid(conv, st)
    ensures Valid(conv, Step(conv, st, e))
  {
    if st.running {
      match e.poll
      case Idle =>
        if st.batch != [] {
          FlushValid(conv, st, e.insertOk, e.commitOk);
        }
      case SourceError =>
      case Record(p) =>
        RecordValid(conv, st, p);
        match Decode(conv, p)
        case None =>
        case Some(row) =>
          var appended := st.(consumed := st.consumed + [p], batch := st.batch + [row]);
          if |appended.batch| >= BatchSize {
            FlushValid(conv, appended, e.insertOk, e.commitOk);
          }
    }
  }

  /** Every run from a valid state ends in a valid state. */
  lemma {:induction false} RunValid(conv: Conversions, st: Pipeline, events: seq<Event>)
    requires Valid(conv, st)
    ensures Valid(conv, Run(conv, st, events))
    decreases |events|
  {
    if events != [] {
      RunValid(conv, st, events[..|events| - 1]);
      StepValid(conv, Run(conv, st, events[..|events| - 1]), events[|events| - 1]);
    }
  }

  /** A successful flush of a state whose table holds each committed row once
      stores the batch once and empties it. */
  lemma FlushClean(conv: Conversions, st: Pipeline)
    requires Valid(conv, st) && st.sink == Rows(conv, st.consumed[..st.cursor])
    ensures var r := Flush(st, true, true);
            r.sink == Rows(conv, r.consumed[..r.cursor]) && r.batch == []
  {
    assert st.consumed == st.consumed[..st.cursor] + st.consumed[st.cursor..];
    RowsAppend(conv, st.consumed[..st.cursor], st.consumed[st.cursor..]);
    assert st.consumed[..|st.consumed|] == st.consumed;
  }

  /** Steps whose flushes succeed keep `Clean`: the batch never reaches
      `BatchSize` between iterations and nothing is stored twice. */
  lemma StepClean(conv: Conversions, st: Pipeline, e: Event)
    requires Clean(conv, st)
    requires e.insertOk && e.commitOk
    ensures Clean(conv, Step(conv, st, e))
  {
    StepValid(conv, st, e);
    match e.poll
    case Idle =>
      if st.batch != [] {
        FlushClean(conv, st);
      }
    case SourceError =>
    case Record(p) =>
      var read := st.(consumed := st.consumed + [p]);
      assert read.consumed[..st.cursor] == st.consumed[..st.cursor];
      assert read.consumed[st.cursor..] == st.consumed[st.cursor..] + [p];
      RowsSnoc(conv, st.consumed[st.cursor..], p);
      match Decode(conv, p)
      case None =>
      case Some(row) =>
        var appended := read.(batch := read.batch + [row]);
        if |appended.batch| >= BatchSize {
          FlushClean(conv, appended);
        }
  }

  lemma {:induction false} RunClean(conv: Conversions, st: Pipeline, events: seq<Event>)
    requires Clean(conv, st)
    requires AllSucceed(events)
    ensures Clean(conv, Run(conv, st, events))
    decreases |events|
  {
    if events != [] {
      var front := events[..|events| - 1];
      assert AllSucceed(front) by {
        forall i | 0 <= i < |front|
          ensures front[i].insertOk && front[i].commitOk
        {
          assert front[i] == events[i];
        }
      }
      RunClean(conv, st, front);
      StepClean(conv, Run(conv, st, front), events[|events| - 1]);
    }
  }

  // ---------------------------------------------------------------------------
  // One iteration, case by case

  /** An empty poll with nothing buffered does nothing: no insert, no offset
      commit. */
  lemma IdleWithEmptyBatch(conv: Conversions, st: Pipeline, e: Event)
    requires e.poll.Idle? && st.batch == []
    ensures Step(conv, st, e) == st
  {
  }

  /** An empty poll with rows buffered inserts them all, in order, commits the
      offsets up to everything consumed, and empties the batch; if either
      fails, the loop ends with the batch and the committed position as they
      were (the table has the rows if only the offset commit failed). */
  lemma IdleFlush(conv: Conversions, st: Pipeline, e: Event)
    requires st.running && e.poll.Idle? && st.batch != []
    ensures var r := Step(conv, st, e);
            && r.consumed == st.consumed
            && (e.insertOk && e.commitOk ==>
                  r.sink == st.sink + st.batch && r.cursor == |st.consumed| && r.batch == [] && r.running)
            && (!(e.insertOk && e.commitOk) ==>
                  && !r.running && r.batch == st.batch && r.cursor == st.cursor
                  && r.sink == (if e.insertOk then st.sink + st.batch else st.sink))
  {
  }

  /** An error event leaves everything, the position included, unchanged. */
  lemma SourceErrorSkipped(conv: Conversions, st: Pipeline, e: Event)
    requires e.poll.SourceError?
    ensures Step(conv, st, e) == st
  {
  }

  /** A record that does not decode is consumed and otherwise ignored. */
  lemma UndecodableSkipped(conv: Conversions, st: Pipeline, e: Event)
    requires st.running && e.poll.Record? && Decode(conv, e.poll.payload).None?
    ensures Step(conv, st, e) == st.(consumed := st.consumed + [e.poll.payload])
  {
  }

  /** A record that decodes is appended at the end of the batch; when that
      brings the batch to `BatchSize` the batch is flushed at once; a failed
      size-triggered flush keeps the batch, with the new row, and the loop
      running. */
  lemma DecodedAppended(conv: Conversions, st: Pipeline, e: Event)
    requires st.running && e.poll.Record? && Decode(conv, e.poll.payload).Some?
    ensures var row := Decode(conv, e.poll.payload).value;
            var r := Step(conv, st, e);
            && r.consumed == st.consumed + [e.poll.payload]
            && r.running
            && (|st.batch| + 1 < BatchSize ==>
                  r.batch == st.batch + [row] && r.sink == st.sink && r.cursor == st.cursor)
            && (|st.batch| + 1 >= BatchSize && e.insertOk && e.commitOk ==>
                  r.batch == [] && r.sink == st.sink + st.batch + [row] && r.cursor == |r.consumed|)
            && (|st.batch| + 1 >= BatchSize && !(e.insertOk && e.commitOk) ==>
                  && r.batch == st.batch + [row] && r.cursor == st.cursor
                  && r.sink == (if e.insertOk then st.sink + st.batch + [row] else st.sink))
  {
  }

  /** Once the loop has ended nothing changes any more. */
  lemma {:induction false} StoppedIsFinal(conv: Conversions, st: Pipeline, events: seq<Event>)
    requires !st.running
    ensures Run(conv, st, events) == st
    decreases |events|
  {
    if events != [] {
      StoppedIsFinal(conv, st, events[..|events| - 1]);
    }
  }

  // ---------------------------------------------------------------------------
  // Whole runs

  /** The committed position never moves back. */
  lemma CursorMonotone(conv: Conversions, st: Pipeline, e: Event)
    requires Valid(conv, st)
    ensures Step(conv, st, e).cursor >= st.cursor
  {
  }

  /** No loss: whatever the insert and commit outcomes, the table together
      with the rows a restart re-reads from the committed position holds every
      row decoded so far, in order; what a restart re-reads is exactly the
      batch, so the only duplicates are batch rows already inserted. */
  lemma NoLossAcrossRestart(conv: Conversions, events: seq<Event>)
    ensures var r := Run(conv, Start(), events);
            && r.cursor <= |r.consumed|
            && Rows(conv, r.consumed[r.cursor..]) == r.batch
            && IsSubseq(Rows(conv, r.consumed), r.sink + Rows(conv, r.consumed[r.cursor..]))
  {
    StartValid(conv);
    RunValid(conv, Start(), events);
    var r := Run(conv, Start(), events);
    assert r.consumed == r.consumed[..r.cursor] + r.consumed[r.cursor..];
    RowsAppend(conv, r.consumed[..r.cursor], r.consumed[r.cursor..]);
    SubseqAppendBoth(Rows(conv, r.consumed[..r.cursor]), r.sink, r.batch);
  }

  /** With every flush succeeding, the batch stays below `BatchSize` between
      iterations and, after an empty poll, the table holds every decoded row
      exactly once and in arrival order, the batch is empty, and only records
      without a row lie past the committed position. */
  lemma CleanRunDeliversAll(conv: Conversions, events: seq<Event>)
    requires AllSucceed(events)
    requires events != [] && events[|events| - 1].poll.Idle?
    ensures var r := Run(conv, Start(), events);
            && r.running
            && r.sink == Rows(conv, r.consumed)
            && r.batch == []
            && r.cursor <= |r.consumed|
            && Rows(conv, r.consumed[r.cursor..]) == []
  {
    StartValid(conv);
    RunClean(conv, Start(), events);
    var r := Run(conv, Start(), events);
    assert r.consumed == r.consumed[..r.cursor] + r.consumed[r.cursor..];
    RowsAppend(conv, r.consumed[..r.cursor], r.consumed[r.cursor..]);
  }

  /** While every flush succeeds the batch never holds `BatchSize` rows
      between iterations. */
  lemma CleanRunBounded(conv: Conversions, events: seq<Event>)
    requires AllSucceed(events)
    ensures |Run(conv, Start(), events).batch| < BatchSize
  {
    StartValid(conv);
    RunClean(conv, Start(), events);
  }

  /** Two valid records around a malformed one, then an empty poll: the table
      holds the two rows, the position is past all three records. */
  lemma MalformedBetweenValid(conv: Conversions, a: Row, b: Row)
    ensures var r := Run(conv, Start(), [
              Event(Record(Document(Encode(a))), true, true),
              Event(Record(Unreadable), true, true),
              Event(Record(Document(Encode(b))), true, true),
              Event(Idle, true, true)]);
            r.sink == [a, b] && r.cursor == 3 && r.batch == []
  {
    var e0 := Event(Record(Document(Encode(a))), true, true);
    var e1 := Event(Record(Unreadable), true, true);
    var e2 := Event(Record(Document(Encode(b))), true, true);
    var e3 := Event(Idle, true, true);
    DecodeEncode(conv, a);
    DecodeEncode(conv, b);
    RunSnoc(conv, Start(), [], e0);
    assert [] + [e0] == [e0];
    var s1 := Step(conv, Start(), e0);
    assert s1.batch == [a] && |s1.consumed| == 1;
    RunSnoc(conv, Start(), [e0], e1);
    assert [e0] + [e1] == [e0, e1];
    var s2 := Step(conv, s1, e1);
    assert s2.batch == [a] && |s2.consumed| == 2;
    RunSnoc(conv, Start(), [e0, e1], e2);
    assert [e0, e1] + [e2] == [e0, e1, e2];
    var s3 := Step(conv, s2, e2);
    assert s3.batch == [a, b] && |s3.consumed| == 3;
    RunSnoc(conv, Start(), [e0, e1, e2], e3);
    assert [e0, e1, e2] + [e3] == [e0, e1, e2, e3];
  }
}
