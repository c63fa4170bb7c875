/** The consume loop itself, with the broker and the database it works against, proved step by step against the
    state machine of WriterModel. */
module Writer {
  import opened Market
  import opened Database
  import opened WriterModel

  lemma {:induction false} DecodedRows(msgs: seq<Message>)
    ensures Rows(Decoded(msgs)) == Rows(msgs)
  {
    if msgs == [] {
    } else {
      DecodedRows(msgs[1..]);
      if !msgs[0].Malformed? && !msgs[0].Fatal? {
        assert Decoded(msgs)[1..] == Decoded(msgs[1..]);
      }
    }
  }

  /** Decoding goes on behind what is decoded already. */
  lemma DecodeNext(decoded: seq<Message>, m: Message, tail: seq<Message>)
    ensures decoded + Decoded([m] + tail) == (if m.Row? || m.Refused? then decoded + [m] else decoded) + Decoded(tail)
    ensures Fatal in [m] + tail <==> m == Fatal || Fatal in tail
  {
    assert ([m] + tail)[1..] == tail;
    assert decoded + ([m] + Decoded(tail)) == decoded + [m] + Decoded(tail);
  }

  class WriterConsumer {
    var written: int
    // the client's in-memory offsets
    var position: seq<nat>
    // the broker
    var logs: Logs
    var committed: seq<Option<nat>>
    const rewinds: bool
    // the database, and the inserts it was left with by callers that gave up
    const db: CandleTable
    var late: seq<seq<Fetch>>

    ghost function View(up: bool): World
      reads this, db
    {
      World(logs, committed, rewinds, position, up, written, db.rows, late)
    }

    /** A new process: nothing written yet, offsets where the broker says. */
    constructor (logs: Logs, committed: seq<Option<nat>>, rewinds: bool, db: CandleTable, late: seq<seq<Fetch>>,
                 ghost before: World)
      requires WellFormed(before) && !before.up
      requires before.logs == logs && before.committed == committed && before.rewinds == rewinds
      requires before.table == db.rows && before.late == late
      ensures View(true) == Step(before, Restart)
      ensures this.db == db
    {
      this.written := 0;
      this.logs := logs;
      this.committed := committed;
      this.rewinds := rewinds;
      this.db := db;
      this.late := late;
      this.position := seq(|committed|, p requires 0 <= p < |committed| => ResumeAt(committed[p]));
    }

    method CommitOffsets()
      modifies this`committed
      ensures View(true) == Commit(old(View(true)))
    {
      var at := position;
      committed := seq(|at|, p requires 0 <= p < |at| => Some(at[p]));
    }

    method SeekToCommitted()
      requires WellFormed(View(true))
      modifies this`position
      ensures View(true) == Seek(old(View(true)))
    {
      var at, offsets, rewinds := position, committed, rewinds;
      position := seq<nat>(|at|, p requires 0 <= p < |at| =>
        if offsets[p].None? && !rewinds then at[p] else ResumeAt(offsets[p]));
    }

    /** An insert that did not return: the database kept it, dropped it, or still has it in flight. */
    method AbandonInsert(batch: seq<Fetch>, rows: seq<Candle>, effect: Effect)
      requires BatchOk(logs, batch) && rows == Rows(Polled(logs, batch))
      modifies this`late, db
      ensures View(true) == Aftermath(old(View(true)), batch, effect)
    {
      var _ := db.InsertCandles(rows, effect == Applied);
      if effect == Late {
        late := late + [batch];
      }
    }

    /** What `getmany` does to the client's offsets. */
    method MovePosition(batch: seq<Fetch>)
      requires |position| == |logs| && BatchOk(logs, batch)
      modifies this`position
      ensures View(true) == old(View(true)).(position := Advance(old(position), batch))
    {
      for i := 0 to |batch|
        invariant |position| == |logs|
        invariant Advance(position, batch[i..]) == Advance(old(position), batch)
      {
        assert batch[i] in batch;
        assert batch[i..][1..] == batch[i + 1..];
        position := position[batch[i].partition := batch[i].hi];
      }
    }

    /** `parse_kafka_candle` over the batch: the messages that gave a candle, or nothing if one raised an error that
        is not caught. */
    method DecodeBatch(batch: seq<Fetch>) returns (candles: Option<seq<Message>>)
      requires BatchOk(logs, batch)
      ensures candles == if Fatal in Polled(logs, batch) then None else Some(Decoded(Polled(logs, batch)))
    {
      ghost var all := Polled(logs, batch);
      var decoded := [];
      assert batch[0..] == batch;
      for i := 0 to |batch|
        invariant decoded + Decoded(Polled(logs, batch[i..])) == Decoded(all)
        invariant Fatal in all <==> Fatal in Polled(logs, batch[i..])
      {
        ghost var rest := Polled(logs, batch[i + 1..]);
        assert batch[i..][1..] == batch[i + 1..];
        var messages := Segment(logs, batch[i]);
        for j := 0 to |messages|
          invariant decoded + Decoded(messages[j..] + rest) == Decoded(all)
          invariant Fatal in all <==> Fatal in messages[j..] + rest
        {
          ghost var tail := messages[j + 1..] + rest;
          assert messages[j..] + rest == [messages[j]] + tail;
          DecodeNext(decoded, messages[j], tail);
          match messages[j]
          case Fatal =>
            return None;
          case Malformed =>
          case Row(_) => decoded := decoded + [messages[j]];
          case Refused => decoded := decoded + [messages[j]];
        }
        assert messages[|messages|..] + rest == rest;
      }
      assert batch[|batch|..] == [] && decoded + [] == decoded;
      return Some(decoded);
    }

    /** One turn of the `while True` loop; `batch` and `outcome` are what the client and the database decided. */
    method Turn(batch: seq<Fetch>, outcome: Outcome) returns (alive: bool)
      requires Enabled(View(true), Event.Turn(batch, outcome))
      modifies this, db
      ensures View(alive) == TakeTurn(old(View(true)), batch, outcome)
    {
      if |batch| == 0 {
        return true;
      }
      MovePosition(batch);
      var decoded := DecodeBatch(batch);
      if decoded.None? {
        return false;
      }
      var candles := decoded.value;
      DecodedRows(Polled(logs, batch));
      if |candles| > 0 {
        match outcome
        case Stored(commit) =>
          InsertedCount(db.rows, Rows(candles));
          var inserted := db.InsertCandles(Rows(candles), true);
          if commit.Acknowledged? || commit.landed {
            CommitOffsets();
          }
          if commit.Broken? {
            return false;
          }
          written := written + inserted;
        case InsertRaised(effect) =>
          AbandonInsert(batch, Rows(candles), effect);
          SeekToCommitted();
        case InsertCut(effect) =>
          AbandonInsert(batch, Rows(candles), effect);
          return false;
      }
      return true;
    }

    /** One process life: turns, and what happens around it, until it stops or the events end. */
    method Run(events: seq<Event>) returns (alive: bool, n: nat)
      requires ValidRun(View(true), events) && forall e :: e in events ==> !e.Restart?
      modifies this, db
      ensures n <= |events| && (n < |events| ==> !alive)
      ensures ValidRun(View(alive), events[n..])
      ensures WriterModel.Run(View(alive), events[n..]) == WriterModel.Run(old(View(true)), events)
    {
      alive, n := true, 0;
      assert events[0..] == events;
      while n < |events| && alive
        invariant n <= |events|
        invariant ValidRun(View(alive), events[n..])
        invariant WriterModel.Run(View(alive), events[n..]) == WriterModel.Run(old(View(true)), events)
      {
        assert events[n..][1..] == events[n + 1..];
        match events[n] {
          case Append(p, m) => logs := logs[p := logs[p] + [m]];
          case Turn(batch, outcome) => alive := Turn(batch, outcome);
          case LateCommit(i) => var _ := db.InsertCandles(Rows(Polled(logs, late[i])), true);
          case Crash => alive := false;
        }
        n := n + 1;
      }
    }
  }
}
