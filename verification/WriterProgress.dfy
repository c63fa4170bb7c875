/** Progress of the writer: which messages it can never get past, that it drains otherwise, how much work a bounded
    number of failures can cost, and what its `written` counter means. */
module WriterProgress {
  import opened Market
  import opened Database
  import opened WriterModel
  import opened WriterSafety

  /** A message the loop can neither store nor skip. */
  predicate Blocks(m: Message) {
    m.Refused? || m.Fatal?
  }

  /** A blocking message the writer has not got past. */
  ghost predicate Stuck(w: World, p: nat, i: nat) {
    && WellFormed(w) && CanRewind(w) && p < |w.logs| && i < |w.logs[p]| && Blocks(w.logs[p][i])
    && ResumeAt(w.committed[p]) <= i && (w.up ==> w.position[p] <= i)
  }

  /** Reading past a message means having polled it. */
  lemma {:induction false} PassingPolls(position: seq<nat>, logs: Logs, batch: seq<Fetch>, p: nat, i: nat)
    requires |position| == |logs| && PollOk(position, logs, batch) && BatchOk(logs, batch)
    requires p < |logs| && position[p] <= i < Advance(position, batch)[p]
    ensures i < |logs[p]| && logs[p][i] in Polled(logs, batch)
    decreases batch
  {
    if batch == [] {
    } else {
      var f := batch[0];
      assert forall g :: g in batch[1..] ==> g in batch;
      if f.partition == p && i < f.hi {
        assert Segment(logs, f)[i - f.lo] == logs[p][i];
      } else {
        PassingPolls(position[f.partition := f.hi], logs, batch[1..], p, i);
      }
    }
  }

  lemma {:induction false} RefusedIsDecoded(msgs: seq<Message>)
    requires Refused in msgs
    ensures Decoded(msgs) != []
  {
    if msgs[0] == Refused {
    } else {
      assert msgs == [msgs[0]] + msgs[1..];
      RefusedIsDecoded(msgs[1..]);
    }
  }

  lemma TurnShape(w: World, batch: seq<Fetch>, o: Outcome)
    requires Enabled(w, Turn(batch, o))
    ensures WellFormed(TakeTurn(w, batch, o)) && TakeTurn(w, batch, o).logs == w.logs
  {
  }

  /** A turn that polls the blocking message fails: the process stops, or goes back. */
  lemma BlockedTurn(w: World, batch: seq<Fetch>, o: Outcome, m: Message)
    requires Enabled(w, Turn(batch, o)) && batch != [] && m in Polled(w.logs, batch) && Blocks(m)
    ensures
      var w' := TakeTurn(w, batch, o);
      && w'.committed == w.committed
      && (w'.up ==> w'.position == Seek(w.(position := Advance(w.position, batch))).position)
  {
    if Fatal !in Polled(w.logs, batch) {
      RefusedIsDecoded(Polled(w.logs, batch));
    }
  }

  lemma TurnStaysStuck(w: World, batch: seq<Fetch>, o: Outcome, p: nat, i: nat)
    requires Stuck(w, p, i) && Enabled(w, Turn(batch, o)) && batch != []
    ensures Stuck(TakeTurn(w, batch, o), p, i)
  {
    TurnShape(w, batch, o);
    if i < Advance(w.position, batch)[p] {
      PassingPolls(w.position, w.logs, batch, p, i);
      BlockedTurn(w, batch, o, w.logs[p][i]);
    }
  }

  lemma StepStaysStuck(w: World, e: Event, p: nat, i: nat)
    requires Stuck(w, p, i) && Enabled(w, e)
    ensures Stuck(Step(w, e), p, i)
  {
    if e.Turn? && e.batch != [] {
      TurnStaysStuck(w, e.batch, e.outcome, p, i);
    }
  }

  /** A blocking message past the committed offset stops the writer for good: no run drains, crash, restart and retry
      as it may. */
  lemma {:induction false} NeverPasses(w: World, events: seq<Event>, p: nat, i: nat)
    requires Stuck(w, p, i) && ValidRun(w, events)
    ensures Stuck(Run(w, events), p, i) && !Drained(Run(w, events))
    decreases events
  {
    if events == [] {
    } else {
      StepStaysStuck(w, events[0], p, i);
      NeverPasses(Step(w, events[0]), events[1..], p, i);
    }
  }

  /** A single refused row, in a log of its own, is enough: no run of a new deployment ever drains it. */
  lemma OneRefusedRowBlocks(events: seq<Event>)
    requires ValidRun(World([[Refused]], [None], true, [0], true, 0, map[], []), events)
    ensures
      var w := World([[Refused]], [None], true, [0], true, 0, map[], []);
      Rested(w) && WellFormed(Run(w, events)) && !Drained(Run(w, events))
  {
    NeverPasses(World([[Refused]], [None], true, [0], true, 0, map[], []), events, 0, 0);
  }

  // ---------- draining ----------

  /** Messages not read yet, over the partitions from `from` on. */
  function UnreadFrom(logs: Logs, position: seq<nat>, from: nat): int
    requires |position| == |logs| && from <= |logs|
    decreases |logs| - from
  {
    if from == |logs| then 0 else |logs[from]| - position[from] + UnreadFrom(logs, position, from + 1)
  }

  function Unread(w: World): int
    requires WellFormed(w)
  {
    UnreadFrom(w.logs, w.position, 0)
  }

  function TotalFrom(logs: Logs, from: nat): nat
    requires from <= |logs|
    decreases |logs| - from
  {
    if from == |logs| then 0 else |logs[from]| + TotalFrom(logs, from + 1)
  }

  lemma {:induction false} UnreadAfter(logs: Logs, a: seq<nat>, p: nat, n: nat, from: nat)
    requires |a| == |logs| && p < |logs| && from <= |logs|
    ensures UnreadFrom(logs, a[p := n], from) == UnreadFrom(logs, a, from) - if from <= p then n - a[p] else 0
    decreases |logs| - from
  {
    if from == |logs| {
    } else {
      UnreadAfter(logs, a, p, n, from + 1);
    }
  }

  lemma {:induction false} UnreadBounds(logs: Logs, a: seq<nat>, from: nat)
    requires |a| == |logs| && from <= |logs|
    ensures UnreadFrom(logs, a, from) <= TotalFrom(logs, from)
    ensures (forall p :: from <= p < |logs| ==> a[p] <= |logs[p]|) ==> UnreadFrom(logs, a, from) >= 0
    decreases |logs| - from
  {
    if from == |logs| {
    } else {
      UnreadBounds(logs, a, from + 1);
    }
  }

  /** Nothing at or past the position blocks. */
  ghost predicate ClearAhead(logs: Logs, position: seq<nat>)
    requires |position| == |logs|
  {
    forall p, i :: 0 <= p < |logs| && position[p] <= i < |logs[p]| ==> !Blocks(logs[p][i])
  }

  ghost predicate InLog(w: World)
    requires WellFormed(w)
  {
    forall p :: 0 <= p < |w.logs| ==> w.position[p] <= |w.logs[p]|
  }

  /** Events that happen without a new message arriving. */
  ghost predicate NoAppend(events: seq<Event>) {
    forall e :: e in events ==> !e.Append?
  }

  /** One turn that reads the next message of partition `p` and goes well. */
  function OneMore(w: World, p: nat): Event
    requires WellFormed(w) && p < |w.logs|
  {
    Turn([Fetch(p, w.position[p], w.position[p] + 1)], Stored(Acknowledged))
  }

  lemma OneMoreReads(w: World, p: nat)
    requires WellFormed(w) && w.up && p < |w.logs| && w.position[p] < |w.logs[p]| && InLog(w)
    requires !Blocks(w.logs[p][w.position[p]])
    ensures Enabled(w, OneMore(w, p))
    ensures
      var w' := Step(w, OneMore(w, p));
      && WellFormed(w') && w'.up && w'.logs == w.logs && w'.position == w.position[p := w.position[p] + 1]
  {
    var f := Fetch(p, w.position[p], w.position[p] + 1);
    var m := w.logs[p][w.position[p]];
    assert Segment(w.logs, f) == [m];
    assert [f][1..] == [];
    assert Polled(w.logs, [f]) == [m];
    assert Advance(w.position, [f]) == w.position[p := w.position[p] + 1];
    assert Decoded([m]) == [] <==> m.Malformed?;
  }

  lemma {:induction false} DrainFrom(w: World) returns (events: seq<Event>)
    requires WellFormed(w) && w.up && InLog(w) && ClearAhead(w.logs, w.position)
    ensures ValidRun(w, events) && NoAppend(events)
    ensures WellFormed(Run(w, events)) && Drained(Run(w, events))
    decreases Unread(w)
  {
    UnreadBounds(w.logs, w.position, 0);
    if p: nat :| p < |w.logs| && w.position[p] < |w.logs[p]| {
      var e := OneMore(w, p);
      OneMoreReads(w, p);
      UnreadAfter(w.logs, w.position, p, w.position[p] + 1, 0);
      UnreadBounds(w.logs, Step(w, e).position, 0);
      var rest := DrainFrom(Step(w, e));
      events := [e] + rest;
      assert events[1..] == rest;
    } else {
      events := [];
    }
  }

  ghost predicate CanDrain(w: World) {
    exists events :: ValidRun(w, events) && NoAppend(events)
      && WellFormed(Run(w, events)) && Drained(Run(w, events))
  }

  /** No message at or past a committed offset is one the loop can neither store nor skip. */
  ghost predicate NothingBlocks(w: World)
    requires WellFormed(w)
  {
    forall p, i :: 0 <= p < |w.logs| && ResumeAt(w.committed[p]) <= i < |w.logs[p]| ==> !Blocks(w.logs[p][i])
  }

  lemma CanDrainIffNothingBlocks(w: World, base: Table, high: seq<nat>, route: Route)
    requires Inv(w, base, high, route)
    ensures CanDrain(w) <==> NothingBlocks(w)
  {
    if p, i: nat :| 0 <= p < |w.logs| && ResumeAt(w.committed[p]) <= i < |w.logs[p]| && Blocks(w.logs[p][i]) {
      assert Stuck(w, p, i);
      forall events | ValidRun(w, events)
        ensures !(WellFormed(Run(w, events)) && Drained(Run(w, events)))
      {
        NeverPasses(w, events, p, i);
      }
    } else {
      var events: seq<Event>;
      if w.up {
        events := DrainFrom(w);
      } else {
        var rest := DrainFrom(Step(w, Restart));
        events := [Restart] + rest;
        assert events[1..] == rest;
      }
      assert ValidRun(w, events) && NoAppend(events) && Drained(Run(w, events));
    }
  }

  /** The exact condition of "skips malformed messages rather than crash-looping on them": a reachable state can be
      drained without new messages if and only if no message at or past a committed offset is one that decodes to a row
      the database rejects, or that raises an error the decoder does not catch. */
  lemma DrainableIff(w: World, events: seq<Event>, route: Route)
    requires Rested(w) && CanRewind(w) && ValidRun(w, events) && Keyed(Run(w, events).logs, route)
    ensures WellFormed(Run(w, events))
    ensures CanDrain(Run(w, events)) <==> NothingBlocks(Run(w, events))
  {
    RunGrowsLogs(w, events);
    KeyedBefore(w.logs, Run(w, events).logs, route);
    var high := RestedInv(w, route);
    high := RunKeepsInv(w, w.table, high, route, events);
    CanDrainIffNothingBlocks(Run(w, events), w.table, high, route);
  }

  // ---------- bounded work ----------

  /** A turn that read something and neither failed nor was cut short. */
  predicate Advances(w: World, e: Event)
    requires Enabled(w, e)
  {
    e.Turn? && e.batch != [] && Step(w, e).up
    && (e.outcome.InsertRaised? ==> Decoded(Polled(w.logs, e.batch)) == [])
  }

  /** A step that may cost work already done: a restart, or a turn that failed. */
  predicate SetsBack(w: World, e: Event)
    requires Enabled(w, e)
  {
    e.Restart? || (e.Turn? && e.batch != [] && !Advances(w, e))
  }

  function CountAdvances(w: World, events: seq<Event>): nat
    requires ValidRun(w, events)
    decreases events
  {
    if events == [] then 0
    else (if Advances(w, events[0]) then 1 else 0) + CountAdvances(Step(w, events[0]), events[1..])
  }

  function CountSetbacks(w: World, events: seq<Event>): nat
    requires ValidRun(w, events)
    decreases events
  {
    if events == [] then 0
    else (if SetsBack(w, events[0]) then 1 else 0) + CountSetbacks(Step(w, events[0]), events[1..])
  }

  lemma {:induction false} AdvanceReads(position: seq<nat>, logs: Logs, batch: seq<Fetch>)
    requires |position| == |logs| && PollOk(position, logs, batch)
    ensures UnreadFrom(logs, Advance(position, batch), 0) <= UnreadFrom(logs, position, 0) - |batch|
    decreases batch
  {
    if batch == [] {
    } else {
      var f := batch[0];
      UnreadAfter(logs, position, f.partition, f.hi, 0);
      AdvanceReads(position[f.partition := f.hi], logs, batch[1..]);
    }
  }

  /** No offset points past its log. */
  ghost predicate OffsetsInLog(w: World)
    requires WellFormed(w)
  {
    InLog(w) && forall p :: 0 <= p < |w.logs| ==> ResumeAt(w.committed[p]) <= |w.logs[p]|
  }

  /** What a turn does to offsets: it keeps the position the poll left, committed or not, or goes back to where it can
      resume. */
  lemma TurnOffsets(w: World, batch: seq<Fetch>, o: Outcome)
    requires Enabled(w, Turn(batch, o))
    ensures
      var w' := TakeTurn(w, batch, o);
      var read := w.(position := Advance(w.position, batch));
      || (w'.position == read.position && (w'.committed == w.committed || w'.committed == Commit(read).committed))
      || (!Advances(w, Turn(batch, o)) && batch != []
          && w'.position == Seek(read).position && w'.committed == w.committed)
  {
  }

  lemma TurnStaysInLog(w: World, batch: seq<Fetch>, o: Outcome)
    requires Enabled(w, Turn(batch, o)) && OffsetsInLog(w)
    ensures OffsetsInLog(TakeTurn(w, batch, o))
  {
    TurnShape(w, batch, o);
    TurnOffsets(w, batch, o);
    AdvanceInLog(w.position, w.logs, batch);
  }

  lemma TurnWork(w: World, batch: seq<Fetch>, o: Outcome)
    requires Enabled(w, Turn(batch, o)) && OffsetsInLog(w)
    ensures
      var w' := TakeTurn(w, batch, o);
      && WellFormed(w') && w'.logs == w.logs && OffsetsInLog(w')
      && (Advances(w, Turn(batch, o)) ==> Unread(w') <= Unread(w) - 1)
      && (batch == [] ==> Unread(w') == Unread(w))
  {
    TurnShape(w, batch, o);
    TurnOffsets(w, batch, o);
    TurnStaysInLog(w, batch, o);
    AdvanceReads(w.position, w.logs, batch);
  }

  lemma StepWork(w: World, e: Event)
    requires Enabled(w, e) && !e.Append? && OffsetsInLog(w)
    ensures WellFormed(Step(w, e)) && Step(w, e).logs == w.logs && OffsetsInLog(Step(w, e))
    ensures Advances(w, e) ==> Unread(Step(w, e)) <= Unread(w) - 1
    ensures SetsBack(w, e) ==> Unread(Step(w, e)) <= Unread(w) + TotalFrom(w.logs, 0)
    ensures !Advances(w, e) && !SetsBack(w, e) ==> Unread(Step(w, e)) == Unread(w)
    ensures Unread(w) >= 0
  {
    UnreadBounds(w.logs, w.position, 0);
    if e.Turn? {
      TurnWork(w, e.batch, e.outcome);
    }
    UnreadBounds(w.logs, Step(w, e).position, 0);
  }

  lemma AddOnce(s: nat, total: nat)
    ensures (1 + s) * total == total + s * total
  {
  }

  /** The work of a run: the good turns plus what is left to read never exceed what was unread at first plus one whole
      log per setback. So over a fixed log, finitely many failures leave room for finitely many turns that read. */
  lemma {:induction false} BoundedWork(w: World, events: seq<Event>)
    requires WellFormed(w) && OffsetsInLog(w) && ValidRun(w, events) && NoAppend(events)
    ensures WellFormed(Run(w, events)) && Unread(Run(w, events)) >= 0
    ensures CountAdvances(w, events) + Unread(Run(w, events)) <=
            Unread(w) + CountSetbacks(w, events) * TotalFrom(w.logs, 0)
    decreases events
  {
    if events == [] {
      UnreadBounds(w.logs, w.position, 0);
    } else {
      var e := events[0];
      StepWork(w, e);
      assert forall g :: g in events[1..] ==> g in events;
      BoundedWork(Step(w, e), events[1..]);
      AddOnce(CountSetbacks(Step(w, e), events[1..]), TotalFrom(w.logs, 0));
    }
  }

  // ---------- the writer drains ----------

  /** An empty poll comes back only when there is nothing left to read. */
  predicate PollsFairly(w: World, events: seq<Event>)
    requires ValidRun(w, events)
    decreases events
  {
    events == [] ||
    ((events[0].Turn? && events[0].batch == [] ==> WellFormed(w) && Unread(w) == 0)
     && PollsFairly(Step(w, events[0]), events[1..]))
  }

  function CountTurns(events: seq<Event>): nat {
    if events == [] then 0 else (if events[0].Turn? then 1 else 0) + CountTurns(events[1..])
  }

  lemma {:induction false} NothingUnread(logs: Logs, position: seq<nat>, from: nat)
    requires |position| == |logs| && from <= |logs| && UnreadFrom(logs, position, from) == 0
    requires forall p :: 0 <= p < |logs| ==> position[p] <= |logs[p]|
    ensures forall p :: from <= p < |logs| ==> position[p] == |logs[p]|
    decreases |logs| - from
  {
    if from == |logs| {
    } else {
      UnreadBounds(logs, position, from + 1);
      NothingUnread(logs, position, from + 1);
    }
  }

  /** At some point of the run everything in the log has been read and the loop is about to poll again. */
  ghost predicate DrainsAt(w: World, events: seq<Event>, i: nat) {
    i <= |events| && ValidRun(w, events[..i]) && WellFormed(Run(w, events[..i])) && Drained(Run(w, events[..i]))
  }

  lemma DrainsLater(w: World, events: seq<Event>, i: nat)
    requires ValidRun(w, events) && events != [] && DrainsAt(Step(w, events[0]), events[1..], i)
    ensures DrainsAt(w, events, i + 1)
  {
    assert events[..i + 1][1..] == events[1..][..i];
    assert events[..i + 1][0] == events[0];
  }

  /** A run that has not drained yet spends each turn on reading or on a setback. */
  lemma {:induction false} DrainsOrCounts(w: World, events: seq<Event>) returns (i: Option<nat>)
    requires WellFormed(w) && OffsetsInLog(w) && ValidRun(w, events) && NoAppend(events) && PollsFairly(w, events)
    ensures i.Some? ==> DrainsAt(w, events, i.value)
    ensures i.None? ==> CountTurns(events) <= CountAdvances(w, events) + CountSetbacks(w, events)
    decreases events
  {
    if events == [] {
      i := None;
    } else if events[0].Turn? && events[0].batch == [] {
      NothingUnread(w.logs, w.position, 0);
      assert events[..0] == [];
      i := Some(0);
    } else {
      StepWork(w, events[0]);
      assert forall g :: g in events[1..] ==> g in events;
      i := DrainsOrCounts(Step(w, events[0]), events[1..]);
      if i.Some? {
        DrainsLater(w, events, i.value);
        i := Some(i.value + 1);
      }
    }
  }

  lemma OneMoreEach(s: nat, total: nat)
    ensures s * (total + 1) == s * total + s
  {
  }

  /** The writer drains: over a fixed log, every run whose empty polls are honest, and that has more turns than there
      were messages unread and whole logs, plus one turn each, for its setbacks, has drained on the way. */
  lemma Drains(w: World, events: seq<Event>) returns (i: nat)
    requires WellFormed(w) && OffsetsInLog(w) && ValidRun(w, events) && NoAppend(events) && PollsFairly(w, events)
    requires CountTurns(events) > Unread(w) + CountSetbacks(w, events) * (TotalFrom(w.logs, 0) + 1)
    ensures DrainsAt(w, events, i)
  {
    BoundedWork(w, events);
    OneMoreEach(CountSetbacks(w, events), TotalFrom(w.logs, 0));
    var found := DrainsOrCounts(w, events);
    i := found.value;
  }

  lemma {:induction false} LogsStay(w: World, events: seq<Event>)
    requires ValidRun(w, events) && NoAppend(events) && WellFormed(w)
    ensures WellFormed(Run(w, events)) && Run(w, events).logs == w.logs
    decreases events
  {
    if events == [] {
    } else {
      var e := events[0];
      if e.Turn? {
        TurnShape(w, e.batch, e.outcome);
      }
      assert forall g :: g in events[1..] ==> g in events;
      LogsStay(Step(w, e), events[1..]);
    }
  }

  /** Progress and confluence together: a writer at rest over a fixed log, given enough turns for its setbacks, reaches
      a point where the table is that of one in-order pass over the log. */
  lemma ReachesInOrderPass(w: World, events: seq<Event>, route: Route) returns (i: nat)
    requires Rested(w) && CanRewind(w) && Keyed(w.logs, route)
    requires ValidRun(w, events) && NoAppend(events) && PollsFairly(w, events)
    requires CountTurns(events) > Unread(w) + CountSetbacks(w, events) * (TotalFrom(w.logs, 0) + 1)
    ensures DrainsAt(w, events, i) && Run(w, events[..i]).table == InOrderPass(w.table, w.logs)
  {
    i := Drains(w, events);
    assert forall e :: e in events[..i] ==> e in events;
    LogsStay(w, events[..i]);
    Confluence(w, events[..i], route);
  }

  // ---------- the `written` counter ----------

  /** A turn whose insert and commit were both seen to succeed. */
  predicate Reports(e: Event) {
    e.Turn? && e.outcome == Stored(Acknowledged)
  }

  /** Rows that reached the table without being counted: failed or cut inserts that were kept, late commits, and
      inserts whose offset commit broke. */
  function Uncounted(w: World, events: seq<Event>): int
    requires ValidRun(w, events)
    decreases events
  {
    if events == [] then 0
    else
      (if Reports(events[0]) then 0 else |Step(w, events[0]).table| - |w.table|)
      + Uncounted(Step(w, events[0]), events[1..])
  }

  /** A turn merges its batch into the table or leaves the table alone, and counts exactly what it reports. */
  lemma TurnCounts(w: World, batch: seq<Fetch>, o: Outcome)
    requires Enabled(w, Turn(batch, o))
    ensures
      var w' := TakeTurn(w, batch, o);
      && (w'.table == w.table || w'.table == Merge(w.table, Rows(Polled(w.logs, batch))))
      && w'.written - w.written == if o == Stored(Acknowledged) then |w'.table| - |w.table| else 0
  {
  }

  lemma StepCounts(w: World, e: Event)
    requires Enabled(w, e) && !e.Restart?
    ensures |Step(w, e).table| >= |w.table|
    ensures Step(w, e).written - w.written == if Reports(e) then |Step(w, e).table| - |w.table| else 0
  {
    if e.Turn? {
      TurnCounts(w, e.batch, e.outcome);
      InsertedCount(w.table, Rows(Polled(w.logs, e.batch)));
    } else if e.LateCommit? {
      InsertedCount(w.table, Rows(Polled(w.logs, w.late[e.index])));
    }
  }

  /** The keys of a batch are keys of the log. */
  lemma BatchKeys(logs: Logs, end: Logs, batch: seq<Fetch>, keys: set<Key>)
    requires BatchOk(logs, batch) && LogsGrow(logs, end)
    requires forall p :: 0 <= p < |end| ==> KeySet(Rows(end[p])) <= keys
    ensures KeySet(Rows(Polled(logs, batch))) <= keys
  {
    forall c | c in Rows(Polled(logs, batch))
      ensures KeyOf(c) in keys
    {
      var p := BatchRows(logs, end, batch, c);
      assert KeyOf(c) in KeySet(Rows(end[p]));
    }
  }

  /** Replaying the topic inserts nothing new: once every key of the log is stored, no run changes the table, from
      whatever offsets it starts. */
  lemma {:induction false} ReplayInsertsNothing(w: World, events: seq<Event>)
    requires WellFormed(w) && ValidRun(w, events)
    requires forall p :: 0 <= p < |Run(w, events).logs| ==> KeySet(Rows(Run(w, events).logs[p])) <= w.table.Keys
    ensures Run(w, events).table == w.table
    decreases events
  {
    if events == [] {
    } else {
      var e := events[0];
      RunGrowsLogs(w, events);
      if e.Turn? {
        BatchKeys(w.logs, Run(w, events).logs, e.batch, w.table.Keys);
        ReplayAddsNothing(w.table, Rows(Polled(w.logs, e.batch)));
        TurnCounts(w, e.batch, e.outcome);
        TurnShape(w, e.batch, e.outcome);
      } else if e.LateCommit? {
        BatchKeys(w.logs, Run(w, events).logs, w.late[e.index], w.table.Keys);
        ReplayAddsNothing(w.table, Rows(Polled(w.logs, w.late[e.index])));
      }
      ReplayInsertsNothing(Step(w, e), events[1..]);
    }
  }

  /** With no other inserter, `written` of one process never exceeds the table's growth, and equals it exactly when no
      uncounted insert added a row. */
  lemma {:induction false} WrittenAccounts(w: World, events: seq<Event>)
    requires ValidRun(w, events) && forall e :: e in events ==> !e.Restart?
    ensures Uncounted(w, events) >= 0
    ensures |Run(w, events).table| - |w.table| == Run(w, events).written - w.written + Uncounted(w, events)
    decreases events
  {
    if events == [] {
    } else {
      StepCounts(w, events[0]);
      assert forall g :: g in events[1..] ==> g in events;
      WrittenAccounts(Step(w, events[0]), events[1..]);
    }
  }

  /** The event adds no row that `written` misses: no failed or cut insert is kept, none in flight commits, and no
      offset commit breaks after an insert. */
  predicate MissesNoInsert(e: Event) {
    match e
    case Turn(_, Stored(commit)) => commit.Acknowledged?
    case Turn(_, InsertRaised(effect)) => effect != Applied
    case Turn(_, InsertCut(effect)) => effect != Applied
    case LateCommit(_) => false
    case _ => true
  }

  lemma QuietTurn(w: World, batch: seq<Fetch>, o: Outcome)
    requires Enabled(w, Turn(batch, o)) && MissesNoInsert(Turn(batch, o)) && !o.Stored?
    ensures TakeTurn(w, batch, o).table == w.table
  {
  }

  /** In a process life without such events, `written` is exactly the table's growth. */
  lemma {:induction false} WrittenIsGrowth(w: World, events: seq<Event>)
    requires ValidRun(w, events) && forall e :: e in events ==> !e.Restart? && MissesNoInsert(e)
    ensures Run(w, events).written - w.written == |Run(w, events).table| - |w.table|
    decreases events
  {
    if events == [] {
    } else {
      var e := events[0];
      StepCounts(w, e);
      if e.Turn? && !e.outcome.Stored? {
        QuietTurn(w, e.batch, e.outcome);
      }
      assert forall g :: g in events[1..] ==> g in events;
      WrittenIsGrowth(Step(w, e), events[1..]);
    }
  }
}
