/** Safety of the writer over every run: what the table holds, what a committed offset promises, and confluence. */
module WriterSafety {
  import opened Market
  import opened Database
  import opened WriterModel

  /** The broker's partitioner: every message of one symbol sits in one partition. */
  type Route = string -> nat

  ghost predicate Keyed(logs: Logs, route: Route) {
    forall p, i :: 0 <= p < |logs| && 0 <= i < |logs[p]| && logs[p][i].Row? ==>
      route(logs[p][i].candle.symbol) == p
  }

  /** `high[p]` messages of partition `p` are accounted for in the table. */
  ghost predicate HighOk(logs: Logs, high: seq<nat>) {
    |high| == |logs| && forall p :: 0 <= p < |logs| ==> high[p] <= |logs[p]|
  }

  /** The first candle for `k` among the messages accounted for. */
  ghost function Seen(logs: Logs, high: seq<nat>, route: Route, k: Key): Option<Candle>
    requires HighOk(logs, high)
  {
    var p := route(k.symbol);
    if p < |logs| then FirstWith(Rows(logs[p][..high[p]]), k) else None
  }

  ghost predicate TableMatches(t: Table, base: Table, logs: Logs, high: seq<nat>, route: Route)
    requires HighOk(logs, high)
  {
    forall k :: Lookup(t, k) == Or(Lookup(base, k), Seen(logs, high, route, k))
  }

  /** A batch that starts, in each partition, at or below what is accounted for once its predecessors are merged. */
  ghost predicate Covered(logs: Logs, high: seq<nat>, batch: seq<Fetch>)
    requires HighOk(logs, high)
    decreases batch
  {
    batch == [] ||
    (FetchOk(logs, batch[0]) && batch[0].lo <= high[batch[0].partition] &&
     Covered(logs, RaiseOne(logs, high, batch[0]), batch[1..]))
  }

  ghost function RaiseOne(logs: Logs, high: seq<nat>, f: Fetch): (r: seq<nat>)
    requires HighOk(logs, high) && FetchOk(logs, f)
    ensures HighOk(logs, r)
  {
    high[f.partition := Max(high[f.partition], f.hi)]
  }

  ghost function Raise(logs: Logs, high: seq<nat>, batch: seq<Fetch>): (r: seq<nat>)
    requires HighOk(logs, high) && Covered(logs, high, batch)
    ensures HighOk(logs, r) && Below(high, r)
    decreases batch
  {
    if batch == [] then high else Raise(logs, RaiseOne(logs, high, batch[0]), batch[1..])
  }

  ghost predicate Below(a: seq<nat>, b: seq<nat>) {
    |a| == |b| && forall p :: 0 <= p < |a| ==> a[p] <= b[p]
  }

  // ---------- lists of messages ----------

  lemma {:induction false} RowsConcat(a: seq<Message>, b: seq<Message>)
    ensures Rows(a + b) == Rows(a) + Rows(b)
  {
    if a == [] {
      assert a + b == b;
    } else {
      assert (a + b)[1..] == a[1..] + b;
      RowsConcat(a[1..], b);
    }
  }

  lemma {:induction false} RowsFrom(msgs: seq<Message>, c: Candle)
    ensures c in Rows(msgs) <==> Row(c) in msgs
  {
    if msgs == [] {
    } else {
      RowsFrom(msgs[1..], c);
      assert msgs == [msgs[0]] + msgs[1..];
    }
  }

  lemma {:induction false} NothingDecoded(msgs: seq<Message>)
    requires Decoded(msgs) == []
    ensures Rows(msgs) == []
    ensures forall m :: m in msgs ==> m.Malformed? || m.Fatal?
  {
    if msgs == [] {
    } else {
      NothingDecoded(msgs[1..]);
      assert msgs == [msgs[0]] + msgs[1..];
    }
  }

  /** Keys of a foreign symbol do not occur in a partition. */
  lemma KeyElsewhere(logs: Logs, route: Route, f: Fetch, k: Key)
    requires Keyed(logs, route) && FetchOk(logs, f) && route(k.symbol) != f.partition
    ensures FirstWith(Rows(Segment(logs, f)), k) == None
  {
    var msgs := Segment(logs, f);
    forall c | c in Rows(msgs)
      ensures KeyOf(c) != k
    {
      RowsFrom(msgs, c);
      var i :| 0 <= i < |msgs| && msgs[i] == Row(c);
      assert logs[f.partition][f.lo + i] == msgs[i];
    }
    FirstWithAbsent(Rows(msgs), k);
  }

  /** Re-reading from at or below the mark only moves the mark. */
  lemma SegmentExtends(log: seq<Message>, h: nat, lo: nat, hi: nat, k: Key)
    requires lo <= h <= |log| && lo <= hi <= |log|
    ensures Or(FirstWith(Rows(log[..h]), k), FirstWith(Rows(log[lo..hi]), k)) == FirstWith(Rows(log[..Max(h, hi)]), k)
  {
    if hi <= h {
      assert log[..h] == log[..lo] + log[lo..hi] + log[hi..h];
      RowsConcat(log[..lo] + log[lo..hi], log[hi..h]);
      RowsConcat(log[..lo], log[lo..hi]);
      FirstWithConcat(Rows(log[..lo] + log[lo..hi]), Rows(log[hi..h]), k);
      FirstWithConcat(Rows(log[..lo]), Rows(log[lo..hi]), k);
    } else {
      assert log[lo..hi] == log[lo..h] + log[h..hi];
      assert log[..h] == log[..lo] + log[lo..h];
      assert log[..hi] == log[..h] + log[h..hi];
      RowsConcat(log[lo..h], log[h..hi]);
      RowsConcat(log[..lo], log[lo..h]);
      RowsConcat(log[..h], log[h..hi]);
      FirstWithConcat(Rows(log[lo..h]), Rows(log[h..hi]), k);
      FirstWithConcat(Rows(log[..lo]), Rows(log[lo..h]), k);
      FirstWithConcat(Rows(log[..h]), Rows(log[h..hi]), k);
    }
  }

  lemma MergeFetch(t: Table, base: Table, logs: Logs, high: seq<nat>, route: Route, f: Fetch)
    requires HighOk(logs, high) && Keyed(logs, route) && TableMatches(t, base, logs, high, route)
    requires FetchOk(logs, f) && f.lo <= high[f.partition]
    ensures TableMatches(Merge(t, Rows(Segment(logs, f))), base, logs, RaiseOne(logs, high, f), route)
  {
    var rows := Rows(Segment(logs, f));
    forall k
      ensures Lookup(Merge(t, rows), k) == Or(Lookup(base, k), Seen(logs, RaiseOne(logs, high, f), route, k))
    {
      MergeLookup(t, rows, k);
      if route(k.symbol) == f.partition {
        SegmentExtends(logs[f.partition], high[f.partition], f.lo, f.hi, k);
      } else {
        KeyElsewhere(logs, route, f, k);
      }
    }
  }

  lemma {:induction false} MergeBatch(t: Table, base: Table, logs: Logs, high: seq<nat>, route: Route,
                                      batch: seq<Fetch>)
    requires HighOk(logs, high) && Keyed(logs, route) && TableMatches(t, base, logs, high, route)
    requires Covered(logs, high, batch) && BatchOk(logs, batch)
    ensures TableMatches(Merge(t, Rows(Polled(logs, batch))), base, logs, Raise(logs, high, batch), route)
    decreases batch
  {
    if batch == [] {
    } else {
      var f := batch[0];
      var rows := Rows(Segment(logs, f));
      MergeFetch(t, base, logs, high, route, f);
      assert forall g :: g in batch[1..] ==> g in batch;
      MergeBatch(Merge(t, rows), base, logs, RaiseOne(logs, high, f), route, batch[1..]);
      RowsConcat(Segment(logs, f), Polled(logs, batch[1..]));
      MergeConcat(t, rows, Rows(Polled(logs, batch[1..])));
    }
  }

  lemma {:induction false} CoveredGrows(logs: Logs, low: seq<nat>, high: seq<nat>, batch: seq<Fetch>)
    requires HighOk(logs, low) && HighOk(logs, high) && Below(low, high) && Covered(logs, low, batch)
    ensures Covered(logs, high, batch)
    decreases batch
  {
    if batch == [] {
    } else {
      CoveredGrows(logs, RaiseOne(logs, low, batch[0]), RaiseOne(logs, high, batch[0]), batch[1..]);
    }
  }

  /** A poll starts at the client's position, so below what is accounted for. */
  lemma {:induction false} PollCovered(position: seq<nat>, logs: Logs, high: seq<nat>, batch: seq<Fetch>)
    requires |position| == |logs| && HighOk(logs, high) && Below(position, high) && PollOk(position, logs, batch)
    ensures Covered(logs, high, batch)
    ensures Below(Advance(position, batch), Raise(logs, high, batch)) && Below(position, Advance(position, batch))
    decreases batch
  {
    if batch == [] {
    } else {
      var f := batch[0];
      PollCovered(position[f.partition := f.hi], logs, RaiseOne(logs, high, f), batch[1..]);
    }
  }

  // ---------- growing logs ----------

  ghost predicate LogsGrow(a: Logs, b: Logs) {
    |a| == |b| && forall p :: 0 <= p < |a| ==> a[p] <= b[p]
  }

  lemma {:induction false} GrowthKeepsBatch(a: Logs, b: Logs, high: seq<nat>, batch: seq<Fetch>)
    requires LogsGrow(a, b) && HighOk(a, high) && Covered(a, high, batch)
    ensures HighOk(b, high) && Covered(b, high, batch)
    decreases batch
  {
    if batch == [] {
    } else {
      GrowthKeepsBatch(a, b, RaiseOne(a, high, batch[0]), batch[1..]);
    }
  }

  lemma GrowthKeepsTable(t: Table, base: Table, a: Logs, b: Logs, high: seq<nat>, route: Route)
    requires LogsGrow(a, b) && HighOk(a, high) && TableMatches(t, base, a, high, route)
    ensures HighOk(b, high) && TableMatches(t, base, b, high, route)
  {
    forall k
      ensures Lookup(t, k) == Or(Lookup(base, k), Seen(b, high, route, k))
    {
      var p := route(k.symbol);
      if p < |a| {
        assert a[p][..high[p]] == b[p][..high[p]];
      }
    }
  }

  // ---------- the invariant ----------

  /** The client can be sent back everywhere: either it rewinds uncommitted partitions, or there are none. */
  ghost predicate CanRewind(w: World) {
    w.rewinds || forall p :: 0 <= p < |w.committed| ==> w.committed[p].Some?
  }

  /** Between the committed offset and the position lie skipped messages only. */
  ghost predicate GapSkipped(logs: Logs, committed: seq<Option<nat>>, position: seq<nat>)
    requires |committed| == |logs| && |position| == |logs|
  {
    forall p :: 0 <= p < |logs| ==>
      && ResumeAt(committed[p]) <= position[p] <= |logs[p]|
      && (forall i :: ResumeAt(committed[p]) <= i < position[p] ==> logs[p][i].Malformed?)
  }

  ghost predicate Inv(w: World, base: Table, high: seq<nat>, route: Route) {
    && WellFormed(w) && CanRewind(w) && Keyed(w.logs, route) && HighOk(w.logs, high)
    && TableMatches(w.table, base, w.logs, high, route)
    && (forall p :: 0 <= p < |w.logs| ==> ResumeAt(w.committed[p]) <= high[p])
    && (w.up ==> GapSkipped(w.logs, w.committed, w.position) && Below(w.position, high))
    && (forall b :: b in w.late ==> Covered(w.logs, high, b))
  }

  lemma RestedInv(w: World, route: Route) returns (high: seq<nat>)
    requires Rested(w) && CanRewind(w) && Keyed(w.logs, route)
    ensures Inv(w, w.table, high, route)
  {
    high := w.position;
    forall k
      ensures Lookup(w.table, k) == Or(Lookup(w.table, k), Seen(w.logs, high, route, k))
    {
      var p := route(k.symbol);
      if p < |w.logs| {
        var msgs := w.logs[p][..high[p]];
        forall c | c in Rows(msgs)
          ensures KeyOf(c) in w.table
        {
          RowsFrom(msgs, c);
          var i :| 0 <= i < |msgs| && msgs[i] == Row(c);
          assert w.logs[p][i] == Row(c);
        }
        FirstWithAbsent(Rows(msgs), k);
      }
    }
  }

  /** A read that yields no candle and no error moves the position over skipped messages only. */
  lemma {:induction false} SkipKeepsGap(logs: Logs, committed: seq<Option<nat>>, position: seq<nat>, batch: seq<Fetch>)
    requires |committed| == |logs| && |position| == |logs| && PollOk(position, logs, batch) && BatchOk(logs, batch)
    requires GapSkipped(logs, committed, position)
    requires forall m :: m in Polled(logs, batch) ==> m.Malformed?
    ensures GapSkipped(logs, committed, Advance(position, batch))
    decreases batch
  {
    if batch == [] {
    } else {
      var f := batch[0];
      var next := position[f.partition := f.hi];
      var msgs := Segment(logs, f);
      forall i | f.lo <= i < f.hi
        ensures logs[f.partition][i].Malformed?
      {
        assert logs[f.partition][i] == msgs[i - f.lo];
        assert msgs[i - f.lo] in Polled(logs, batch);
      }
      assert forall g :: g in batch[1..] ==> g in batch;
      assert forall m :: m in Polled(logs, batch[1..]) ==> m in Polled(logs, batch);
      SkipKeepsGap(logs, committed, next, batch[1..]);
    }
  }

  lemma {:induction false} AdvanceInLog(position: seq<nat>, logs: Logs, batch: seq<Fetch>)
    requires |position| == |logs| && PollOk(position, logs, batch)
    requires forall p :: 0 <= p < |logs| ==> position[p] <= |logs[p]|
    ensures forall p :: 0 <= p < |logs| ==> position[p] <= Advance(position, batch)[p] <= |logs[p]|
    decreases batch
  {
    if batch == [] {
    } else {
      AdvanceInLog(position[batch[0].partition := batch[0].hi], logs, batch[1..]);
    }
  }

  lemma AppendKeepsInv(w: World, base: Table, high: seq<nat>, route: Route, e: Event)
    requires Inv(w, base, high, route) && e.Append? && Enabled(w, e) && Keyed(Step(w, e).logs, route)
    ensures Inv(Step(w, e), base, high, route)
  {
    var w' := Step(w, e);
    assert LogsGrow(w.logs, w'.logs);
    GrowthKeepsTable(w.table, base, w.logs, w'.logs, high, route);
    forall b | b in w'.late
      ensures Covered(w'.logs, high, b)
    {
      GrowthKeepsBatch(w.logs, w'.logs, high, b);
    }
  }

  /** Merging a batch that is covered re-establishes the invariant's view of the table. */
  lemma ApplyKeepsInv(w: World, base: Table, high: seq<nat>, route: Route, batch: seq<Fetch>, w': World)
    requires Inv(w, base, high, route) && BatchOk(w.logs, batch) && Covered(w.logs, high, batch)
    requires w' == w.(table := Merge(w.table, Rows(Polled(w.logs, batch))))
    ensures Inv(w', base, Raise(w.logs, high, batch), route)
  {
    MergeBatch(w.table, base, w.logs, high, route, batch);
    forall b | b in w'.late
      ensures Covered(w'.logs, Raise(w.logs, high, batch), b)
    {
      CoveredGrows(w.logs, high, Raise(w.logs, high, batch), b);
    }
  }

  /** Stopping, or going back to the committed offsets, never breaks it. */
  lemma RewindKeepsInv(w: World, base: Table, high: seq<nat>, route: Route)
    requires Inv(w.(up := false), base, high, route)
    ensures Inv(Seek(w).(up := true), base, high, route)
  {
  }

  lemma AftermathKeepsInv(w: World, base: Table, high: seq<nat>, route: Route, batch: seq<Fetch>, effect: Effect)
    returns (high': seq<nat>)
    requires Inv(w, base, high, route) && !w.up && BatchOk(w.logs, batch) && Covered(w.logs, high, batch)
    ensures Inv(Aftermath(w, batch, effect), base, high', route)
  {
    high' := high;
    match effect
    case Applied =>
      ApplyKeepsInv(w, base, high, route, batch, Aftermath(w, batch, effect));
      high' := Raise(w.logs, high, batch);
    case NotApplied =>
    case Late =>
  }

  /** A turn that yields no candle leaves the table alone; the mark may move with the position. */
  lemma SkipKeepsInv(w: World, base: Table, high: seq<nat>, route: Route, batch: seq<Fetch>)
    requires Inv(w, base, high, route) && w.up && PollOk(w.position, w.logs, batch) && BatchOk(w.logs, batch)
    requires Fatal !in Polled(w.logs, batch) && Decoded(Polled(w.logs, batch)) == [] && Covered(w.logs, high, batch)
    ensures Inv(w.(position := Advance(w.position, batch)), base, Raise(w.logs, high, batch), route)
  {
    NothingDecoded(Polled(w.logs, batch));
    SkipKeepsGap(w.logs, w.committed, w.position, batch);
    PollCovered(w.position, w.logs, high, batch);
    assert Merge(w.table, []) == w.table;
    ApplyKeepsInv(w, base, high, route, batch, w);
  }

  /** A batch that is stored: its messages are accounted for, committed or not. */
  lemma StoreKeepsInv(w: World, base: Table, high: seq<nat>, route: Route, batch: seq<Fetch>, stored: World)
    requires Inv(w, base, high, route) && w.up && PollOk(w.position, w.logs, batch) && BatchOk(w.logs, batch)
    requires Covered(w.logs, high, batch)
    requires stored == w.(position := Advance(w.position, batch), table := Merge(w.table, Rows(Polled(w.logs, batch))))
    ensures Inv(Stop(stored), base, Raise(w.logs, high, batch), route)
    ensures Inv(Commit(stored), base, Raise(w.logs, high, batch), route)
  {
    PollCovered(w.position, w.logs, high, batch);
    AdvanceInLog(w.position, w.logs, batch);
    ApplyKeepsInv(w, base, high, route, batch, w.(table := stored.table));
  }

  lemma WrittenIsFree(w: World, base: Table, high: seq<nat>, route: Route, written: int)
    requires Inv(w, base, high, route)
    ensures Inv(w.(written := written), base, high, route)
  {
  }

  lemma StopKeepsInv(w: World, base: Table, high: seq<nat>, route: Route, position: seq<nat>)
    requires Inv(w, base, high, route) && |position| == |w.position|
    ensures Inv(Stop(w.(position := position)), base, high, route)
  {
  }

  lemma TurnKeepsInv(w: World, base: Table, high: seq<nat>, route: Route, batch: seq<Fetch>, o: Outcome)
    returns (high': seq<nat>)
    requires Inv(w, base, high, route) && Enabled(w, Turn(batch, o))
    ensures Inv(TakeTurn(w, batch, o), base, high', route)
  {
    high' := high;
    if batch != [] {
      var msgs := Polled(w.logs, batch);
      var read := w.(position := Advance(w.position, batch));
      PollCovered(w.position, w.logs, high, batch);
      StopKeepsInv(w, base, high, route, read.position);
      if Fatal in msgs {
      } else if Decoded(msgs) == [] {
        SkipKeepsInv(w, base, high, route, batch);
        high' := Raise(w.logs, high, batch);
      } else {
        high' := StoringKeepsInv(w, base, high, route, batch, o);
      }
    }
  }

  lemma StoredKeepsInv(w: World, base: Table, high: seq<nat>, route: Route, batch: seq<Fetch>, commit: CommitResult)
    requires Inv(w, base, high, route) && Enabled(w, Turn(batch, Stored(commit))) && batch != []
    requires Covered(w.logs, high, batch)
    requires Fatal !in Polled(w.logs, batch) && Decoded(Polled(w.logs, batch)) != []
    ensures Inv(TakeTurn(w, batch, Stored(commit)), base, Raise(w.logs, high, batch), route)
  {
    var stored := w.(position := Advance(w.position, batch), table := Merge(w.table, Rows(Polled(w.logs, batch))));
    var high' := Raise(w.logs, high, batch);
    StoreKeepsInv(w, base, high, route, batch, stored);
    if commit.Acknowledged? {
      WrittenIsFree(Commit(stored), base, high', route, w.written + |stored.table| - |w.table|);
    } else if commit.landed {
      StopKeepsInv(Commit(stored), base, high', route, stored.position);
    }
  }

  lemma StoringKeepsInv(w: World, base: Table, high: seq<nat>, route: Route, batch: seq<Fetch>, o: Outcome)
    returns (high': seq<nat>)
    requires Inv(w, base, high, route) && Enabled(w, Turn(batch, o)) && batch != [] && Covered(w.logs, high, batch)
    requires Fatal !in Polled(w.logs, batch) && Decoded(Polled(w.logs, batch)) != []
    ensures Inv(TakeTurn(w, batch, o), base, high', route)
  {
    var read := w.(position := Advance(w.position, batch));
    match o
    case Stored(commit) =>
      high' := Raise(w.logs, high, batch);
      StoredKeepsInv(w, base, high, route, batch, commit);
    case InsertRaised(effect) =>
      StopKeepsInv(w, base, high, route, read.position);
      high' := AftermathKeepsInv(Stop(read), base, high, route, batch, effect);
      RewindKeepsInv(Aftermath(read, batch, effect), base, high', route);
    case InsertCut(effect) =>
      StopKeepsInv(w, base, high, route, read.position);
      high' := AftermathKeepsInv(Stop(read), base, high, route, batch, effect);
  }

  lemma {:induction false} LateIsBatch(logs: Logs, high: seq<nat>, batch: seq<Fetch>)
    requires HighOk(logs, high) && Covered(logs, high, batch)
    ensures BatchOk(logs, batch)
    decreases batch
  {
    if batch == [] {
    } else {
      LateIsBatch(logs, RaiseOne(logs, high, batch[0]), batch[1..]);
      assert batch == [batch[0]] + batch[1..];
    }
  }

  /** An insert in flight can always commit: the guard of `LateCommit` shuts out no reachable state. */
  lemma LateCanCommit(w: World, base: Table, high: seq<nat>, route: Route, i: nat)
    requires Inv(w, base, high, route) && i < |w.late|
    ensures Enabled(w, LateCommit(i))
  {
    assert w.late[i] in w.late;
    LateIsBatch(w.logs, high, w.late[i]);
  }

  lemma StepKeepsInv(w: World, base: Table, high: seq<nat>, route: Route, e: Event) returns (high': seq<nat>)
    requires Inv(w, base, high, route) && Enabled(w, e) && Keyed(Step(w, e).logs, route)
    ensures Inv(Step(w, e), base, high', route)
  {
    high' := high;
    match e
    case Append(p, m) => AppendKeepsInv(w, base, high, route, e);
    case Turn(batch, o) => high' := TurnKeepsInv(w, base, high, route, batch, o);
    case LateCommit(i) =>
      ApplyKeepsInv(w, base, high, route, w.late[i], Step(w, e));
      high' := Raise(w.logs, high, w.late[i]);
    case Crash =>
    case Restart =>
  }

  /** Logs only grow, so the final logs being keyed covers every state on the way. */
  lemma {:induction false} RunGrowsLogs(w: World, events: seq<Event>)
    requires WellFormed(w) && ValidRun(w, events)
    ensures WellFormed(Run(w, events)) && LogsGrow(w.logs, Run(w, events).logs)
    decreases events
  {
    if events == [] {
    } else {
      var w' := Step(w, events[0]);
      assert LogsGrow(w.logs, w'.logs);
      RunGrowsLogs(w', events[1..]);
      forall p | 0 <= p < |w.logs|
        ensures w.logs[p] <= Run(w, events).logs[p]
      {
        assert w.logs[p] <= w'.logs[p] <= Run(w', events[1..]).logs[p];
      }
    }
  }

  lemma KeyedBefore(a: Logs, b: Logs, route: Route)
    requires LogsGrow(a, b) && Keyed(b, route)
    ensures Keyed(a, route)
  {
    forall p, i | 0 <= p < |a| && 0 <= i < |a[p]| && a[p][i].Row?
      ensures route(a[p][i].candle.symbol) == p
    {
      assert a[p] <= b[p];
      assert b[p][i] == a[p][i];
    }
  }

  lemma KeyedNext(w: World, events: seq<Event>, route: Route)
    requires WellFormed(w) && ValidRun(w, events) && events != [] && Keyed(Run(w, events).logs, route)
    ensures Keyed(Step(w, events[0]).logs, route)
  {
    RunGrowsLogs(Step(w, events[0]), events[1..]);
    KeyedBefore(Step(w, events[0]).logs, Run(w, events).logs, route);
  }

  lemma {:induction false} RunKeepsInv(w: World, base: Table, high: seq<nat>, route: Route, events: seq<Event>)
    returns (high': seq<nat>)
    requires Inv(w, base, high, route) && ValidRun(w, events) && Keyed(Run(w, events).logs, route)
    ensures Inv(Run(w, events), base, high', route)
    decreases events
  {
    if events == [] {
      high' := high;
    } else {
      var w' := Step(w, events[0]);
      KeyedNext(w, events, route);
      high' := StepKeepsInv(w, base, high, route, events[0]);
      high' := RunKeepsInv(w', base, high', route, events[1..]);
    }
  }

  // ---------- the reference pass ----------

  /** The first candle for `k` in the partitions from `from` on. */
  lemma {:induction false} PassLookup(t: Table, logs: Logs, route: Route, from: nat, k: Key)
    requires from <= |logs| && Keyed(logs, route)
    ensures
      var p := route(k.symbol);
      Lookup(InOrderPass(t, logs[from..]), k) ==
      Or(Lookup(t, k), if from <= p < |logs| then FirstWith(Rows(logs[p]), k) else None)
    decreases |logs| - from
  {
    if from == |logs| {
    } else {
      var rows := Rows(logs[from]);
      assert logs[from..][1..] == logs[from + 1..];
      PassLookup(Merge(t, rows), logs, route, from + 1, k);
      MergeLookup(t, rows, k);
      if route(k.symbol) != from {
        assert Segment(logs, Fetch(from, 0, |logs[from]|)) == logs[from];
        KeyElsewhere(logs, route, Fetch(from, 0, |logs[from]|), k);
      }
    }
  }

  /** A row of a batch is a row of its partition, now and after any growth of the logs. */
  lemma {:induction false} BatchRows(logs: Logs, end: Logs, batch: seq<Fetch>, c: Candle) returns (p: nat)
    requires BatchOk(logs, batch) && LogsGrow(logs, end) && c in Rows(Polled(logs, batch))
    ensures p < |end| && c in Rows(end[p])
  {
    var f := batch[0];
    var msgs := Segment(logs, f);
    RowsConcat(msgs, Polled(logs, batch[1..]));
    if c in Rows(msgs) {
      p := f.partition;
      RowsFrom(msgs, c);
      var i :| 0 <= i < |msgs| && msgs[i] == Row(c);
      assert logs[p] <= end[p];
      assert end[p][f.lo + i] == Row(c);
      RowsFrom(end[p], c);
    } else {
      assert forall g :: g in batch[1..] ==> g in batch;
      p := BatchRows(logs, end, batch[1..], c);
    }
  }

  // ---------- main results ----------

  /** Confluence: however the log was polled, retried, crashed over and resumed, a drained writer leaves the table of
      one in-order pass over the log. */
  lemma Confluence(w: World, events: seq<Event>, route: Route)
    requires Rested(w) && CanRewind(w) && ValidRun(w, events) && Keyed(Run(w, events).logs, route)
    ensures WellFormed(Run(w, events))
    ensures Drained(Run(w, events)) ==> Run(w, events).table == InOrderPass(w.table, Run(w, events).logs)
  {
    RunGrowsLogs(w, events);
    KeyedBefore(w.logs, Run(w, events).logs, route);
    var high := RestedInv(w, route);
    high := RunKeepsInv(w, w.table, high, route, events);
    var end := Run(w, events);
    if Drained(end) {
      assert end.logs[0..] == end.logs;
      forall k
        ensures Lookup(end.table, k) == Lookup(InOrderPass(w.table, end.logs), k)
      {
        PassLookup(w.table, end.logs, route, 0, k);
        var p := route(k.symbol);
        if p < |end.logs| {
          assert high[p] == |end.logs[p]|;
          assert end.logs[p][..high[p]] == end.logs[p];
        }
      }
      SameTable(end.table, InOrderPass(w.table, end.logs));
    }
  }

  /** Two writers that end on the same log agree, whatever happened to each of them. */
  lemma RunsAgree(v: World, w: World, vs: seq<Event>, ws: seq<Event>, route: Route)
    requires Rested(v) && CanRewind(v) && ValidRun(v, vs) && Rested(w) && CanRewind(w) && ValidRun(w, ws)
    requires v.table == w.table && Run(v, vs).logs == Run(w, ws).logs && Keyed(Run(v, vs).logs, route)
    requires WellFormed(Run(v, vs)) && WellFormed(Run(w, ws)) && Drained(Run(v, vs)) && Drained(Run(w, ws))
    ensures Run(v, vs).table == Run(w, ws).table
  {
    Confluence(v, vs, route);
    Confluence(w, ws, route);
  }

  lemma {:induction false} RowCounts(log: seq<Message>, h: nat, i: nat)
    requires i < h <= |log| && log[i].Row?
    ensures FirstWith(Rows(log[..h]), KeyOf(log[i].candle)).Some?
  {
    var k := KeyOf(log[i].candle);
    RowsFrom(log[..h], log[i].candle);
    assert log[..h][i] == log[i];
    FirstWithAbsent(Rows(log[..h]), k);
    assert k in KeySet(Rows(log[..h]));
  }

  /** `k` is stored with the value it had at the outset or else that of its first candle in partition `p`. */
  ghost predicate HoldsFirst(w: World, base: Table, p: nat, k: Key)
    requires p < |w.logs|
  {
    k in w.table && Lookup(w.table, k) == Or(Lookup(base, k), FirstWith(Rows(w.logs[p]), k))
  }

  /** Commit safety, in every reachable state: a candle below a committed offset is in the table under its key, with
      the value of the first candle logged for that key; and at the top of the loop nothing but skipped messages lies
      between the committed offset and the position. */
  lemma CommitSafety(w: World, events: seq<Event>, route: Route)
    requires Rested(w) && CanRewind(w) && ValidRun(w, events) && Keyed(Run(w, events).logs, route)
    ensures
      var end := Run(w, events);
      && WellFormed(end)
      && (forall p, i | 0 <= p < |end.logs| && 0 <= i < |end.logs[p]| && i < ResumeAt(end.committed[p])
            :: end.logs[p][i].Row? ==> HoldsFirst(end, w.table, p, KeyOf(end.logs[p][i].candle)))
      && (end.up ==> GapSkipped(end.logs, end.committed, end.position))
  {
    RunGrowsLogs(w, events);
    KeyedBefore(w.logs, Run(w, events).logs, route);
    var high := RestedInv(w, route);
    high := RunKeepsInv(w, w.table, high, route, events);
    var end := Run(w, events);
    forall p, i | 0 <= p < |end.logs| && 0 <= i < |end.logs[p]| && i < ResumeAt(end.committed[p]) && end.logs[p][i].Row?
      ensures HoldsFirst(end, w.table, p, KeyOf(end.logs[p][i].candle))
    {
      var k := KeyOf(end.logs[p][i].candle);
      RowCounts(end.logs[p], high[p], i);
      assert Lookup(end.table, k) == Or(Lookup(w.table, k), Seen(end.logs, high, route, k));
      assert end.logs[p] == end.logs[p][..high[p]] + end.logs[p][high[p]..];
      RowsConcat(end.logs[p][..high[p]], end.logs[p][high[p]..]);
      FirstWithConcat(Rows(end.logs[p][..high[p]]), Rows(end.logs[p][high[p]..]), k);
    }
  }

  /** Offsets are committed after the write, never before: whenever a step changes them, it is a turn whose insert
      returned, the candles of its batch are in the table, and the offsets are those the poll reached. */
  lemma CommitFollowsWrite(w: World, e: Event)
    requires Enabled(w, e) && Step(w, e).committed != w.committed
    ensures e.Turn? && e.outcome.Stored? && Decoded(Polled(w.logs, e.batch)) != []
    ensures KeySet(Rows(Polled(w.logs, e.batch))) <= Step(w, e).table.Keys
    ensures Step(w, e).committed == Commit(w.(position := Advance(w.position, e.batch))).committed
  {
    if e.Turn? {
      CommittingTurn(w, e.batch, e.outcome);
      MergeKeys(w.table, Rows(Polled(w.logs, e.batch)));
    }
  }

  lemma CommittingTurn(w: World, batch: seq<Fetch>, o: Outcome)
    requires Enabled(w, Turn(batch, o)) && TakeTurn(w, batch, o).committed != w.committed
    ensures o.Stored? && Decoded(Polled(w.logs, batch)) != []
    ensures TakeTurn(w, batch, o).table == Merge(w.table, Rows(Polled(w.logs, batch)))
    ensures TakeTurn(w, batch, o).committed == Commit(w.(position := Advance(w.position, batch))).committed
  {
  }

  /** A stored candle is never changed or removed. */
  lemma {:induction false} TableOnlyGrows(w: World, events: seq<Event>, k: Key)
    requires ValidRun(w, events) && k in w.table
    ensures k in Run(w, events).table && Run(w, events).table[k] == w.table[k]
    decreases events
  {
    if events == [] {
    } else {
      var e := events[0];
      var w' := Step(w, e);
      if e.Turn? {
        MergeLookup(w.table, Rows(Polled(w.logs, e.batch)), k);
      } else if e.LateCommit? {
        MergeLookup(w.table, Rows(Polled(w.logs, w.late[e.index])), k);
      }
      assert Lookup(w'.table, k) == Lookup(w.table, k);
      TableOnlyGrows(w', events[1..], k);
    }
  }

  /** One message polled on its own. */
  lemma OneMessage(logs: Logs, lo: nat)
    requires |logs| == 1 && lo < |logs[0]| && logs[0][lo].Row?
    ensures
      var batch := [Fetch(0, lo, lo + 1)];
      && BatchOk(logs, batch) && PollOk([lo], logs, batch) && Size(batch) == 1
      && Polled(logs, batch) == [logs[0][lo]] == Decoded(Polled(logs, batch))
      && Rows(Polled(logs, batch)) == [logs[0][lo].candle] && Advance([lo], batch) == [lo + 1]
  {
    var f := Fetch(0, lo, lo + 1);
    assert Segment(logs, f) == [logs[0][lo]];
    assert [f][1..] == [];
  }

  /** A single partition read up to `lo`, with nothing committed, by a client that does not rewind. */
  function Unwound(log: seq<Message>, lo: nat): World {
    World([log], [None], false, [lo], true, 0, map[], [])
  }

  lemma DroppedInsert(log: seq<Message>, lo: nat)
    requires lo < |log| && log[lo].Row?
    ensures
      var e := Turn([Fetch(0, lo, lo + 1)], InsertRaised(NotApplied));
      Enabled(Unwound(log, lo), e) && Step(Unwound(log, lo), e) == Unwound(log, lo + 1)
  {
    OneMessage([log], lo);
  }

  lemma StoredInsert(log: seq<Message>, lo: nat)
    requires lo < |log| && log[lo].Row?
    ensures
      var w := Unwound(log, lo);
      var e := Turn([Fetch(0, lo, lo + 1)], Stored(Acknowledged));
      && Enabled(w, e) && Step(w, e).up && Step(w, e).logs == w.logs && Step(w, e).position == [lo + 1]
      && Step(w, e).committed == [Some(lo + 1)] && Step(w, e).table == Merge(map[], [log[lo].candle])
  {
    OneMessage([log], lo);
  }

  lemma TwoSteps(w: World, e: Event, f: Event)
    requires Enabled(w, e) && Enabled(Step(w, e), f)
    ensures ValidRun(w, [e, f]) && Run(w, [e, f]) == Step(Step(w, e), f)
  {
    assert [e, f][1..] == [f] && [f][1..] == [];
    assert Run(Step(w, e), [f]) == Run(Step(Step(w, e), f), []);
  }

  lemma PassKeeps(c: Candle, d: Candle)
    ensures KeyOf(c) in InOrderPass(map[], [[Row(c), Row(d)]])
  {
    var logs := [[Row(c), Row(d)]];
    assert logs[1..] == [];
    RowsFrom(logs[0], c);
    assert Row(c) in logs[0];
    MergeKeys(map[], Rows(logs[0]));
  }

  lemma DropThenStore(log: seq<Message>) returns (events: seq<Event>)
    requires |log| == 2 && log[0].Row? && log[1].Row?
    ensures ValidRun(Unwound(log, 0), events)
    ensures
      var end := Run(Unwound(log, 0), events);
      && end.logs == [log] && end.up && end.position == [2] && end.committed == [Some(2)]
      && end.table == Merge(map[], [log[1].candle])
  {
    var first := Turn([Fetch(0, 0, 1)], InsertRaised(NotApplied));
    var second := Turn([Fetch(0, 1, 2)], Stored(Acknowledged));
    DroppedInsert(log, 0);
    StoredInsert(log, 1);
    TwoSteps(Unwound(log, 0), first, second);
    events := [first, second];
  }

  /** Why the client must rewind. A new deployment finds two candles of different keys; the first insert fails and is
      dropped, the client leaves its never-committed partition where it is, and the second candle is stored and
      committed. The writer has drained, the offset is past both candles, and the first is not in the table. */
  lemma StuckPositionLosesRow(c: Candle, d: Candle) returns (w: World, events: seq<Event>)
    requires KeyOf(c) != KeyOf(d)
    ensures w == World([[Row(c), Row(d)]], [None], false, [0], true, 0, map[], [])
    ensures Rested(w) && !CanRewind(w) && ValidRun(w, events)
    ensures
      var end := Run(w, events);
      && WellFormed(end) && Drained(end) && end.committed == [Some(2)]
      && KeyOf(c) !in end.table && KeyOf(c) in InOrderPass(w.table, end.logs)
      && end.table != InOrderPass(w.table, end.logs)
  {
    w := Unwound([Row(c), Row(d)], 0);
    events := DropThenStore([Row(c), Row(d)]);
    MergeKeys(map[], [d]);
    PassKeeps(c, d);
  }
}
