/** From the exchange to the table: the ingester's topic, consumed by the writer, and the backfill beside it. */
module EndToEnd {
  import opened Market
  import opened Database
  import Fetch
  import I = IngesterModel
  import P = IngesterProofs
  import W = WriterModel
  import S = WriterSafety
  import WriterProgress

  /** Partition `route(symbol)` holds the symbol's candles as the ingester sent them, in order; other messages may lie
      between them. */
  ghost predicate Carries(logs: W.Logs, route: S.Route, topic: seq<I.Record>, symbol: string) {
    route(symbol) < |logs| && OfSymbol(W.Rows(logs[route(symbol)]), symbol) == OfSymbol(I.Candles(topic), symbol)
  }

  lemma {:induction false} FirstOfSymbol(rows: seq<Candle>, k: Key)
    ensures FirstWith(OfSymbol(rows, k.symbol), k) == FirstWith(rows, k)
  {
    if rows == [] {
    } else {
      FirstOfSymbol(rows[1..], k);
      assert rows[0].symbol == k.symbol ==> OfSymbol(rows, k.symbol)[1..] == OfSymbol(rows[1..], k.symbol);
    }
  }

  lemma {:induction false} OfSymbolOnly(rows: seq<Candle>, symbol: string)
    ensures forall c :: c in OfSymbol(rows, symbol) <==> c in rows && c.symbol == symbol
  {
    if rows == [] {
    } else {
      OfSymbolOnly(rows[1..], symbol);
      assert rows == [rows[0]] + rows[1..];
    }
  }

  /** A drained writer's table holds, for a symbol it did not know before, the first candle of each key in the topic. */
  lemma DrainedHoldsTopic(w: W.World, events: seq<W.Event>, route: S.Route, topic: seq<I.Record>, k: Key)
    requires W.Rested(w) && S.CanRewind(w) && W.ValidRun(w, events) && S.Keyed(W.Run(w, events).logs, route)
    requires W.WellFormed(W.Run(w, events)) && W.Drained(W.Run(w, events))
    requires Carries(W.Run(w, events).logs, route, topic, k.symbol) && k !in w.table
    ensures Lookup(W.Run(w, events).table, k) == FirstWith(OfSymbol(I.Candles(topic), k.symbol), k)
  {
    var end := W.Run(w, events);
    S.Confluence(w, events, route);
    assert end.logs[0..] == end.logs;
    S.PassLookup(w.table, end.logs, route, 0, k);
    FirstOfSymbol(W.Rows(end.logs[route(k.symbol)]), k);
  }

  ghost predicate AreMinutesFrom(cs: seq<Candle>, symbol: string, first: int) {
    forall i :: 0 <= i < |cs| ==> cs[i].symbol == symbol && cs[i].ts == first + i * MINUTE
  }

  /** In an unbroken run of minutes every key occurs once, so "first" is "the". */
  lemma {:induction false} FirstInMinutes(cs: seq<Candle>, symbol: string, first: int, m: int)
    requires AreMinutesFrom(cs, symbol, first)
    ensures FirstWith(cs, Key(symbol, m)) ==
      if first <= m && (m - first) % MINUTE == 0 && (m - first) / MINUTE < |cs| then Some(cs[(m - first) / MINUTE])
      else None
  {
    if cs == [] {
    } else {
      forall i | 0 <= i < |cs| - 1
        ensures cs[1..][i].symbol == symbol && cs[1..][i].ts == first + MINUTE + i * MINUTE
      {
        assert cs[1..][i] == cs[i + 1];
      }
      FirstInMinutes(cs[1..], symbol, first + MINUTE, m);
      if m != first {
        OneMinuteOn(first, m, cs);
      }
    }
  }

  lemma OneMinuteOn(first: int, m: int, cs: seq<Candle>)
    requires cs != [] && m != first
    ensures (first <= m && (m - first) % MINUTE == 0) <==>
      (first + MINUTE <= m && (m - (first + MINUTE)) % MINUTE == 0)
    ensures first <= m && (m - first) % MINUTE == 0 ==> (m - (first + MINUTE)) / MINUTE == (m - first) / MINUTE - 1
  {
  }

  /** The symbol's keys in the table are the minutes from the first to the last candle of `sent`, none missing, and each
      holds the candle that was sent for it. */
  ghost predicate HoldsExactly(table: Table, symbol: string, sent: seq<Candle>) {
    && (forall m :: Key(symbol, m) in table <==>
          sent != [] && sent[0].ts <= m <= sent[|sent| - 1].ts && (m - sent[0].ts) % MINUTE == 0)
    && (forall i :: 0 <= i < |sent| ==> Lookup(table, Key(symbol, sent[0].ts + i * MINUTE)) == Some(sent[i]))
  }

  /** End to end: a symbol whose stream was smooth and whose messages were all consumed has in the table each minute
      from its first to its last published candle exactly once, with the candle that was published, and nothing else,
      for every pattern of reconnects, polls, retries, crashes and restarts. */
  lemma EveryMinuteOnce(symbols: set<string>, stream: seq<I.Event>, symbol: string,
                        w: W.World, events: seq<W.Event>, route: S.Route)
    requires symbol in symbols && I.ValidRun(I.Start(symbols), stream) && P.SmoothStream(None, false, stream, symbol)
    requires W.Rested(w) && S.CanRewind(w) && W.ValidRun(w, events) && S.Keyed(W.Run(w, events).logs, route)
    requires W.WellFormed(W.Run(w, events)) && W.Drained(W.Run(w, events))
    requires Carries(W.Run(w, events).logs, route, I.Run(I.Start(symbols), stream).topic, symbol)
    requires forall k :: k in w.table ==> k.symbol != symbol
    ensures HoldsExactly(W.Run(w, events).table, symbol, P.OfTopic(I.Run(I.Start(symbols), stream), symbol))
  {
    SentMinutes(symbols, stream, symbol);
    StoresSymbol(w, events, route, I.Run(I.Start(symbols), stream).topic, symbol);
    HoldsMinutes(W.Run(w, events).table, P.OfTopic(I.Run(I.Start(symbols), stream), symbol), symbol);
  }

  lemma StoresSymbol(w: W.World, events: seq<W.Event>, route: S.Route, topic: seq<I.Record>, symbol: string)
    requires W.Rested(w) && S.CanRewind(w) && W.ValidRun(w, events) && S.Keyed(W.Run(w, events).logs, route)
    requires W.WellFormed(W.Run(w, events)) && W.Drained(W.Run(w, events))
    requires Carries(W.Run(w, events).logs, route, topic, symbol)
    requires forall k :: k in w.table ==> k.symbol != symbol
    ensures forall m ::
      Lookup(W.Run(w, events).table, Key(symbol, m)) == FirstWith(OfSymbol(I.Candles(topic), symbol), Key(symbol, m))
  {
    forall m
      ensures
        Lookup(W.Run(w, events).table, Key(symbol, m)) == FirstWith(OfSymbol(I.Candles(topic), symbol), Key(symbol, m))
    {
      DrainedHoldsTopic(w, events, route, topic, Key(symbol, m));
    }
  }

  /** The topic of a smooth stream, candle by candle. */
  lemma SentMinutes(symbols: set<string>, stream: seq<I.Event>, symbol: string)
    requires symbol in symbols && I.ValidRun(I.Start(symbols), stream) && P.SmoothStream(None, false, stream, symbol)
    ensures
      var sent := P.OfTopic(I.Run(I.Start(symbols), stream), symbol);
      sent != [] ==> AreMinutesFrom(sent, symbol, sent[0].ts)
  {
    var s := I.Run(I.Start(symbols), stream);
    var sent := P.OfTopic(s, symbol);
    P.HealContiguity(symbols, stream, symbol);
    OfSymbolOnly(I.Candles(s.topic), symbol);
    var ts := Times(sent);
    forall i | 0 <= i < |sent|
      ensures sent[i].symbol == symbol && sent[i].ts == sent[0].ts + i * MINUTE
    {
      assert sent[i] in sent;
      assert ts[i] == Minutes(ts[0], |ts|)[i];
    }
  }

  lemma KeyIffMinute(sent: seq<Candle>, symbol: string, m: int)
    requires sent != [] ==> AreMinutesFrom(sent, symbol, sent[0].ts)
    ensures FirstWith(sent, Key(symbol, m)).Some? <==>
      sent != [] && sent[0].ts <= m <= sent[|sent| - 1].ts && (m - sent[0].ts) % MINUTE == 0
  {
    if sent != [] {
      FirstInMinutes(sent, symbol, sent[0].ts, m);
      var d := m - sent[0].ts;
      assert sent[|sent| - 1].ts == sent[0].ts + (|sent| - 1) * MINUTE;
      assert d % MINUTE == 0 ==> d == d / MINUTE * MINUTE;
    }
  }

  lemma NthMinute(first: int, m: int, i: nat)
    requires m == first + i * MINUTE
    ensures first <= m && (m - first) % MINUTE == 0 && (m - first) / MINUTE == i
  {
  }

  lemma MinuteHolds(sent: seq<Candle>, symbol: string, i: nat)
    requires i < |sent| && AreMinutesFrom(sent, symbol, sent[0].ts)
    ensures FirstWith(sent, Key(symbol, sent[0].ts + i * MINUTE)) == Some(sent[i])
  {
    var m := sent[0].ts + i * MINUTE;
    FirstInMinutes(sent, symbol, sent[0].ts, m);
    NthMinute(sent[0].ts, m, i);
  }

  lemma HoldsMinutes(table: Table, sent: seq<Candle>, symbol: string)
    requires sent != [] ==> AreMinutesFrom(sent, symbol, sent[0].ts)
    requires forall m :: Lookup(table, Key(symbol, m)) == FirstWith(sent, Key(symbol, m))
    ensures HoldsExactly(table, symbol, sent)
  {
    forall m
      ensures Key(symbol, m) in table <==>
        sent != [] && sent[0].ts <= m <= sent[|sent| - 1].ts && (m - sent[0].ts) % MINUTE == 0
    {
      KeyIffMinute(sent, symbol, m);
      assert Key(symbol, m) in table <==> Lookup(table, Key(symbol, m)).Some?;
    }
    forall i | 0 <= i < |sent|
      ensures Lookup(table, Key(symbol, sent[0].ts + i * MINUTE)) == Some(sent[i])
    {
      MinuteHolds(sent, symbol, i);
    }
  }

  // ---------- only finalized candles ----------

  ghost predicate TableClosed(t: Table, nowUs: int) {
    forall k :: k in t ==> (t[k].ts + MINUTE) * 1000 <= nowUs
  }

  ghost predicate RowsClosed(rows: seq<Candle>, nowUs: int) {
    forall c :: c in rows ==> (c.ts + MINUTE) * 1000 <= nowUs
  }

  lemma MergeClosed(t: Table, rows: seq<Candle>, nowUs: int)
    requires TableClosed(t, nowUs) && RowsClosed(rows, nowUs)
    ensures TableClosed(Merge(t, rows), nowUs)
  {
    var t' := Merge(t, rows);
    forall k | k in t'
      ensures (t'[k].ts + MINUTE) * 1000 <= nowUs
    {
      MergeLookup(t, rows, k);
      FirstWithAbsent(rows, k);
      assert Lookup(t', k).Some?;
    }
  }

  /** Backfill with an end no later than now stores finalized candles only. */
  lemma BackfillClosed(t: Table, ex: Fetch.Exchange, symbol: string, startUs: int, endUs: int, nowUs: int)
    requires Fetch.Ordered(ex) && 0 <= endUs <= nowUs && TableClosed(t, nowUs)
    requires Fetch.FetchSpec(ex, symbol, startUs, endUs).Ok?
    ensures TableClosed(Merge(t, Fetch.FetchSpec(ex, symbol, startUs, endUs).value), nowUs)
  {
    Fetch.OnlyClosedCandles(ex, symbol, startUs, endUs);
    MergeClosed(t, Fetch.FetchSpec(ex, symbol, startUs, endUs).value, nowUs);
  }

  /** The writer adds finalized candles only, if the log has no others. */
  lemma {:induction false} WriterClosed(w: W.World, events: seq<W.Event>, nowUs: int)
    requires W.WellFormed(w) && W.ValidRun(w, events) && TableClosed(w.table, nowUs)
    requires forall p :: 0 <= p < |W.Run(w, events).logs| ==> RowsClosed(W.Rows(W.Run(w, events).logs[p]), nowUs)
    ensures TableClosed(W.Run(w, events).table, nowUs)
    decreases |events|
  {
    if events == [] {
    } else {
      var e := events[0];
      var end := W.Run(w, events);
      S.RunGrowsLogs(w, events);
      if e.Turn? {
        BatchClosed(w.logs, end.logs, e.batch, nowUs);
        MergeClosed(w.table, W.Rows(W.Polled(w.logs, e.batch)), nowUs);
      } else if e.LateCommit? {
        BatchClosed(w.logs, end.logs, w.late[e.index], nowUs);
        MergeClosed(w.table, W.Rows(W.Polled(w.logs, w.late[e.index])), nowUs);
      }
      StepTable(w, e);
      WriterClosed(W.Step(w, e), events[1..], nowUs);
    }
  }

  lemma StepTable(w: W.World, e: W.Event)
    requires W.Enabled(w, e)
    ensures W.WellFormed(W.Step(w, e))
    ensures W.Step(w, e).table == w.table
      || (e.Turn? && W.Step(w, e).table == Merge(w.table, W.Rows(W.Polled(w.logs, e.batch))))
      || (e.LateCommit? && W.Step(w, e).table == Merge(w.table, W.Rows(W.Polled(w.logs, w.late[e.index]))))
  {
    if e.Turn? {
      WriterProgress.TurnCounts(w, e.batch, e.outcome);
      WriterProgress.TurnShape(w, e.batch, e.outcome);
    }
  }

  lemma BatchClosed(logs: W.Logs, end: W.Logs, batch: seq<W.Fetch>, nowUs: int)
    requires W.BatchOk(logs, batch) && S.LogsGrow(logs, end)
    requires forall p :: 0 <= p < |end| ==> RowsClosed(W.Rows(end[p]), nowUs)
    ensures RowsClosed(W.Rows(W.Polled(logs, batch)), nowUs)
  {
    forall c | c in W.Rows(W.Polled(logs, batch))
      ensures (c.ts + MINUTE) * 1000 <= nowUs
    {
      var p := S.BatchRows(logs, end, batch, c);
    }
  }

  ghost predicate OnlyFrom(rows: seq<Candle>, topic: seq<I.Record>) {
    forall c :: c in rows ==> c in I.Candles(topic)
  }

  /** Only finalized candles reach the table: if the exchange marks a candle closed no earlier than its minute ends, and
      the log's candles come from the ingester's topic, then every stored candle's minute is over at `nowUs`. */
  lemma OnlyFinalizedStored(symbols: set<string>, stream: seq<I.Event>, w: W.World, events: seq<W.Event>, nowUs: int)
    requires I.ValidRun(I.Start(symbols), stream) && P.ClosedBy(stream, nowUs)
    requires W.WellFormed(w) && W.ValidRun(w, events) && TableClosed(w.table, nowUs)
    requires forall p :: 0 <= p < |W.Run(w, events).logs| ==>
      OnlyFrom(W.Rows(W.Run(w, events).logs[p]), I.Run(I.Start(symbols), stream).topic)
    ensures TableClosed(W.Run(w, events).table, nowUs)
  {
    P.OnlyFinalized(I.Start(symbols), stream, nowUs);
    var topic := I.Run(I.Start(symbols), stream).topic;
    forall c | c in I.Candles(topic)
      ensures (c.ts + MINUTE) * 1000 <= nowUs
    {
      var i :| 0 <= i < |topic| && I.Candles(topic)[i] == c;
      assert topic[i] in topic;
    }
    var logs := W.Run(w, events).logs;
    forall p | 0 <= p < |logs|
      ensures RowsClosed(W.Rows(logs[p]), nowUs)
    {
      assert OnlyFrom(W.Rows(logs[p]), topic);
    }
    WriterClosed(w, events, nowUs);
  }
}
