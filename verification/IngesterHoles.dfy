/** The minutes a run of the ingester leaves out of the topic: the cause of every hole, exactly which minutes become
    holes, and that a hole, once made, stays. */
module IngesterHoles {
  import opened Market
  import opened Fetch
  import opened IngesterModel
  import opened IngesterProofs

  /** A whole minute the ingester considers past and the topic does not have. */
  ghost predicate Hole(s: State, symbol: string, m: int) {
    m % MINUTE == 0 && symbol in s.lastTs && m < s.lastTs[symbol] && !Delivered(s.topic, symbol, m)
  }

  /** A closed message of the symbol, whether it parses or not. */
  predicate Closes(e: Event, symbol: string) {
    e.Received? && e.closed && e.symbol == symbol
  }

  /** The closed messages of a symbol come in order, and none is before the epoch. */
  ghost predicate Forward(prev: Option<int>, events: seq<Event>, symbol: string)
    decreases |events|
  {
    events == [] ||
    if !Closes(events[0], symbol) then Forward(prev, events[1..], symbol)
    else
      && events[0].openTime >= 0 && (prev.Some? ==> prev.value <= events[0].openTime)
      && Forward(Some(events[0].openTime), events[1..], symbol)
  }

  function Next(prev: Option<int>, e: Event, symbol: string): Option<int> {
    if Closes(e, symbol) then Some(e.openTime) else prev
  }

  /** Whatever was published so far of the symbol is no later than its last closed message. */
  ghost predicate NotAhead(s: State, symbol: string, prev: Option<int>) {
    forall r :: r in s.topic && r.candle.symbol == symbol ==> prev.Some? && r.candle.ts <= prev.value
  }

  lemma StepNotAhead(s: State, e: Event, symbol: string, prev: Option<int>)
    requires Enabled(s, e) && NotAhead(s, symbol, prev) && Forward(prev, [e], symbol)
    ensures NotAhead(Step(s, e), symbol, Next(prev, e, symbol))
  {
    forall r | r in Step(s, e).topic && r.candle.symbol == symbol
      ensures Next(prev, e, symbol).Some? && r.candle.ts <= Next(prev, e, symbol).value
    {
      assert Delivered(Step(s, e).topic, symbol, r.candle.ts);
      if Delivered(s.topic, symbol, r.candle.ts) {
        var q :| q in s.topic && q.candle.symbol == symbol && q.candle.ts == r.candle.ts;
      } else {
        StepDeliversLater(s, e, symbol, r.candle.ts);
      }
    }
  }

  /** A hole, once made, is never filled in the life of the process: no later reconnect goes back for it. */
  lemma {:induction false} HolesArePermanent(s: State, events: seq<Event>, symbol: string, m: int, prev: Option<int>)
    requires Remembers(s) && ValidRun(s, events) && NotAhead(s, symbol, prev) && Forward(prev, events, symbol)
    requires Hole(s, symbol, m)
    ensures Hole(Run(s, events), symbol, m)
    decreases |events|
  {
    if events == [] {
    } else {
      var e := events[0];
      StepRemembers(s, e);
      assert Forward(prev, [e], symbol) by { assert [e][1..] == []; }
      StepNotAhead(s, e, symbol, prev);
      assert HasConfirmed(s.topic, symbol, s.lastTs[symbol]);
      if Delivered(Step(s, e).topic, symbol, m) {
        StepDeliversLater(s, e, symbol, m);
        assert false;
      }
      HolesArePermanent(Step(s, e), events[1..], symbol, m, Next(prev, e, symbol));
    }
  }

  /** How a hole is made: the heal's request fails, the new candle is published, and every missing minute before it is a
      hole from then on. */
  lemma FailedHealLeavesHole(s: State, e: Event, symbol: string, m: int)
    requires Enabled(s, e) && TriesToHeal(s, e, symbol) && e.ack == Confirmed
    requires HealFetch(s, CandleOf(e, symbol).value, e.rest).Err?
    requires m % MINUTE == 0 && s.lastTs[symbol] < m < e.openTime && !Delivered(s.topic, symbol, m)
    ensures Hole(Step(s, e), symbol, m) && !Flagged(Step(s, e), symbol)
  {
    var healed, cs, n := StepShape(s, e);
    StepDelivers(s, e, symbol, m);
  }

  // ---------- the cause of every hole ----------

  /** The REST source has no rows between minutes. */
  ghost predicate OnMinutes(rest: Exchange) {
    forall a, b :: rest(a, b).Ok? ==> AllOnMinutes(rest(a, b).value)
  }

  ghost predicate AllOnMinutes(rows: seq<Kline>) {
    forall row :: row in rows ==> row.openTime % MINUTE == 0
  }

  /** What the exchange may send next: a whole minute, the one after the last on the same connection, any that is not
      earlier on a new one. */
  ghost predicate OpensNext(prev: Option<int>, again: bool, e: Event)
    requires e.Received?
  {
    && e.openTime >= 0 && e.openTime % MINUTE == 0 && OnMinutes(e.rest)
    && (prev.Some? ==> e.openTime == prev.value + MINUTE || (again && prev.value <= e.openTime))
  }

  /** A symbol's closed messages as the exchange sends them. Nothing is said about parsing, healing or publishing them:
      any of it may fail. */
  ghost predicate Consecutive(prev: Option<int>, again: bool, events: seq<Event>, symbol: string)
    decreases |events|
  {
    events == [] ||
    var e := events[0];
    if e.Connected? then Consecutive(prev, true, events[1..], symbol)
    else if !Closes(e, symbol) then Consecutive(prev, again, events[1..], symbol)
    else OpensNext(prev, again, e) && Consecutive(Some(e.openTime), false, events[1..], symbol)
  }

  function Again(again: bool, e: Event, symbol: string): bool {
    e.Connected? || (again && !Closes(e, symbol))
  }

  /** The message for minute `m` itself did not parse, or was not delivered. */
  predicate OwnFails(e: Event, symbol: string, m: int) {
    Closes(e, symbol) && e.openTime == m && (e.parse.BadValue? || (e.parse.Parsed? && e.ack == Undelivered))
  }

  /** A heal over a range with minute `m`, whose request failed, whose answer lacked the minute, or whose publish of it
      was not delivered. */
  ghost predicate HealFails(s: State, e: Event, symbol: string, m: int)
    requires Enabled(s, e)
  {
    && TriesToHeal(s, e, symbol) && s.lastTs[symbol] < m < e.openTime
    && var r := HealFetch(s, CandleOf(e, symbol).value, e.rest);
    r.Ok? ==> forall i :: 0 <= i < |r.value| && r.value[i].ts == m ==> e.healAcks(i) == Undelivered
  }

  ghost predicate Misses(s: State, e: Event, symbol: string, m: int)
    requires Enabled(s, e)
  {
    OwnFails(e, symbol, m) || HealFails(s, e, symbol, m)
  }

  lemma {:induction false} RowsOnMinutes(rest: Exchange, start: int, last: int)
    requires Ordered(rest) && OnMinutes(rest)
    ensures FetchRows(rest, start, last).Ok? ==> AllOnMinutes(FetchRows(rest, start, last).value)
    decreases last - start
  {
    var reply := rest(start, last);
    if reply.Err? || reply.value == [] {
    } else {
      var page := reply.value;
      assert page[|page| - 1] in page;
      var next := page[|page| - 1].openTime + MINUTE;
      if |page| < QUERY_LIMIT || next > last {
      } else {
        RowsOnMinutes(rest, next, last);
      }
    }
  }

  lemma HealOnMinutes(s: State, c: Candle, rest: Exchange)
    requires Ordered(rest) && OnMinutes(rest) && c.symbol in s.lastTs && HealFetch(s, c, rest).Ok?
    ensures forall i :: 0 <= i < |HealFetch(s, c, rest).value| ==> HealFetch(s, c, rest).value[i].ts % MINUTE == 0
  {
    var start, last := TruncDiv((s.lastTs[c.symbol] + MINUTE) * 1000, 1000), LastCompleteMinuteMs(c.ts * 1000);
    RowsOnMinutes(rest, start, last);
    var rows := FetchRows(rest, start, last).value;
    forall i | 0 <= i < |rows|
      ensures rows[i].openTime % MINUTE == 0
    {
      assert rows[i] in rows;
    }
  }

  /** The symbol's part of the topic: whole minutes, none later than its last closed message. */
  ghost predicate Tidy(s: State, symbol: string, prev: Option<int>) {
    forall r :: r in s.topic && r.candle.symbol == symbol ==>
      prev.Some? && 0 <= r.candle.ts <= prev.value && r.candle.ts % MINUTE == 0
  }

  lemma BringsOnMinute(s: State, e: Event, symbol: string, m: int)
    requires Enabled(s, e) && Brings(s, e, symbol, m)
    requires e.openTime >= 0 && e.openTime % MINUTE == 0 && OnMinutes(e.rest)
    requires symbol in s.lastTs ==> s.lastTs[symbol] >= 0
    ensures 0 <= m <= e.openTime && m % MINUTE == 0
  {
    if TriesToHeal(s, e, symbol) && HealDelivers(s, e, symbol, m) {
      var c := CandleOf(e, symbol).value;
      HealedIsOlder(s, c, e.rest);
      HealOnMinutes(s, c, e.rest);
      var cs := HealFetch(s, c, e.rest).value;
      var i :| 0 <= i < |cs| && cs[i].ts == m && e.healAcks(i) != Undelivered;
      assert cs[i] in cs;
    }
  }

  lemma StepTidy(s: State, e: Event, symbol: string, prev: Option<int>, again: bool)
    requires Enabled(s, e) && Remembers(s) && Tidy(s, symbol, prev)
    requires Closes(e, symbol) ==> OpensNext(prev, again, e)
    ensures Tidy(Step(s, e), symbol, Next(prev, e, symbol))
  {
    assert symbol in s.lastTs ==> HasConfirmed(s.topic, symbol, s.lastTs[symbol]);
    forall r | r in Step(s, e).topic && r.candle.symbol == symbol
      ensures Next(prev, e, symbol).Some? && 0 <= r.candle.ts <= Next(prev, e, symbol).value
      ensures r.candle.ts % MINUTE == 0
    {
      assert Delivered(Step(s, e).topic, symbol, r.candle.ts);
      StepDelivers(s, e, symbol, r.candle.ts);
      if Delivered(s.topic, symbol, r.candle.ts) {
        var q :| q in s.topic && q.candle.symbol == symbol && q.candle.ts == r.candle.ts;
      } else {
        BringsOnMinute(s, e, symbol, r.candle.ts);
      }
    }
  }

  /** What holds of a run at every point: the symbol's flag is up if it had no closed message on this connection. */
  ghost predicate Tracks(s: State, symbol: string, prev: Option<int>, again: bool) {
    Remembers(s) && Tidy(s, symbol, prev) && symbol in s.symbols && (again ==> Flagged(s, symbol))
  }

  lemma StepTracks(s: State, e: Event, symbol: string, prev: Option<int>, again: bool)
    requires Enabled(s, e) && Tracks(s, symbol, prev, again) && (Closes(e, symbol) ==> OpensNext(prev, again, e))
    ensures Tracks(Step(s, e), symbol, Next(prev, e, symbol), Again(again, e, symbol))
    ensures !Closes(e, symbol) && Flagged(s, symbol) ==> Flagged(Step(s, e), symbol)
    ensures !Closes(e, symbol) ==> (symbol in Step(s, e).lastTs <==> symbol in s.lastTs)
    ensures !Closes(e, symbol) && symbol in s.lastTs ==> Step(s, e).lastTs[symbol] == s.lastTs[symbol]
  {
    StepRemembers(s, e);
    StepTidy(s, e, symbol, prev, again);
    if e.Received? && !Closes(e, symbol) {
      OthersStep(s, e, symbol);
    } else if e.Received? && e.parse.Parsed? {
      var healed, cs, n := StepShape(s, e);
    }
  }

  /** The ingester has not come to minute `m` yet: it remembers an earlier one, and either the stream has not reached
      `m`, or the flag is still up, so that the next candle will heal `m`. */
  ghost predicate Awaits(s: State, symbol: string, m: int, prev: int, again: bool) {
    && Tracks(s, symbol, Some(prev), again) && prev % MINUTE == 0 && m % MINUTE == 0
    && symbol in s.lastTs && s.lastTs[symbol] < m && (prev < m || Flagged(s, symbol))
  }

  lemma LastOnMinute(s: State, symbol: string, prev: Option<int>)
    requires Remembers(s) && Tidy(s, symbol, prev) && symbol in s.lastTs
    ensures prev.Some? && 0 <= s.lastTs[symbol] <= prev.value && s.lastTs[symbol] % MINUTE == 0
  {
    assert HasConfirmed(s.topic, symbol, s.lastTs[symbol]);
  }

  /** A closed message past `m` finds the flag up. */
  lemma JumpIsFlagged(s: State, e: Event, symbol: string, m: int, prev: int, again: bool)
    requires Awaits(s, symbol, m, prev, again) && e.Received? && OpensNext(Some(prev), again, e) && m < e.openTime
    ensures Flagged(s, symbol)
  {
    if prev < m {
      assert e.openTime != prev + MINUTE;
    }
  }

  lemma {:induction false} PublishFirstBelow(s: State, cs: seq<Candle>, acks: nat -> Ack, n: nat,
                                             symbol: string, m: int)
    requires n <= |cs| && symbol in s.lastTs && s.lastTs[symbol] < m && forall i :: 0 <= i < n ==> cs[i].ts < m
    ensures
      var s' := PublishFirst(s, cs, acks, n);
      symbol in s'.lastTs && s'.lastTs[symbol] < m
  {
    if n == 0 {
    } else {
      PublishFirstBelow(s, cs, acks, n - 1, symbol, m);
    }
  }

  lemma WidensGap(last: int, m: int, t: int)
    requires last < m < t && last % MINUTE == 0 && m % MINUTE == 0 && t % MINUTE == 0
    ensures MissingMinutes(last, t) > 0
  {
  }

  /** A candle past `m` while the flag is up: `m` is in the heal's range, so it is delivered, or missed, or the process
      is stopped before it comes to `m`. */
  lemma HealReaches(s: State, e: Event, symbol: string, m: int, prev: int, again: bool)
    requires Enabled(s, e) && CandleOf(e, symbol).Some? && Awaits(s, symbol, m, prev, again)
    requires OpensNext(Some(prev), again, e) && m < e.openTime && !Delivered(Step(s, e).topic, symbol, m)
    ensures HealFails(s, e, symbol, m) ||
      (!Step(s, e).up && symbol in Step(s, e).lastTs && Step(s, e).lastTs[symbol] < m)
  {
    var c := e.parse.candle;
    JumpIsFlagged(s, e, symbol, m, prev, again);
    LastOnMinute(s, symbol, Some(prev));
    WidensGap(s.lastTs[symbol], m, e.openTime);
    assert TriesToHeal(s, e, symbol);
    if !HealFails(s, e, symbol, m) {
      var rows := HealFetch(s, c, e.rest).value;
      var i :| 0 <= i < |rows| && rows[i].ts == m && e.healAcks(i) != Undelivered;
      StepDelivers(s, e, symbol, m);
      var healed, cs, n := StepShape(s, e);
      assert cs == rows && n <= i;
      HealAscends(s, c, e.rest);
      PublishFirstBelow(s, cs, e.healAcks, n, symbol, m);
    }
  }

  lemma HealAscends(s: State, c: Candle, rest: Exchange)
    requires Ordered(rest) && c.ts >= 0 && c.symbol in s.lastTs && HealFetch(s, c, rest).Ok?
    ensures
      var cs := HealFetch(s, c, rest).value;
      forall i, j :: 0 <= i < j < |cs| ==> cs[i].ts < cs[j].ts
  {
    OnlyClosedCandles(rest, c.symbol, (s.lastTs[c.symbol] + MINUTE) * 1000, c.ts * 1000);
  }

  /** What a heal publishes is older than the candle that started it. */
  lemma HealListIsOlder(s: State, c: Candle, rest: Exchange)
    requires Ordered(rest) && c.ts >= 0
    ensures
      var cs := HealList(s, c, rest);
      forall i :: 0 <= i < |cs| ==> cs[i].ts < c.ts
  {
    var cs := HealList(s, c, rest);
    if cs == [] {
    } else {
      HealedIsOlder(s, c, rest);
      forall i | 0 <= i < |cs|
        ensures cs[i].ts < c.ts
      {
        assert cs[i] in cs;
      }
    }
  }

  /** A process stopped inside a heal has not come to the candle that started it. */
  lemma CutStaysBelow(s: State, e: Event, symbol: string, m: int)
    requires Enabled(s, e) && CandleOf(e, symbol).Some? && symbol in s.lastTs && s.lastTs[symbol] < m
    requires 0 <= e.openTime <= m && !Step(s, e).up
    ensures symbol in Step(s, e).lastTs && Step(s, e).lastTs[symbol] < m
  {
    var healed, cs, n := StepShape(s, e);
    HealListIsOlder(s, e.parse.candle, e.rest);
    PublishFirstBelow(s, cs, e.healAcks, n, symbol, m);
  }

  /** A closed message of the symbol that does not bring `m`: it misses `m`, or the ingester still awaits `m`, or the
      process ends without having passed `m`. */
  lemma CloseAwaits(s: State, e: Event, symbol: string, m: int, prev: int, again: bool)
    requires Enabled(s, e) && Closes(e, symbol) && Awaits(s, symbol, m, prev, again)
    requires OpensNext(Some(prev), again, e) && !Delivered(Step(s, e).topic, symbol, m)
    ensures || Misses(s, e, symbol, m)
            || (symbol in Step(s, e).lastTs && Step(s, e).lastTs[symbol] < m
                && (Step(s, e).up ==> Awaits(Step(s, e), symbol, m, e.openTime, false)))
  {
    StepTracks(s, e, symbol, Some(prev), again);
    var s' := Step(s, e);
    if !e.parse.Parsed? {
      if e.openTime > m {
        JumpIsFlagged(s, e, symbol, m, prev, again);
      }
    } else if e.openTime > m {
      HealReaches(s, e, symbol, m, prev, again);
    } else if !s'.up {
      CutStaysBelow(s, e, symbol, m);
    } else if e.openTime == m {
      StepDelivers(s, e, symbol, m);
    } else {
      StepRemembers(s, e);
      LastOnMinute(s', symbol, Some(e.openTime));
    }
  }

  /** Event `i` of the run from `s` misses the minute. */
  ghost predicate MissesAt(s: State, events: seq<Event>, i: nat, symbol: string, m: int) {
    && i < |events| && ValidRun(s, events[..i]) && Enabled(Run(s, events[..i]), events[i])
    && Misses(Run(s, events[..i]), events[i], symbol, m)
  }

  lemma MissesLater(s: State, events: seq<Event>, i: nat, symbol: string, m: int)
    requires ValidRun(s, events) && events != [] && MissesAt(Step(s, events[0]), events[1..], i, symbol, m)
    ensures MissesAt(s, events, i + 1, symbol, m)
  {
    assert events[..i + 1][1..] == events[1..][..i];
    assert events[..i + 1][0] == events[0];
  }

  lemma MissesNow(s: State, events: seq<Event>, symbol: string, m: int)
    requires ValidRun(s, events) && events != [] && Misses(s, events[0], symbol, m)
    ensures MissesAt(s, events, 0, symbol, m)
  {
    assert events[..0] == [];
  }

  lemma {:induction false} CauseWhileAwaiting(s: State, events: seq<Event>, symbol: string, m: int,
                                              prev: int, again: bool)
    returns (i: nat)
    requires ValidRun(s, events) && Awaits(s, symbol, m, prev, again) && Consecutive(Some(prev), again, events, symbol)
    requires Hole(Run(s, events), symbol, m)
    ensures MissesAt(s, events, i, symbol, m)
    decreases |events|
  {
    if events == [] {
      assert false;
    } else {
      var e := events[0];
      var s' := Step(s, e);
      RunKeepsDelivered(s', events[1..], symbol, m);
      if Closes(e, symbol) {
        CloseAwaits(s, e, symbol, m, prev, again);
        if Misses(s, e, symbol, m) {
          MissesNow(s, events, symbol, m);
          return 0;
        }
      } else {
        StepTracks(s, e, symbol, Some(prev), again);
      }
      if s'.up {
        i := CauseWhileAwaiting(s', events[1..], symbol, m, if Closes(e, symbol) then e.openTime else prev,
          Again(again, e, symbol));
        MissesLater(s, events, i, symbol, m);
        i := i + 1;
      } else {
        DownStays(s', events[1..]);
        assert false;
      }
    }
  }

  lemma {:induction false} RunKeepsDelivered(s: State, events: seq<Event>, symbol: string, m: int)
    requires ValidRun(s, events)
    ensures Delivered(s.topic, symbol, m) ==> Delivered(Run(s, events).topic, symbol, m)
    decreases |events|
  {
    if events == [] {
    } else {
      StepDelivers(s, events[0], symbol, m);
      RunKeepsDelivered(Step(s, events[0]), events[1..], symbol, m);
    }
  }

  /** The first acknowledged candle of the symbol. */
  ghost function FirstAcknowledged(s: State, events: seq<Event>, symbol: string): Option<int>
    requires ValidRun(s, events)
    decreases |events|
  {
    if symbol in s.lastTs then Some(s.lastTs[symbol])
    else if events == [] then None
    else FirstAcknowledged(Step(s, events[0]), events[1..], symbol)
  }

  /** The first acknowledged candle of a symbol is one the stream brought: there is nothing to heal before it. */
  lemma FirstIsLive(s: State, e: Event, symbol: string)
    requires Enabled(s, e) && symbol !in s.lastTs && symbol in Step(s, e).lastTs
    requires e.Received? && !Closes(e, symbol) ==> symbol !in Step(s, e).lastTs
    ensures Closes(e, symbol) && Step(s, e).up && Step(s, e).lastTs[symbol] == e.openTime
  {
    if e.Received? && e.closed && e.parse.Parsed? {
      var healed, cs, n := StepShape(s, e);
    }
  }

  lemma {:induction false} CauseFrom(s: State, events: seq<Event>, symbol: string, m: int,
                                     prev: Option<int>, again: bool)
    returns (i: nat)
    requires ValidRun(s, events) && Tracks(s, symbol, prev, again) && Consecutive(prev, again, events, symbol)
    requires symbol !in s.lastTs && FirstAcknowledged(s, events, symbol).Some?
    requires FirstAcknowledged(s, events, symbol).value < m && Hole(Run(s, events), symbol, m)
    ensures MissesAt(s, events, i, symbol, m)
    decreases |events|
  {
    var e := events[0];
    var s' := Step(s, e);
    StepTracks(s, e, symbol, prev, again);
    if symbol in s'.lastTs {
      FirstIsLive(s, e, symbol);
      i := CauseWhileAwaiting(s', events[1..], symbol, m, e.openTime, false);
    } else {
      i := CauseFrom(s', events[1..], symbol, m, Next(prev, e, symbol), Again(again, e, symbol));
    }
    MissesLater(s, events, i, symbol, m);
    i := i + 1;
  }

  /** Every hole is chargeable. Whatever fails, if the exchange sends the symbol's minutes one after another on each
      connection, then for every minute after the first acknowledged candle that is a hole at the end, the run has an
      event where the message for that minute did not parse or was not delivered, or where a heal over a range with that
      minute had its request fail, its answer lack the minute, or its publish of it not delivered. */
  lemma HoleHasCause(symbols: set<string>, events: seq<Event>, symbol: string, m: int)
    returns (i: nat)
    requires symbol in symbols && ValidRun(Start(symbols), events) && Consecutive(None, false, events, symbol)
    requires FirstAcknowledged(Start(symbols), events, symbol).Some?
    requires FirstAcknowledged(Start(symbols), events, symbol).value < m && Hole(Run(Start(symbols), events), symbol, m)
    ensures MissesAt(Start(symbols), events, i, symbol, m)
  {
    i := CauseFrom(Start(symbols), events, symbol, m, None, false);
  }

  // ---------- exactly which minutes become holes ----------

  /** Handling the event moves `_last_ts` from before minute `m` to it or past it. */
  ghost predicate Passes(s: State, e: Event, symbol: string, m: int)
    requires Enabled(s, e)
  {
    && symbol in s.lastTs && s.lastTs[symbol] < m
    && symbol in Step(s, e).lastTs && m <= Step(s, e).lastTs[symbol]
  }

  /** The event is a later candle, `m` is not in the topic yet, and the flag is down, so that nothing is healed, or the
      heal fails for `m`. */
  ghost predicate LeavesOut(s: State, e: Event, symbol: string, m: int)
    requires Enabled(s, e)
  {
    && !Delivered(s.topic, symbol, m) && Closes(e, symbol) && m < e.openTime
    && (!Flagged(s, symbol) || HealFails(s, e, symbol, m))
  }

  /** Only a closed message of the symbol that parses moves its `_last_ts`. */
  lemma PassingCloses(s: State, e: Event, symbol: string, m: int)
    requires Enabled(s, e) && Passes(s, e, symbol, m)
    ensures Closes(e, symbol) && CandleOf(e, symbol).Some?
  {
    if e.Received? && !Closes(e, symbol) {
      OthersStep(s, e, symbol);
    }
  }

  /** A heal that passes `m` came to `m` on its way: its rows are in order. */
  lemma HealComesTo(s: State, e: Event, symbol: string, m: int)
    requires Enabled(s, e) && CandleOf(e, symbol).Some? && e.openTime >= 0 && m < e.openTime && Passes(s, e, symbol, m)
    requires TriesToHeal(s, e, symbol) && !HealFails(s, e, symbol, m)
    ensures HealDelivers(s, e, symbol, m)
  {
    var c := e.parse.candle;
    var rows := HealFetch(s, c, e.rest).value;
    var i :| 0 <= i < |rows| && rows[i].ts == m && e.healAcks(i) != Undelivered;
    var healed, cs, n := StepShape(s, e);
    assert cs == rows;
    if n <= i {
      HealAscends(s, c, e.rest);
      PublishFirstBelow(s, cs, e.healAcks, n, symbol, m);
      assert false;
    }
  }

  /** No step takes `_last_ts` past the open time of its message. */
  lemma StepLast(s: State, e: Event, symbol: string, prev: Option<int>)
    requires Enabled(s, e) && Remembers(s) && NotAhead(s, symbol, prev)
    requires Closes(e, symbol) && Forward(prev, [e], symbol)
    ensures symbol in Step(s, e).lastTs ==>
      Step(s, e).lastTs[symbol] <= e.openTime && Delivered(Step(s, e).topic, symbol, Step(s, e).lastTs[symbol])
  {
    StepRemembers(s, e);
    StepNotAhead(s, e, symbol, prev);
    if symbol in Step(s, e).lastTs {
      assert HasConfirmed(Step(s, e).topic, symbol, Step(s, e).lastTs[symbol]);
    }
  }

  /** The step that passes `m` delivers it unless it leaves it out. */
  lemma PassDelivers(s: State, e: Event, symbol: string, m: int, prev: Option<int>)
    requires Enabled(s, e) && Remembers(s) && Tidy(s, symbol, prev) && Forward(prev, [e], symbol)
    requires m % MINUTE == 0 && Closes(e, symbol) && e.openTime % MINUTE == 0 && Passes(s, e, symbol, m)
    requires !Delivered(s.topic, symbol, m)
    ensures Delivered(Step(s, e).topic, symbol, m) <==> !LeavesOut(s, e, symbol, m)
  {
    PassingCloses(s, e, symbol, m);
    StepLast(s, e, symbol, prev);
    StepDelivers(s, e, symbol, m);
    if m < e.openTime && Flagged(s, symbol) {
      LastOnMinute(s, symbol, prev);
      WidensGap(s.lastTs[symbol], m, e.openTime);
      assert TriesToHeal(s, e, symbol);
      if !HealFails(s, e, symbol, m) {
        HealComesTo(s, e, symbol, m);
      }
    }
  }

  /** Passing decides: a minute that the first event of a run passes is missing at the end of the run exactly when that
      event leaves it out. */
  lemma PassDecides(s: State, events: seq<Event>, symbol: string, m: int, prev: Option<int>)
    requires ValidRun(s, events) && events != [] && Remembers(s) && Tidy(s, symbol, prev)
    requires Forward(prev, events, symbol) && m % MINUTE == 0
    requires Closes(events[0], symbol) ==> events[0].openTime % MINUTE == 0
    requires Passes(s, events[0], symbol, m)
    ensures !Delivered(Run(s, events).topic, symbol, m) <==> LeavesOut(s, events[0], symbol, m)
  {
    var e := events[0];
    PassingCloses(s, e, symbol, m);
    assert Forward(prev, [e], symbol) by { assert [e][1..] == []; }
    RunKeepsDelivered(s, events, symbol, m);
    if !Delivered(s.topic, symbol, m) {
      PassDelivers(s, e, symbol, m, prev);
      RunKeepsDelivered(Step(s, e), events[1..], symbol, m);
      if !Delivered(Step(s, e).topic, symbol, m) {
        StepLast(s, e, symbol, prev);
        StepRemembers(s, e);
        StepNotAhead(s, e, symbol, prev);
        HolesArePermanent(Step(s, e), events[1..], symbol, m, Next(prev, e, symbol));
      }
    }
  }

  lemma {:induction false} ConsecutiveIsForward(prev: Option<int>, again: bool, events: seq<Event>, symbol: string)
    requires Consecutive(prev, again, events, symbol)
    ensures Forward(prev, events, symbol)
    decreases |events|
  {
    if events == [] {
    } else {
      ConsecutiveIsForward(Next(prev, events[0], symbol), Again(again, events[0], symbol), events[1..], symbol);
    }
  }

  /** The state after the first `i` events, and the stream from there on. */
  lemma {:induction false} AfterEvents(s: State, events: seq<Event>, i: nat, symbol: string,
                                       prev: Option<int>, again: bool)
    returns (prev': Option<int>, again': bool)
    requires i <= |events| && ValidRun(s, events) && Tracks(s, symbol, prev, again)
    requires Consecutive(prev, again, events, symbol)
    ensures ValidRun(s, events[..i]) && ValidRun(Run(s, events[..i]), events[i..])
    ensures Run(Run(s, events[..i]), events[i..]) == Run(s, events)
    ensures Tracks(Run(s, events[..i]), symbol, prev', again') && Consecutive(prev', again', events[i..], symbol)
    decreases |events|
  {
    if i == 0 {
      assert events[..0] == [] && events[0..] == events;
      prev', again' := prev, again;
    } else {
      var e := events[0];
      StepTracks(s, e, symbol, prev, again);
      prev', again' := AfterEvents(Step(s, e), events[1..], i - 1, symbol, Next(prev, e, symbol),
        Again(again, e, symbol));
      assert events[..i][1..] == events[1..][..i - 1] && events[..i][0] == e;
      assert events[i..] == events[1..][i - 1..];
    }
  }

  /** Event `i` of the run from `s` passes the minute. */
  ghost predicate PassesAt(s: State, events: seq<Event>, i: nat, symbol: string, m: int) {
    && i < |events| && ValidRun(s, events[..i]) && Enabled(Run(s, events[..i]), events[i])
    && Passes(Run(s, events[..i]), events[i], symbol, m)
  }

  lemma PassesLater(s: State, events: seq<Event>, i: nat, symbol: string, m: int)
    requires ValidRun(s, events) && events != [] && PassesAt(Step(s, events[0]), events[1..], i, symbol, m)
    ensures PassesAt(s, events, i + 1, symbol, m)
  {
    assert events[..i + 1][1..] == events[1..][..i];
    assert events[..i + 1][0] == events[0];
  }

  lemma {:induction false} PassedFrom(s: State, events: seq<Event>, symbol: string, m: int) returns (i: nat)
    requires ValidRun(s, events) && Remembers(s) && symbol in s.lastTs && s.lastTs[symbol] < m
    requires symbol in Run(s, events).lastTs && m <= Run(s, events).lastTs[symbol]
    ensures PassesAt(s, events, i, symbol, m)
    decreases |events|
  {
    var s' := Step(s, events[0]);
    StepRemembers(s, events[0]);
    if m <= s'.lastTs[symbol] {
      assert events[..0] == [];
      i := 0;
    } else {
      i := PassedFrom(s', events[1..], symbol, m);
      PassesLater(s, events, i, symbol, m);
      i := i + 1;
    }
  }

  /** Every minute after the first acknowledged candle, up to the last, is passed by some event. */
  lemma {:induction false} MinuteIsPassed(s: State, events: seq<Event>, symbol: string, m: int) returns (i: nat)
    requires ValidRun(s, events) && Remembers(s) && FirstAcknowledged(s, events, symbol).Some?
    requires symbol in Run(s, events).lastTs
    requires FirstAcknowledged(s, events, symbol).value < m <= Run(s, events).lastTs[symbol]
    ensures PassesAt(s, events, i, symbol, m)
    decreases |events|
  {
    if symbol in s.lastTs {
      i := PassedFrom(s, events, symbol, m);
    } else {
      StepRemembers(s, events[0]);
      i := MinuteIsPassed(Step(s, events[0]), events[1..], symbol, m);
      PassesLater(s, events, i, symbol, m);
      i := i + 1;
    }
  }

  /** Exactly which minutes are holes: `_last_ts` passes a minute in one event of the run, and the minute is a hole at
      the end if and only if there the message is a later candle, the topic does not have the minute yet, and the flag
      is down or the heal fails for it. */
  lemma HoleIffLeftOut(symbols: set<string>, events: seq<Event>, symbol: string, m: int, i: nat)
    requires symbol in symbols && ValidRun(Start(symbols), events) && Consecutive(None, false, events, symbol)
    requires m % MINUTE == 0 && PassesAt(Start(symbols), events, i, symbol, m)
    ensures Hole(Run(Start(symbols), events), symbol, m) <==>
      LeavesOut(Run(Start(symbols), events[..i]), events[i], symbol, m)
  {
    var s := Run(Start(symbols), events[..i]);
    var end := Run(Start(symbols), events);
    var prev, again := AfterEvents(Start(symbols), events, i, symbol, None, false);
    ConsecutiveIsForward(prev, again, events[i..], symbol);
    PassDecides(s, events[i..], symbol, m, prev);
    RunRemembers(Step(s, events[i]), events[i..][1..]) by { StepRemembers(s, events[i]); }
    assert HasConfirmed(end.topic, symbol, end.lastTs[symbol]);
  }

  // ---------- a hole ----------

  function FlatCandle(ts: int): Candle {
    Candle("A", ts, 1.0, 1.0, 1.0, 1.0, 1.0)
  }

  /** A closed candle that is acknowledged, with a REST source that is down. */
  function Live(ts: int): Event {
    Received("A", ts, true, Parsed(FlatCandle(ts)), (a, b) => Err(Http), i => Confirmed, None, Confirmed)
  }

  lemma DownSource(c: Candle, s: State)
    requires c.symbol in s.lastTs
    ensures HealFetch(s, c, (a, b) => Err(Http)) == Err(Http)
  {
  }

  /** Such a candle is published, and nothing is healed. */
  lemma LiveStep(s: State, ts: int)
    requires s.up && ("A" in s.lastTs ==> s.lastTs["A"] < ts)
    ensures Enabled(s, Live(ts))
    ensures
      var s' := Step(s, Live(ts));
      && s'.up && s'.symbols == s.symbols && s'.topic == s.topic + [Record(FlatCandle(ts), true)]
      && s'.lastTs == s.lastTs["A" := ts]
  {
    if "A" in s.lastTs {
      DownSource(FlatCandle(ts), Taken(s));
    }
  }

  lemma RunFirst(s: State, e: Event, rest: seq<Event>)
    requires Enabled(s, e) && ValidRun(Step(s, e), rest)
    ensures ValidRun(s, [e] + rest) && Run(s, [e] + rest) == Run(Step(s, e), rest)
  {
    assert ([e] + rest)[1..] == rest;
  }

  lemma TwoEvents(s: State, a: Event, b: Event, rest: seq<Event>)
    requires Enabled(s, a) && Enabled(Step(s, a), b) && ValidRun(Step(Step(s, a), b), rest)
    ensures ValidRun(s, [a, b] + rest) && Run(s, [a, b] + rest) == Run(Step(Step(s, a), b), rest)
  {
    RunFirst(Step(s, a), b, rest);
    RunFirst(s, a, [b] + rest);
    assert [a] + ([b] + rest) == [a, b] + rest;
  }

  lemma TwoMinutesStream(a: int, b: int)
    requires 0 <= a <= b && a % MINUTE == 0 && b % MINUTE == 0
    ensures Consecutive(None, false, [Connected, Live(a), Connected, Live(b)], "A")
  {
    var events := [Connected, Live(a), Connected, Live(b)];
    assert events[1..] == [Live(a), Connected, Live(b)] && events[1..][1..] == [Connected, Live(b)];
    assert events[1..][1..][1..] == [Live(b)] && events[1..][1..][1..][1..] == [];
    assert Consecutive(Some(a), true, [Live(b)], "A");
    assert Consecutive(Some(a), false, [Connected, Live(b)], "A");
    assert Consecutive(None, true, [Live(a), Connected, Live(b)], "A");
  }

  /** Minute 0, a reconnect, minute 2 while the REST source is down: minute 1 is a hole. */
  lemma OneFailedRequestLeavesHole()
    ensures
      var events := [Connected, Live(0), Connected, Live(2 * MINUTE)];
      && ValidRun(Start({"A"}), events) && Consecutive(None, false, events, "A")
      && Hole(Run(Start({"A"}), events), "A", MINUTE)
  {
    var s1 := Step(Start({"A"}), Connected);
    LiveStep(s1, 0);
    var s2 := Step(s1, Live(0));
    var s3 := Step(s2, Connected);
    LiveStep(s3, 2 * MINUTE);
    TwoEvents(s2, Connected, Live(2 * MINUTE), []);
    assert [Connected, Live(2 * MINUTE)] + [] == [Connected, Live(2 * MINUTE)];
    TwoEvents(Start({"A"}), Connected, Live(0), [Connected, Live(2 * MINUTE)]);
    assert [Connected, Live(0)] + [Connected, Live(2 * MINUTE)] == [Connected, Live(0), Connected, Live(2 * MINUTE)];
    TwoMinutesStream(0, 2 * MINUTE);
  }
}
