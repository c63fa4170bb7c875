/** What a run of the ingester puts into the topic: contiguity when nothing fails, what it remembers and counts when
    something does, and that only finalized candles get there. */
module IngesterProofs {
  import opened Market
  import opened Fetch
  import opened IngesterModel

  function OfTopic(s: State, symbol: string): seq<Candle> {
    OfSymbol(Candles(s.topic), symbol)
  }

  lemma {:induction false} OfSymbolAppend(cs: seq<Candle>, c: Candle, symbol: string)
    ensures OfSymbol(cs + [c], symbol) == OfSymbol(cs, symbol) + if c.symbol == symbol then [c] else []
  {
    if cs == [] {
      assert cs + [c] == [c];
      assert [c][1..] == [];
    } else {
      assert (cs + [c])[1..] == cs[1..] + [c];
      OfSymbolAppend(cs[1..], c, symbol);
    }
  }

  lemma PublishAppends(s: State, c: Candle, ack: Ack, symbol: string)
    ensures OfTopic(Publish(s, c, ack), symbol) ==
      OfTopic(s, symbol) + if ack != Undelivered && c.symbol == symbol then [c] else []
  {
    if ack != Undelivered {
      OfSymbolAppend(Candles(s.topic), c, symbol);
      assert Candles(Publish(s, c, ack).topic) == Candles(s.topic) + [c];
    }
  }

  /** What a message's heal fetched, if it got that far. */
  function HealAnswer(s: State, c: Candle, rest: Exchange): Option<seq<Candle>>
    requires Ordered(rest)
  {
    if Flagged(s, c.symbol) && c.symbol in s.lastTs && MissingMinutes(s.lastTs[c.symbol], c.ts) > 0
      && HealFetch(s, c, rest).Ok?
    then Some(HealFetch(s, c, rest).value)
    else None
  }

  /** The candles a message makes the ingester publish ahead of its own. */
  function HealList(s: State, c: Candle, rest: Exchange): seq<Candle>
    requires Ordered(rest)
  {
    if HealAnswer(s, c, rest).Some? then HealAnswer(s, c, rest).value else []
  }

  /** The process is stopped behind one of the publishes of the message's heal. */
  predicate CutShort(s: State, e: Event)
    requires e.Received? && e.parse.Parsed? && Ordered(e.rest)
  {
    var answer := HealAnswer(s, e.parse.candle, e.rest);
    answer.Some? && e.cut.Some? && e.cut.value <= |answer.value|
  }

  lemma HealListSymbol(s: State, c: Candle, rest: Exchange)
    requires Ordered(rest)
    ensures forall h :: h in HealList(s, c, rest) ==> h.symbol == c.symbol
  {
  }

  lemma {:induction false} PublishKeepsFlags(s: State, cs: seq<Candle>, acks: nat -> Ack, n: nat)
    requires n <= |cs|
    ensures
      var s' := PublishFirst(s, cs, acks, n);
      s'.reconnected == s.reconnected && s'.symbols == s.symbols && s'.up == s.up && s'.kept == s.kept
  {
    if n == 0 {
    } else {
      PublishKeepsFlags(s, cs, acks, n - 1);
    }
  }

  /** Publishing reads and writes these parts of the state only. */
  ghost predicate SameRecord(s: State, s': State) {
    s.topic == s'.topic && s.lastTs == s'.lastTs && s.published == s'.published
  }

  lemma {:induction false} PublishFirstRecord(s: State, s': State, cs: seq<Candle>, acks: nat -> Ack, n: nat)
    requires SameRecord(s, s') && n <= |cs|
    ensures SameRecord(PublishFirst(s, cs, acks, n), PublishFirst(s', cs, acks, n))
  {
    if n == 0 {
    } else {
      PublishFirstRecord(s, s', cs, acks, n - 1);
    }
  }

  /** How many healed candles a message got to publish. */
  function HealedCount(e: Event, length: nat): nat
    requires e.Received?
  {
    if e.cut.Some? && e.cut.value < length then e.cut.value else length
  }

  lemma HealedShape(s: State, e: Event)
    requires s.up && e.Received? && Ordered(e.rest) && e.parse.Parsed?
    ensures
      var c := e.parse.candle;
      var healed := Healed(s, c, e.rest, e.healAcks, e.cut);
      var cs := HealList(s, c, e.rest);
      var n := HealedCount(e, |cs|);
      && SameRecord(healed, PublishFirst(s, cs, e.healAcks, n)) && healed.symbols == s.symbols
      && healed.up == !CutShort(s, e) && healed.kept == s.kept + (if healed.up then |cs| else 0)
      && healed.reconnected ==
         if healed.up && Flagged(s, c.symbol) then s.reconnected[c.symbol := false] else s.reconnected
  {
    var cs := HealList(s, e.parse.candle, e.rest);
    PublishKeepsFlags(s, cs, e.healAcks, HealedCount(e, |cs|));
  }

  lemma HealListSame(s: State, s': State, c: Candle, rest: Exchange)
    requires Ordered(rest) && s.lastTs == s'.lastTs && s.reconnected == s'.reconnected
    ensures HealAnswer(s, c, rest) == HealAnswer(s', c, rest)
  {
  }

  lemma StepPublishes(s: State, e: Event)
    requires Enabled(s, e) && e.Received? && e.closed && e.parse.Parsed?
    ensures
      var healed := Healed(Taken(s), e.parse.candle, e.rest, e.healAcks, e.cut);
      Step(s, e) == if healed.up then Publish(healed, e.parse.candle, e.ack) else healed
  {
  }

  /** A closed candle is handled by publishing the heal list, lowering the flag, and publishing the candle; or, if the
      process is stopped inside the heal, by publishing the first `n` of the list. */
  lemma StepShape(s: State, e: Event) returns (healed: State, cs: seq<Candle>, n: nat)
    requires Enabled(s, e) && e.Received? && e.closed && e.parse.Parsed?
    ensures cs == HealList(s, e.parse.candle, e.rest) && n == HealedCount(e, |cs|) <= |cs|
    ensures SameRecord(healed, PublishFirst(s, cs, e.healAcks, n))
    ensures healed.symbols == s.symbols && healed.up == !CutShort(s, e) && (healed.up ==> n == |cs|)
    ensures healed.kept == s.kept + 1 + if healed.up then |cs| else 0
    ensures healed.reconnected ==
      if healed.up && Flagged(s, e.symbol) then s.reconnected[e.symbol := false] else s.reconnected
    ensures Step(s, e) == if healed.up then Publish(healed, e.parse.candle, e.ack) else healed
  {
    healed := Healed(Taken(s), e.parse.candle, e.rest, e.healAcks, e.cut);
    HealedShape(Taken(s), e);
    HealListSame(s, Taken(s), e.parse.candle, e.rest);
    cs := HealList(s, e.parse.candle, e.rest);
    n := HealedCount(e, |cs|);
    PublishFirstRecord(s, Taken(s), cs, e.healAcks, n);
    StepPublishes(s, e);
  }

  // ---------- contiguity ----------

  /** The two states look the same to one symbol. */
  ghost predicate SameFor(s: State, s': State, symbol: string) {
    && s'.symbols == s.symbols && OfTopic(s', symbol) == OfTopic(s, symbol)
    && (symbol in s'.lastTs <==> symbol in s.lastTs) && (symbol in s.lastTs ==> s'.lastTs[symbol] == s.lastTs[symbol])
    && (symbol in s'.reconnected <==> symbol in s.reconnected)
    && (symbol in s.reconnected ==> s'.reconnected[symbol] == s.reconnected[symbol])
  }

  lemma {:induction false} OthersPublish(s: State, cs: seq<Candle>, acks: nat -> Ack, n: nat, symbol: string)
    requires n <= |cs| && forall c :: c in cs ==> c.symbol != symbol
    ensures SameFor(s, PublishFirst(s, cs, acks, n), symbol)
  {
    if n == 0 {
    } else {
      OthersPublish(s, cs, acks, n - 1, symbol);
      PublishAppends(PublishFirst(s, cs, acks, n - 1), cs[n - 1], acks(n - 1), symbol);
    }
  }

  /** Healing another symbol. */
  lemma OthersHealed(s: State, healed: State, cs: seq<Candle>, acks: nat -> Ack, n: nat, symbol: string)
    requires n <= |cs| && forall c :: c in cs ==> c.symbol != symbol
    requires SameRecord(healed, PublishFirst(s, cs, acks, n)) && healed.symbols == s.symbols
    requires symbol in healed.reconnected <==> symbol in s.reconnected
    requires symbol in s.reconnected ==> healed.reconnected[symbol] == s.reconnected[symbol]
    ensures SameFor(s, healed, symbol)
  {
    OthersPublish(s, cs, acks, n, symbol);
  }

  /** Publishing a candle of another symbol. */
  lemma OthersOwn(s: State, c: Candle, ack: Ack, symbol: string)
    requires c.symbol != symbol
    ensures SameFor(s, Publish(s, c, ack), symbol)
  {
    PublishAppends(s, c, ack, symbol);
  }

  lemma SameForTwice(s: State, healed: State, s': State, symbol: string)
    requires SameFor(s, healed, symbol) && SameFor(healed, s', symbol)
    ensures SameFor(s, s', symbol)
  {
  }

  /** A message about another symbol changes nothing for this one. */
  lemma OthersStep(s: State, e: Event, symbol: string)
    requires Enabled(s, e) && e.Received? && !(e.symbol == symbol && e.closed)
    ensures SameFor(s, Step(s, e), symbol)
  {
    if e.closed && e.parse.Parsed? {
      var healed, cs, n := StepShape(s, e);
      HealListSymbol(s, e.parse.candle, e.rest);
      OthersHealed(s, healed, cs, e.healAcks, n, symbol);
      if healed.up {
        OthersOwn(healed, e.parse.candle, e.ack, symbol);
        SameForTwice(s, healed, Step(s, e), symbol);
      }
    }
  }

  /** The symbol's topic is one unbroken run of minutes that ends at `t`, and `t` is the last timestamp on record. */
  ghost predicate EndsAt(s: State, symbol: string, t: int) {
    var ts := Times(OfTopic(s, symbol));
    && symbol in s.lastTs && s.lastTs[symbol] == t
    && |ts| > 0 && ts == Minutes(ts[0], |ts|) && ts[|ts| - 1] == t
  }

  lemma PublishNext(s: State, c: Candle, t: int)
    requires EndsAt(s, c.symbol, t) && c.ts == t + MINUTE
    ensures EndsAt(Publish(s, c, Confirmed), c.symbol, c.ts)
    ensures OfTopic(Publish(s, c, Confirmed), c.symbol) == OfTopic(s, c.symbol) + [c]
  {
    PublishAppends(s, c, Confirmed, c.symbol);
    var ts := Times(OfTopic(s, c.symbol));
    var ts' := Times(OfTopic(Publish(s, c, Confirmed), c.symbol));
    assert ts' == ts + [c.ts];
    assert ts[|ts| - 1] == Minutes(ts[0], |ts|)[|ts| - 1];
    forall i | 0 <= i < |ts|
      ensures ts'[i] == ts[0] + i * MINUTE
    {
      assert ts[i] == Minutes(ts[0], |ts|)[i];
    }
    assert ts' == Minutes(ts[0], |ts'|);
  }

  /** Candles of the symbol for `t + 1 min`, `t + 2 min`, and so on. */
  ghost predicate AreMinutesAfter(cs: seq<Candle>, symbol: string, t: int) {
    forall i :: 0 <= i < |cs| ==> cs[i].symbol == symbol && cs[i].ts == t + MINUTE + i * MINUTE
  }

  /** Healing publishes the missing minutes one after another. */
  lemma {:induction false} PublishRun(s: State, symbol: string, cs: seq<Candle>, acks: nat -> Ack, n: nat, t: int)
    requires EndsAt(s, symbol, t) && n <= |cs| && forall i :: 0 <= i < n ==> acks(i) == Confirmed
    requires AreMinutesAfter(cs, symbol, t)
    ensures EndsAt(PublishFirst(s, cs, acks, n), symbol, t + n * MINUTE)
  {
    if n == 0 {
    } else {
      PublishRun(s, symbol, cs, acks, n - 1, t);
      PublishNext(PublishFirst(s, cs, acks, n - 1), cs[n - 1], t + (n - 1) * MINUTE);
    }
  }

  /** The REST source holds every minute strictly between `t` and `t'` and every healed candle is acknowledged. */
  ghost predicate CanHeal(e: Event, t: int, t': int)
    requires e.Received?
  {
    && t < t' && (t' - t) % MINUTE == 0
    && (exists book :: Serves(e.rest, book) && HasMinutes(book, t + MINUTE, (t' - t) / MINUTE - 1))
    && (forall i :: e.healAcks(i) == Confirmed)
  }

  lemma GapLength(t: int, t': int) returns (n: nat)
    requires 0 <= t < t' && t' % MINUTE == 0 && (t' - t) % MINUTE == 0
    ensures n == (t' - t) / MINUTE - 1 == MissingMinutes(t, t')
    ensures t' == t + (n + 1) * MINUTE
    ensures TruncDiv((t + MINUTE) * 1000, 1000) == t + MINUTE
    ensures LastCompleteMinuteMs(t' * 1000) == t + MINUTE + n * MINUTE - MINUTE
  {
    n := (t' - t) / MINUTE - 1;
    assert TruncDiv(t' * 1000, 1000) == t';
    assert t' / MINUTE * MINUTE == t';
  }

  lemma FetchesMinutes(rest: Exchange, book: seq<Kline>, symbol: string, t: int, t': int, n: nat)
    returns (cs: seq<Candle>)
    requires Ordered(rest) && Serves(rest, book) && HasMinutes(book, t + MINUTE, n)
    requires TruncDiv((t + MINUTE) * 1000, 1000) == t + MINUTE
    requires LastCompleteMinuteMs(t' * 1000) == t + MINUTE + n * MINUTE - MINUTE
    ensures FetchSpec(rest, symbol, (t + MINUTE) * 1000, t' * 1000) == Ok(cs)
    ensures |cs| == n && AreMinutesAfter(cs, symbol, t)
  {
    FetchIsComplete(rest, book, symbol, (t + MINUTE) * 1000, t' * 1000);
    FullRange(book, t + MINUTE, n, t + MINUTE + n * MINUTE - MINUTE);
    cs := FetchSpec(rest, symbol, (t + MINUTE) * 1000, t' * 1000).value;
  }

  lemma HealFetchesGap(s: State, c: Candle, rest: Exchange, book: seq<Kline>, n: nat) returns (cs: seq<Candle>)
    requires Ordered(rest) && Serves(rest, book)
    requires c.symbol in s.lastTs && HasMinutes(book, s.lastTs[c.symbol] + MINUTE, n)
    requires TruncDiv((s.lastTs[c.symbol] + MINUTE) * 1000, 1000) == s.lastTs[c.symbol] + MINUTE
    requires LastCompleteMinuteMs(c.ts * 1000) == s.lastTs[c.symbol] + MINUTE + n * MINUTE - MINUTE
    ensures HealFetch(s, c, rest) == Ok(cs) && |cs| == n && AreMinutesAfter(cs, c.symbol, s.lastTs[c.symbol])
  {
    cs := FetchesMinutes(rest, book, c.symbol, s.lastTs[c.symbol], c.ts, n);
  }

  lemma HealListOfFetch(s: State, c: Candle, rest: Exchange, cs: seq<Candle>)
    requires Ordered(rest) && c.symbol in s.lastTs && HealFetch(s, c, rest) == Ok(cs) && Flagged(s, c.symbol)
    requires |cs| == MissingMinutes(s.lastTs[c.symbol], c.ts)
    ensures HealList(s, c, rest) == cs
  {
  }

  /** A symbol's closed candles as the exchange sends them over one process life: minute-aligned, consecutive while a
      connection lasts, later than before when a new one starts; and for this symbol nothing fails, though the process
      may be stopped inside a heal. */
  ghost predicate SmoothStream(prev: Option<int>, again: bool, events: seq<Event>, symbol: string)
    decreases |events|
  {
    events == [] ||
    var e := events[0];
    if e.Connected? then SmoothStream(prev, true, events[1..], symbol)
    else if !(e.symbol == symbol && e.closed) then SmoothStream(prev, again, events[1..], symbol)
    else
      && e.parse.Parsed? && e.ack == Confirmed
      && var c := e.parse.candle;
      && c.ts >= 0 && c.ts % MINUTE == 0
      && (prev.Some? ==> c.ts == prev.value + MINUTE || (again && CanHeal(e, prev.value, c.ts)))
      && SmoothStream(Some(c.ts), false, events[1..], symbol)
  }

  ghost predicate Follows(s: State, symbol: string, prev: Option<int>, again: bool) {
    && symbol in s.symbols && symbol in s.reconnected && s.reconnected[symbol] == again
    && match prev
       case None => symbol !in s.lastTs && OfTopic(s, symbol) == []
       case Some(t) => t >= 0 && t % MINUTE == 0 && EndsAt(s, symbol, t)
  }

  lemma EndsAtSame(s: State, s': State, symbol: string, t: int)
    requires EndsAt(s, symbol, t) && SameRecord(s, s')
    ensures EndsAt(s', symbol, t)
  {
  }

  /** The first candle of a symbol starts its run of minutes. */
  lemma FirstCandle(s: State, c: Candle)
    requires c.symbol !in s.lastTs && OfTopic(s, c.symbol) == []
    ensures EndsAt(Publish(s, c, Confirmed), c.symbol, c.ts)
  {
    PublishAppends(s, c, Confirmed, c.symbol);
    assert OfTopic(Publish(s, c, Confirmed), c.symbol) == [c];
    assert Times([c]) == [c.ts] == Minutes(c.ts, 1);
  }

  /** After a reconnect, the heal list brings the symbol's run up to the minute before the new candle, one minute at a
      time. */
  lemma ClosesGap(s: State, c: Candle, e: Event, t: int, k: nat)
    requires e.Received? && Ordered(e.rest) && EndsAt(s, c.symbol, t) && Flagged(s, c.symbol)
    requires 0 <= t && c.ts % MINUTE == 0 && CanHeal(e, t, c.ts) && k <= |HealList(s, c, e.rest)|
    ensures
      var cs := HealList(s, c, e.rest);
      EndsAt(PublishFirst(s, cs, e.healAcks, k), c.symbol, t + k * MINUTE) && t + |cs| * MINUTE == c.ts - MINUTE
  {
    var n := GapLength(t, c.ts);
    var book :| Serves(e.rest, book) && HasMinutes(book, t + MINUTE, (c.ts - t) / MINUTE - 1);
    var cs := HealFetchesGap(s, c, e.rest, book, n);
    HealListOfFetch(s, c, e.rest, cs);
    PublishRun(s, c.symbol, cs, e.healAcks, k, t);
  }

  lemma NothingMissing(s: State, c: Candle, rest: Exchange, t: int)
    requires Ordered(rest) && c.symbol in s.lastTs && s.lastTs[c.symbol] == t && c.ts == t + MINUTE
    ensures HealList(s, c, rest) == []
  {
  }

  /** `n` of the `length` missing minutes after `t` reach this far. */
  lemma MinutesOn(t: int, n: nat, length: nat, next: int) returns (last: int)
    requires t >= 0 && t % MINUTE == 0 && n <= length && t + length * MINUTE == next - MINUTE
    ensures last == t + n * MINUTE && last >= 0 && last % MINUTE == 0 && (n == length ==> last == next - MINUTE)
  {
    last := t + n * MINUTE;
  }

  /** A candle that parses lowers the reconnect flag, however its heal ends, unless the process is stopped before. */
  lemma StepFlag(s: State, e: Event, symbol: string)
    requires Enabled(s, e) && CandleOf(e, symbol).Some? && symbol in s.symbols && symbol in s.reconnected
    ensures
      var s' := Step(s, e);
      && symbol in s'.symbols && symbol in s'.reconnected
      && s'.reconnected[symbol] == (!s'.up && s.reconnected[symbol])
  {
    var healed, cs, n := StepShape(s, e);
  }

  /** The symbol's run is extended up to `last`: the new candle, unless the process is stopped before it. */
  lemma SmoothStep(s: State, e: Event, symbol: string, prev: Option<int>, again: bool) returns (last: int)
    requires Enabled(s, e) && e.Received? && e.symbol == symbol && e.closed && Follows(s, symbol, prev, again)
    requires SmoothStream(prev, again, [e], symbol)
    ensures Follows(Step(s, e), symbol, Some(last), !Step(s, e).up && again)
    ensures Step(s, e).up ==> last == e.parse.candle.ts
  {
    var c := e.parse.candle;
    StepFlag(s, e, symbol);
    var healed, cs, n := StepShape(s, e);
    if prev.None? {
      FirstCandle(healed, c);
      last := c.ts;
    } else {
      if c.ts == prev.value + MINUTE {
        NothingMissing(s, c, e.rest, prev.value);
      } else {
        ClosesGap(s, c, e, prev.value, n);
      }
      last := MinutesOn(prev.value, n, |cs|, c.ts);
      EndsAtSame(PublishFirst(s, cs, e.healAcks, n), healed, symbol, last);
      if healed.up {
        PublishNext(healed, c, last);
        last := c.ts;
      }
    }
  }

  lemma {:induction false} SmoothRun(s: State, events: seq<Event>, symbol: string, prev: Option<int>, again: bool)
    returns (prev': Option<int>, again': bool)
    requires ValidRun(s, events) && Follows(s, symbol, prev, again) && SmoothStream(prev, again, events, symbol)
    ensures Follows(Run(s, events), symbol, prev', again')
    decreases |events|
  {
    if events == [] {
      prev', again' := prev, again;
    } else {
      var e := events[0];
      if e.Connected? {
        prev', again' := SmoothRun(Step(s, e), events[1..], symbol, prev, true);
      } else if !(e.symbol == symbol && e.closed) {
        OthersStep(s, e, symbol);
        prev', again' := SmoothRun(Step(s, e), events[1..], symbol, prev, again);
      } else {
        assert [e][1..] == [];
        var last := SmoothStep(s, e, symbol, prev, again);
        if Step(s, e).up {
          prev', again' := SmoothRun(Step(s, e), events[1..], symbol, Some(last), false);
        } else {
          prev', again' := Some(last), again;
        }
      }
    }
  }

  /** Heal contiguity: over one process life, across any number of reconnects, the symbol's topic is exactly
      first, first + 1 min, ..., last, in order, and `last` is what the ingester remembers. */
  lemma HealContiguity(symbols: set<string>, events: seq<Event>, symbol: string)
    requires symbol in symbols && ValidRun(Start(symbols), events) && SmoothStream(None, false, events, symbol)
    ensures
      var end := Run(Start(symbols), events);
      var ts := Times(OfTopic(end, symbol));
      if symbol in end.lastTs then |ts| > 0 && ts == Minutes(ts[0], |ts|) && ts[|ts| - 1] == end.lastTs[symbol]
      else ts == []
  {
    var _, _ := SmoothRun(Start(symbols), events, symbol, None, false);
  }

  // ---------- what the ingester remembers, in every run ----------

  function CountConfirmed(topic: seq<Record>): nat {
    if topic == [] then 0
    else CountConfirmed(topic[..|topic| - 1]) + if topic[|topic| - 1].confirmed then 1 else 0
  }

  ghost predicate HasConfirmed(topic: seq<Record>, symbol: string, t: int) {
    exists r :: r in topic && r.confirmed && r.candle.symbol == symbol && r.candle.ts == t
  }

  /** `_last_ts` is, per symbol, the greatest timestamp whose publish was acknowledged; `published` counts those
      publishes. */
  ghost predicate Remembers(s: State) {
    IsMaximum(s.lastTs, s.topic) && s.published == CountConfirmed(s.topic)
  }

  ghost predicate IsMaximum(lastTs: map<string, int>, topic: seq<Record>) {
    && (forall symbol :: symbol in lastTs ==> HasConfirmed(topic, symbol, lastTs[symbol]))
    && (forall r :: r in topic && r.confirmed ==>
          r.candle.symbol in lastTs && r.candle.ts <= lastTs[r.candle.symbol])
  }

  ghost predicate LastGrows(s: State, s': State) {
    forall symbol :: symbol in s.lastTs ==> symbol in s'.lastTs && s.lastTs[symbol] <= s'.lastTs[symbol]
  }

  lemma AppendConfirmed(topic: seq<Record>, r: Record, symbol: string, t: int)
    ensures HasConfirmed(topic + [r], symbol, t) <==>
      HasConfirmed(topic, symbol, t) || (r.confirmed && r.candle.symbol == symbol && r.candle.ts == t)
    ensures CountConfirmed(topic + [r]) == CountConfirmed(topic) + if r.confirmed then 1 else 0
  {
    var more := topic + [r];
    assert more[..|topic|] == topic;
    assert more[|topic|] == r;
    assert forall q :: q in more <==> q in topic || q == r;
  }

  /** Recording a publish that was acknowledged keeps the maximum. */
  lemma ConfirmedIsMaximum(lastTs: map<string, int>, topic: seq<Record>, c: Candle, lastTs': map<string, int>)
    requires IsMaximum(lastTs, topic)
    requires lastTs' == if c.symbol in lastTs && lastTs[c.symbol] >= c.ts then lastTs else lastTs[c.symbol := c.ts]
    ensures IsMaximum(lastTs', topic + [Record(c, true)])
  {
    forall symbol | symbol in lastTs'
      ensures HasConfirmed(topic + [Record(c, true)], symbol, lastTs'[symbol])
    {
      AppendConfirmed(topic, Record(c, true), symbol, lastTs'[symbol]);
      assert symbol in lastTs ==> HasConfirmed(topic, symbol, lastTs[symbol]);
    }
  }

  /** A record nobody was told about changes no maximum. */
  lemma UnconfirmedIsMaximum(lastTs: map<string, int>, topic: seq<Record>, c: Candle)
    requires IsMaximum(lastTs, topic)
    ensures IsMaximum(lastTs, topic + [Record(c, false)])
  {
    forall symbol | symbol in lastTs
      ensures HasConfirmed(topic + [Record(c, false)], symbol, lastTs[symbol])
    {
      AppendConfirmed(topic, Record(c, false), symbol, lastTs[symbol]);
      assert HasConfirmed(topic, symbol, lastTs[symbol]);
    }
  }

  lemma PublishRemembers(s: State, c: Candle, ack: Ack)
    requires Remembers(s)
    ensures Remembers(Publish(s, c, ack)) && LastGrows(s, Publish(s, c, ack))
  {
    match ack
    case Confirmed =>
      AppendConfirmed(s.topic, Record(c, true), c.symbol, c.ts);
      ConfirmedIsMaximum(s.lastTs, s.topic, c, Publish(s, c, ack).lastTs);
    case Undelivered =>
    case Unconfirmed =>
      AppendConfirmed(s.topic, Record(c, false), c.symbol, c.ts);
      UnconfirmedIsMaximum(s.lastTs, s.topic, c);
  }

  lemma {:induction false} PublishFirstRemembers(s: State, cs: seq<Candle>, acks: nat -> Ack, n: nat)
    requires Remembers(s) && n <= |cs|
    ensures Remembers(PublishFirst(s, cs, acks, n)) && LastGrows(s, PublishFirst(s, cs, acks, n))
  {
    if n == 0 {
    } else {
      PublishFirstRemembers(s, cs, acks, n - 1);
      PublishRemembers(PublishFirst(s, cs, acks, n - 1), cs[n - 1], acks(n - 1));
    }
  }

  lemma StepRemembers(s: State, e: Event)
    requires Remembers(s) && Enabled(s, e)
    ensures Remembers(Step(s, e)) && LastGrows(s, Step(s, e))
  {
    if e.Received? && e.closed && e.parse.Parsed? {
      var healed, cs, n := StepShape(s, e);
      PublishFirstRemembers(s, cs, e.healAcks, n);
      PublishRemembers(healed, e.parse.candle, e.ack);
    }
  }

  lemma {:induction false} RunRemembers(s: State, events: seq<Event>)
    requires Remembers(s) && ValidRun(s, events)
    ensures Remembers(Run(s, events)) && LastGrows(s, Run(s, events))
    decreases |events|
  {
    if events == [] {
    } else {
      StepRemembers(s, events[0]);
      RunRemembers(Step(s, events[0]), events[1..]);
    }
  }

  /** In every run, whatever fails: `_last_ts` is the maximum acknowledged timestamp of the symbol. */
  lemma LastTsIsMaximum(symbols: set<string>, events: seq<Event>)
    requires ValidRun(Start(symbols), events)
    ensures Remembers(Run(Start(symbols), events))
  {
    RunRemembers(Start(symbols), events);
  }

  /** Publishes among the first `n` that were not acknowledged. */
  function CountFailed(acks: nat -> Ack, n: nat): nat {
    if n == 0 then 0 else CountFailed(acks, n - 1) + if acks(n - 1) == Confirmed then 0 else 1
  }

  lemma {:induction false} PublishFirstCounts(s: State, cs: seq<Candle>, acks: nat -> Ack, n: nat)
    requires n <= |cs|
    ensures PublishFirst(s, cs, acks, n).published + CountFailed(acks, n) == s.published + n
  {
    if n == 0 {
    } else {
      PublishFirstCounts(s, cs, acks, n - 1);
    }
  }

  /** Closed candles a message brought, itself and those it got to heal, that were not published: unparsed,
      unacknowledged, or not reached before the process was stopped. */
  function Unpublished(s: State, e: Event): nat
    requires e.Received? ==> Ordered(e.rest)
  {
    if !(e.Received? && e.closed) then 0
    else if !e.parse.Parsed? then 1
    else
      var cs := HealList(s, e.parse.candle, e.rest);
      var n := HealedCount(e, |cs|);
      CountFailed(e.healAcks, n) + if !CutShort(s, e) && e.ack == Confirmed then 0 else 1
  }

  /** Healed candles that `kept` does not count, because it is raised only after the last of them. */
  function Uncounted(s: State, e: Event): nat
    requires e.Received? ==> Ordered(e.rest)
  {
    if !(e.Received? && e.closed && e.parse.Parsed?) then 0
    else
      if CutShort(s, e) then HealedCount(e, |HealList(s, e.parse.candle, e.rest)|) else 0
  }

  ghost function UnpublishedIn(s: State, events: seq<Event>): nat
    requires ValidRun(s, events)
    decreases |events|
  {
    if events == [] then 0 else Unpublished(s, events[0]) + UnpublishedIn(Step(s, events[0]), events[1..])
  }

  ghost function UncountedIn(s: State, events: seq<Event>): nat
    requires ValidRun(s, events)
    decreases |events|
  {
    if events == [] then 0 else Uncounted(s, events[0]) + UncountedIn(Step(s, events[0]), events[1..])
  }

  lemma StepCounts(s: State, e: Event)
    requires Enabled(s, e)
    ensures Step(s, e).kept - s.kept + Uncounted(s, e) == Step(s, e).published - s.published + Unpublished(s, e)
    ensures s.kept <= Step(s, e).kept
    ensures Step(s, e).up ==> Uncounted(s, e) == 0
  {
    if e.Received? && e.closed && e.parse.Parsed? {
      var healed, cs, n := StepShape(s, e);
      PublishFirstCounts(s, cs, e.healAcks, n);
    }
  }

  /** The counters of a run balance: every candle kept, live or healed, was published or is one of the failures. Only a
      process stopped inside a heal has published candles it did not count, and it counts no more. */
  lemma {:induction false} CountersBalance(s: State, events: seq<Event>)
    requires ValidRun(s, events)
    ensures Run(s, events).kept - s.kept + UncountedIn(s, events) ==
            Run(s, events).published - s.published + UnpublishedIn(s, events)
    ensures s.kept <= Run(s, events).kept
    ensures Run(s, events).up ==> UncountedIn(s, events) == 0
    decreases |events|
  {
    if events == [] {
    } else {
      StepCounts(s, events[0]);
      CountersBalance(Step(s, events[0]), events[1..]);
      if !Step(s, events[0]).up {
        DownStays(Step(s, events[0]), events[1..]);
      }
    }
  }

  /** A process that is down does nothing more. */
  lemma DownStays(s: State, events: seq<Event>)
    requires ValidRun(s, events) && !s.up
    ensures events == [] && Run(s, events) == s
  {
  }

  // ---------- what a step delivers ----------

  lemma PublishDelivers(s: State, c: Candle, ack: Ack, symbol: string, m: int)
    ensures Delivered(Publish(s, c, ack).topic, symbol, m) <==>
      Delivered(s.topic, symbol, m) || (ack != Undelivered && c.symbol == symbol && c.ts == m)
  {
    var s' := Publish(s, c, ack);
    if ack != Undelivered {
      assert s'.topic[|s'.topic| - 1].candle == c;
      assert s'.topic[|s'.topic| - 1] in s'.topic;
      assert forall r :: r in s.topic ==> r in s'.topic;
      assert forall r :: r in s'.topic ==> r in s.topic || r.candle == c;
    }
  }

  lemma {:induction false} PublishFirstDelivers(s: State, cs: seq<Candle>, acks: nat -> Ack, n: nat,
                                                symbol: string, m: int)
    requires n <= |cs|
    ensures Delivered(PublishFirst(s, cs, acks, n).topic, symbol, m) <==>
      || Delivered(s.topic, symbol, m)
      || exists i :: 0 <= i < n && cs[i].symbol == symbol && cs[i].ts == m && acks(i) != Undelivered
  {
    if n == 0 {
    } else {
      PublishFirstDelivers(s, cs, acks, n - 1, symbol, m);
      PublishDelivers(PublishFirst(s, cs, acks, n - 1), cs[n - 1], acks(n - 1), symbol, m);
    }
  }

  /** The message is a closed candle of the symbol, and handling it heals: the flag is up and minutes are missing. */
  ghost predicate TriesToHeal(s: State, e: Event, symbol: string) {
    && CandleOf(e, symbol).Some? && Flagged(s, symbol) && symbol in s.lastTs
    && MissingMinutes(s.lastTs[symbol], CandleOf(e, symbol).value.ts) > 0
  }

  /** The heal's answer contained minute `m` and publishing it put it into the topic. */
  ghost predicate HealDelivers(s: State, e: Event, symbol: string, m: int)
    requires TriesToHeal(s, e, symbol) && Ordered(e.rest)
  {
    var r := HealFetch(s, CandleOf(e, symbol).value, e.rest);
    r.Ok? && exists i :: 0 <= i < HealedCount(e, |r.value|) && r.value[i].ts == m && e.healAcks(i) != Undelivered
  }

  /** The event puts minute `m` of the symbol into the topic, live or by healing. */
  ghost predicate Brings(s: State, e: Event, symbol: string, m: int)
    requires Enabled(s, e)
  {
    || (CandleOf(e, symbol).Some? && Step(s, e).up && e.ack != Undelivered && CandleOf(e, symbol).value.ts == m)
    || (TriesToHeal(s, e, symbol) && HealDelivers(s, e, symbol, m))
  }

  lemma StepDelivers(s: State, e: Event, symbol: string, m: int)
    requires Enabled(s, e)
    ensures Delivered(Step(s, e).topic, symbol, m) <==> Delivered(s.topic, symbol, m) || Brings(s, e, symbol, m)
  {
    if e.Received? && e.closed && e.parse.Parsed? {
      var healed, cs, n := StepShape(s, e);
      HealListSymbol(s, e.parse.candle, e.rest);
      PublishFirstDelivers(s, cs, e.healAcks, n, symbol, m);
      PublishDelivers(healed, e.parse.candle, e.ack, symbol, m);
    }
  }

  lemma HealedIsOlder(s: State, c: Candle, rest: Exchange)
    requires Ordered(rest) && c.ts >= 0 && c.symbol in s.lastTs && HealFetch(s, c, rest).Ok?
    ensures forall h :: h in HealFetch(s, c, rest).value ==>
      h.symbol == c.symbol && s.lastTs[c.symbol] + MINUTE <= h.ts && h.ts + MINUTE <= c.ts
  {
    OnlyClosedCandles(rest, c.symbol, (s.lastTs[c.symbol] + MINUTE) * 1000, c.ts * 1000);
    assert TruncDiv((s.lastTs[c.symbol] + MINUTE) * 1000, 1000) == s.lastTs[c.symbol] + MINUTE;
    var cs := HealFetch(s, c, rest).value;
    forall h | h in cs
      ensures h.symbol == c.symbol && s.lastTs[c.symbol] + MINUTE <= h.ts && h.ts + MINUTE <= c.ts
    {
      var i :| 0 <= i < |cs| && cs[i] == h;
    }
  }

  /** A step delivers no minute at or before `_last_ts`, except a candle the stream itself brings. */
  lemma StepDeliversLater(s: State, e: Event, symbol: string, m: int)
    requires Enabled(s, e) && (CandleOf(e, symbol).Some? ==> CandleOf(e, symbol).value.ts >= 0)
    requires !Delivered(s.topic, symbol, m) && Delivered(Step(s, e).topic, symbol, m)
    ensures CandleOf(e, symbol).Some? && m <= CandleOf(e, symbol).value.ts
    ensures m == CandleOf(e, symbol).value.ts || (symbol in s.lastTs && s.lastTs[symbol] < m)
  {
    StepDelivers(s, e, symbol, m);
    if TriesToHeal(s, e, symbol) && HealDelivers(s, e, symbol, m) {
      var c := CandleOf(e, symbol).value;
      HealedIsOlder(s, c, e.rest);
      var cs := HealFetch(s, c, e.rest).value;
      var i :| 0 <= i < |cs| && cs[i].ts == m && e.healAcks(i) != Undelivered;
      assert cs[i] in cs;
    }
  }

  // ---------- what is published ----------

  lemma {:induction false} PublishFirstTopic(s: State, cs: seq<Candle>, acks: nat -> Ack, n: nat)
    requires n <= |cs|
    ensures forall r :: r in PublishFirst(s, cs, acks, n).topic ==>
      r in s.topic || exists i :: 0 <= i < n && r.candle == cs[i]
  {
    if n == 0 {
    } else {
      PublishFirstTopic(s, cs, acks, n - 1);
      forall r | r in PublishFirst(s, cs, acks, n).topic
        ensures r in s.topic || exists i :: 0 <= i < n && r.candle == cs[i]
      {
        if r !in PublishFirst(s, cs, acks, n - 1).topic {
          assert r.candle == cs[n - 1];
        }
      }
    }
  }

  /** The candle holds a row of the book that starts after `last` and before `next`. */
  ghost predicate FromBook(c: Candle, symbol: string, book: seq<Kline>, last: int, next: int) {
    exists row :: row in book && IsCandleOf(c, symbol, row) && last < row.openTime < next
  }

  /** What a heal publishes are the exchange's rows, with all their values; nothing else is published but the candle
      itself. */
  lemma PublishesRows(s: State, e: Event, book: seq<Kline>)
    requires Enabled(s, e) && e.Received? && e.closed && e.parse.Parsed? && e.openTime >= 0 && Serves(e.rest, book)
    requires e.symbol in s.lastTs
    ensures forall r :: r in Step(s, e).topic ==>
      || r in s.topic || r.candle == e.parse.candle
      || FromBook(r.candle, e.symbol, book, s.lastTs[e.symbol], e.openTime)
  {
    var healed, cs, n := StepShape(s, e);
    PublishFirstTopic(s, cs, e.healAcks, n);
    HealListRows(s, e.parse.candle, e.rest, book);
  }

  /** Against an exchange that serves its book, a heal fetches rows of the book from between the two candles. */
  lemma HealRows(s: State, c: Candle, rest: Exchange, book: seq<Kline>) returns (cs: seq<Candle>)
    requires Ordered(rest) && Serves(rest, book) && c.ts >= 0 && c.symbol in s.lastTs
    ensures HealFetch(s, c, rest) == Ok(cs)
    ensures forall h :: h in cs ==> FromBook(h, c.symbol, book, s.lastTs[c.symbol], c.ts)
  {
    var rows;
    cs, rows := FetchedAreRows(rest, book, c.symbol, (s.lastTs[c.symbol] + MINUTE) * 1000, c.ts * 1000);
    HealedIsOlder(s, c, rest);
    forall h | h in cs
      ensures FromBook(h, c.symbol, book, s.lastTs[c.symbol], c.ts)
    {
      var i :| 0 <= i < |cs| && cs[i] == h;
      assert rows[i] in rows;
    }
  }

  lemma HealListRows(s: State, c: Candle, rest: Exchange, book: seq<Kline>)
    requires Ordered(rest) && Serves(rest, book) && c.ts >= 0 && c.symbol in s.lastTs
    ensures forall h :: h in HealList(s, c, rest) ==> FromBook(h, c.symbol, book, s.lastTs[c.symbol], c.ts)
  {
    var cs := HealRows(s, c, rest, book);
  }

  function CountReceived(events: seq<Event>): nat {
    if events == [] then 0 else (if events[0].Received? then 1 else 0) + CountReceived(events[1..])
  }

  /** Every message is counted as received, whatever becomes of it. */
  lemma {:induction false} ReceivedIsCounted(s: State, events: seq<Event>)
    requires ValidRun(s, events)
    ensures Run(s, events).received == s.received + CountReceived(events)
    decreases |events|
  {
    if events == [] {
    } else {
      StepReceived(s, events[0]);
      ReceivedIsCounted(Step(s, events[0]), events[1..]);
    }
  }

  lemma {:induction false} PublishKeepsReceived(s: State, cs: seq<Candle>, acks: nat -> Ack, n: nat)
    requires n <= |cs|
    ensures PublishFirst(s, cs, acks, n).received == s.received
  {
    if n == 0 {
    } else {
      PublishKeepsReceived(s, cs, acks, n - 1);
    }
  }

  lemma StepReceived(s: State, e: Event)
    requires Enabled(s, e)
    ensures Step(s, e).received == s.received + if e.Received? then 1 else 0
  {
    if e.Received? && e.closed && e.parse.Parsed? {
      var t := Taken(s);
      var c := e.parse.candle;
      if Flagged(t, c.symbol) && c.symbol in t.lastTs && HealFetch(t, c, e.rest).Ok? {
        var cs := HealFetch(t, c, e.rest).value;
        PublishKeepsReceived(t, cs, e.healAcks, HealedCount(e, |cs|));
      }
    }
  }

  // ---------- only finalized candles ----------

  /** Every closed candle on the stream belongs to a minute that is over at `nowUs`. */
  ghost predicate ClosedBy(events: seq<Event>, nowUs: int) {
    forall e :: e in events && e.Received? && e.closed && e.parse.Parsed? ==>
      e.parse.candle.ts >= 0 && (e.parse.candle.ts + MINUTE) * 1000 <= nowUs
  }

  ghost predicate TopicClosed(s: State, nowUs: int) {
    forall r :: r in s.topic ==> (r.candle.ts + MINUTE) * 1000 <= nowUs
  }

  /** Only finalized candles reach the topic, over the websocket or by healing, even if the REST source overruns the
      requested end. */
  lemma {:induction false} OnlyFinalized(s: State, events: seq<Event>, nowUs: int)
    requires ValidRun(s, events) && ClosedBy(events, nowUs) && TopicClosed(s, nowUs)
    ensures TopicClosed(Run(s, events), nowUs)
    decreases |events|
  {
    if events == [] {
    } else {
      var e := events[0];
      assert e in events;
      forall r | r in Step(s, e).topic
        ensures (r.candle.ts + MINUTE) * 1000 <= nowUs
      {
        var symbol := r.candle.symbol;
        assert Delivered(Step(s, e).topic, symbol, r.candle.ts);
        if Delivered(s.topic, symbol, r.candle.ts) {
          var q :| q in s.topic && q.candle.symbol == symbol && q.candle.ts == r.candle.ts;
        } else {
          StepDeliversLater(s, e, symbol, r.candle.ts);
        }
      }
      assert forall g :: g in events[1..] ==> g in events;
      OnlyFinalized(Step(s, e), events[1..], nowUs);
    }
  }
}
