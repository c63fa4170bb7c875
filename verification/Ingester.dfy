/** The ingester's message handler, proved against the state machine of IngesterModel. */
module Ingester {
  import opened Market
  import opened Fetch
  import opened IngesterModel

  class BinanceIngester {
    const symbols: set<string>
    var received: nat
    var kept: nat
    var published: nat
    var lastTs: map<string, int>
    var reconnected: map<string, bool>
    // the broker's topic
    var topic: seq<Record>

    ghost function View(up: bool): State
      reads this
    {
      State(symbols, lastTs, reconnected, received, kept, published, topic, up)
    }

    constructor (symbols: set<string>)
      ensures View(true) == Start(symbols)
    {
      this.symbols := symbols;
      received, kept, published := 0, 0, 0;
      lastTs := map[];
      reconnected := map s | s in symbols :: false;
      topic := [];
    }

    method Connected()
      modifies this`reconnected
      ensures View(true) == Step(old(View(true)), Event.Connected)
    {
      reconnected := map s | s in symbols :: true;
    }

    method Publish(candle: Candle, ack: Ack)
      modifies this`published, this`lastTs, this`topic
      ensures View(true) == IngesterModel.Publish(old(View(true)), candle, ack)
    {
      match ack
      case Undelivered =>
      case Unconfirmed =>
        topic := topic + [Record(candle, false)];
      case Confirmed =>
        topic := topic + [Record(candle, true)];
        published := published + 1;
        if candle.symbol !in lastTs || lastTs[candle.symbol] < candle.ts {
          lastTs := lastTs[candle.symbol := candle.ts];
        }
    }

    /** The loop of the heal, left early if the process is stopped. */
    method PublishHealed(candles: seq<Candle>, acks: nat -> Ack, cut: Option<nat>) returns (alive: bool)
      modifies this`published, this`lastTs, this`topic
      ensures alive <==> cut.None? || cut.value > |candles|
      ensures View(true) == PublishFirst(old(View(true)), candles, acks, if alive then |candles| else cut.value)
    {
      for i := 0 to |candles|
        invariant View(true) == PublishFirst(old(View(true)), candles, acks, i)
        invariant cut.Some? ==> i <= cut.value
      {
        if cut == Some(i) {
          return false;
        }
        Publish(candles[i], acks(i));
      }
      return cut != Some(|candles|);
    }

    /** `alive` is whether it ran to its end rather than being stopped. */
    method HealGap(candle: Candle, rest: Exchange, acks: nat -> Ack, cut: Option<nat>) returns (alive: bool)
      requires Ordered(rest)
      modifies this`kept, this`published, this`lastTs, this`topic
      ensures View(alive) == Heal(old(View(true)), candle, rest, acks, cut)
    {
      if candle.symbol !in lastTs {
        return true;
      }
      var last := lastTs[candle.symbol];
      var missing := TruncDiv(candle.ts - last, MINUTE) - 1;
      if missing <= 0 {
        return true;
      }
      var fetched := FetchRange(rest, candle.symbol, (last + MINUTE) * 1000, candle.ts * 1000);
      if fetched.Err? {
        return true;
      }
      var candles := fetched.value;
      alive := PublishHealed(candles, acks, cut);
      if alive {
        KeptUntouched(old(View(true)), candles, acks, |candles|);
        kept := kept + |candles|;
      }
    }

    /** The rest of the handling of a closed candle that parsed. */
    method KeepCandle(candle: Candle, rest: Exchange, healAcks: nat -> Ack, cut: Option<nat>, ack: Ack)
      returns (alive: bool)
      requires Ordered(rest)
      modifies this
      ensures View(alive) == HandleCandle(old(View(true)), candle, rest, healAcks, cut, ack)
    {
      if candle.symbol in reconnected && reconnected[candle.symbol] {
        alive := HealGap(candle, rest, healAcks, cut);
        if !alive {
          return;
        }
        reconnected := reconnected[candle.symbol := false];
      }
      Publish(candle, ack);
      return true;
    }

    /** `_handle_msg`; `alive` is whether it returned rather than raised or was stopped. */
    method HandleMsg(symbol: string, openTime: int, closed: bool, parse: Parse, rest: Exchange,
                     healAcks: nat -> Ack, cut: Option<nat>, ack: Ack)
      returns (alive: bool)
      requires Enabled(View(true), Received(symbol, openTime, closed, parse, rest, healAcks, cut, ack))
      modifies this
      ensures View(alive) == Step(old(View(true)), Received(symbol, openTime, closed, parse, rest, healAcks, cut, ack))
    {
      ghost var before := View(true);
      received := received + 1;
      if closed {
        kept := kept + 1;
        assert View(true) == Taken(before);
        match parse
        case BadValue =>
          return true;
        case Uncaught =>
          return false;
        case Parsed(candle) =>
          alive := KeepCandle(candle, rest, healAcks, cut, ack);
          return;
      }
      return true;
    }

    /** One process life: connections and messages until an error escapes or the events end. */
    method Run(events: seq<Event>) returns (alive: bool)
      requires ValidRun(View(true), events)
      modifies this
      ensures View(alive) == IngesterModel.Run(old(View(true)), events)
    {
      alive := true;
      assert events[0..] == events;
      for i := 0 to |events|
        invariant ValidRun(View(alive), events[i..])
        invariant IngesterModel.Run(View(alive), events[i..]) == IngesterModel.Run(old(View(true)), events)
      {
        assert events[i..][1..] == events[i + 1..];
        match events[i] {
          case Connected => Connected();
          case Received(symbol, openTime, closed, parse, rest, healAcks, cut, ack) =>
            alive := HandleMsg(symbol, openTime, closed, parse, rest, healAcks, cut, ack);
        }
      }
    }
  }

  lemma {:induction false} KeptUntouched(s: State, cs: seq<Candle>, acks: nat -> Ack, n: nat)
    requires n <= |cs|
    ensures PublishFirst(s, cs, acks, n).kept == s.kept
  {
    if n == 0 {
    } else {
      KeptUntouched(s, cs, acks, n - 1);
    }
  }
}
