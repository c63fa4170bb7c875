/** The ingester as a state machine over what the websocket, the REST source and the producer do to it. */
module IngesterModel {
  import opened Market
  import opened Fetch

  /** How `send_and_wait` ends: acknowledged; raised with nothing in the topic; raised although the broker has it. */
  datatype Ack = Confirmed | Undelivered | Unconfirmed

  /** One message in the topic, and whether the producer was told it is there. */
  datatype Record = Record(candle: Candle, confirmed: bool)

  /** `parse_ws_candle`: a candle, the error that is skipped, or one that ends the process. */
  datatype Parse = Parsed(candle: Candle) | BadValue | Uncaught

  /** `Received` is one kline message: its symbol, open time and closed flag, what parsing makes of it, how the REST
      source answers a heal, how each publish ends, and, if the process is stopped inside the heal, after how many of
      its publishes. */
  datatype Event =
    | Connected
    | Received(symbol: string, openTime: int, closed: bool, parse: Parse,
               rest: Exchange, healAcks: nat -> Ack, cut: Option<nat>, ack: Ack)

  datatype State = State(
    symbols: set<string>, lastTs: map<string, int>, reconnected: map<string, bool>,
    received: nat, kept: nat, published: nat, topic: seq<Record>, up: bool)

  function Start(symbols: set<string>): State {
    State(symbols, map[], map s | s in symbols :: false, 0, 0, 0, [], true)
  }

  function Publish(s: State, c: Candle, ack: Ack): State {
    match ack
    case Confirmed =>
      s.(published := s.published + 1, topic := s.topic + [Record(c, true)],
         lastTs := if c.symbol in s.lastTs && s.lastTs[c.symbol] >= c.ts then s.lastTs else s.lastTs[c.symbol := c.ts])
    case Undelivered => s
    case Unconfirmed => s.(topic := s.topic + [Record(c, false)])
  }

  function PublishFirst(s: State, cs: seq<Candle>, acks: nat -> Ack, n: nat): State
    requires n <= |cs|
  {
    if n == 0 then s else Publish(PublishFirst(s, cs, acks, n - 1), cs[n - 1], acks(n - 1))
  }

  function MissingMinutes(last: int, ts: int): int {
    TruncDiv(ts - last, MINUTE) - 1
  }

  /** What the REST source answers for the minutes between the last published candle and `c`. */
  function HealFetch(s: State, c: Candle, rest: Exchange): Result<seq<Candle>, FetchError>
    requires c.symbol in s.lastTs && Ordered(rest)
  {
    FetchSpec(rest, c.symbol, (s.lastTs[c.symbol] + MINUTE) * 1000, c.ts * 1000)
  }

  /** The heal of a gap; the stop leaves it behind one of its publishes, with the process down and `kept` not raised. */
  function Heal(s: State, c: Candle, rest: Exchange, acks: nat -> Ack, cut: Option<nat>): State
    requires Ordered(rest)
  {
    if c.symbol !in s.lastTs || MissingMinutes(s.lastTs[c.symbol], c.ts) <= 0 then s
    else
      match HealFetch(s, c, rest)
      case Err(_) => s
      case Ok(cs) =>
        if cut.Some? && cut.value <= |cs| then PublishFirst(s, cs, acks, cut.value).(up := false)
        else PublishFirst(s, cs, acks, |cs|).(kept := s.kept + |cs|)
  }

  predicate Flagged(s: State, symbol: string) {
    symbol in s.reconnected && s.reconnected[symbol]
  }

  function Healed(s: State, c: Candle, rest: Exchange, acks: nat -> Ack, cut: Option<nat>): State
    requires Ordered(rest)
  {
    if Flagged(s, c.symbol) then
      var h := Heal(s, c, rest, acks, cut);
      if h.up then h.(reconnected := h.reconnected[c.symbol := false]) else h
    else s
  }

  /** Heal if the symbol's connection is new, then publish. */
  function HandleCandle(s: State, c: Candle, rest: Exchange, healAcks: nat -> Ack, cut: Option<nat>, ack: Ack): State
    requires Ordered(rest)
  {
    var healed := Healed(s, c, rest, healAcks, cut);
    if healed.up then Publish(healed, c, ack) else healed
  }

  ghost predicate Enabled(s: State, e: Event) {
    s.up &&
    (e.Received? ==>
       && Ordered(e.rest)
       && (e.parse.Parsed? ==> e.parse.candle.symbol == e.symbol && e.parse.candle.ts == e.openTime))
  }

  /** A closed candle is counted before it is parsed. */
  function Taken(s: State): State {
    s.(received := s.received + 1, kept := s.kept + 1)
  }

  /** `_handle_msg`, or the part of `_connect_and_stream` that starts a connection. */
  function Step(s: State, e: Event): State
    requires Enabled(s, e)
  {
    match e
    case Connected => s.(reconnected := map x | x in s.symbols :: true)
    case Received(_, _, closed, parse, rest, healAcks, cut, ack) =>
      if !closed then s.(received := s.received + 1)
      else
        match parse
        case BadValue => Taken(s)
        case Uncaught => Taken(s).(up := false)
        case Parsed(c) => HandleCandle(Taken(s), c, rest, healAcks, cut, ack)
  }

  ghost predicate ValidRun(s: State, events: seq<Event>)
    decreases |events|
  {
    events == [] || (Enabled(s, events[0]) && ValidRun(Step(s, events[0]), events[1..]))
  }

  ghost function Run(s: State, events: seq<Event>): State
    requires ValidRun(s, events)
    decreases |events|
  {
    if events == [] then s else Run(Step(s, events[0]), events[1..])
  }

  /** The candle of an event that reaches `_publish`, if it is one of `symbol`. */
  function CandleOf(e: Event, symbol: string): Option<Candle> {
    if e.Received? && e.closed && e.parse.Parsed? && e.parse.candle.symbol == symbol then Some(e.parse.candle) else None
  }

  predicate Delivered(topic: seq<Record>, symbol: string, m: int) {
    exists r :: r in topic && r.candle.symbol == symbol && r.candle.ts == m
  }

  /** The candles of the topic, in order. */
  function Candles(topic: seq<Record>): seq<Candle> {
    seq(|topic|, i requires 0 <= i < |topic| => topic[i].candle)
  }
}
