/** The values every component shares: candles, times in epoch milliseconds, optional and failing results. */
module Market {
  datatype Option<+T> = None | Some(value: T)

  datatype Result<+T, +E> = Ok(value: T) | Err(error: E)

  /** The minute that starts at `ts`; money is exact. */
  datatype Candle = Candle(symbol: string, ts: int, open: real, high: real, low: real, close: real, volume: real)

  const MINUTE := 60_000

  function Max(a: int, b: int): int {
    if a >= b then a else b
  }

  /** Python's `int(a / b)`, which drops the fraction towards zero. */
  function TruncDiv(a: int, b: int): int
    requires b > 0
  {
    if a >= 0 then a / b else -(-a / b)
  }

  /** `first`, `first + MINUTE`, ...: `n` consecutive minutes. */
  function Minutes(first: int, n: nat): seq<int> {
    seq(n, i requires 0 <= i < n => first + i * MINUTE)
  }

  /** The elements of `cs` that belong to one symbol, in order. */
  function OfSymbol(cs: seq<Candle>, symbol: string): seq<Candle> {
    if cs == [] then []
    else if cs[0].symbol == symbol then [cs[0]] + OfSymbol(cs[1..], symbol)
    else OfSymbol(cs[1..], symbol)
  }

  function Times(cs: seq<Candle>): (ts: seq<int>) {
    seq(|cs|, i requires 0 <= i < |cs| => cs[i].ts)
  }
}
