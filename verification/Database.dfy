/** `insert_candles`: rows are staged in copy order, then merged so that the first writer of a key wins. */
module Database {
  import opened Market

  /** The primary key of `candles_1m`. */
  datatype Key = Key(symbol: string, ts: int)

  type Table = map<Key, Candle>

  function KeyOf(c: Candle): Key {
    Key(c.symbol, c.ts)
  }

  /** One staged row under ON CONFLICT DO NOTHING. */
  function InsertRow(t: Table, c: Candle): Table {
    if KeyOf(c) in t then t else t[KeyOf(c) := c]
  }

  function Merge(t: Table, rows: seq<Candle>): Table
    decreases rows
  {
    if rows == [] then t else Merge(InsertRow(t, rows[0]), rows[1..])
  }

  function Lookup(t: Table, k: Key): Option<Candle> {
    if k in t then Some(t[k]) else None
  }

  /** The value that was there first. */
  function Or<T>(a: Option<T>, b: Option<T>): Option<T> {
    if a.Some? then a else b
  }

  /** The first row that carries a key: what "first writer wins" means, said without a table. */
  function FirstWith(rows: seq<Candle>, k: Key): Option<Candle> {
    if rows == [] then None
    else if KeyOf(rows[0]) == k then Some(rows[0])
    else FirstWith(rows[1..], k)
  }

  function KeySet(rows: seq<Candle>): set<Key> {
    set c | c in rows :: KeyOf(c)
  }

  lemma {:induction false} FirstWithConcat(a: seq<Candle>, b: seq<Candle>, k: Key)
    ensures FirstWith(a + b, k) == Or(FirstWith(a, k), FirstWith(b, k))
  {
    if a == [] {
      assert a + b == b;
    } else {
      assert (a + b)[1..] == a[1..] + b;
      FirstWithConcat(a[1..], b, k);
    }
  }

  lemma {:induction false} FirstWithAbsent(rows: seq<Candle>, k: Key)
    ensures FirstWith(rows, k).None? <==> k !in KeySet(rows)
    ensures FirstWith(rows, k).Some? ==> FirstWith(rows, k).value in rows && KeyOf(FirstWith(rows, k).value) == k
  {
    if rows == [] {
    } else {
      FirstWithAbsent(rows[1..], k);
      assert rows == [rows[0]] + rows[1..];
    }
  }

  /** A merge keeps what was there and otherwise stores, per key, the first staged row. */
  lemma {:induction false} MergeLookup(t: Table, rows: seq<Candle>, k: Key)
    ensures Lookup(Merge(t, rows), k) == Or(Lookup(t, k), FirstWith(rows, k))
    decreases rows
  {
    if rows == [] {
    } else {
      MergeLookup(InsertRow(t, rows[0]), rows[1..], k);
    }
  }

  lemma SameTable(a: Table, b: Table)
    requires forall k :: Lookup(a, k) == Lookup(b, k)
    ensures a == b
  {
    forall k | k in a
      ensures k in b && a[k] == b[k]
    {
      assert Lookup(a, k) == Lookup(b, k);
    }
    forall k | k in b
      ensures k in a
    {
      assert Lookup(a, k) == Lookup(b, k);
    }
  }

  /** Where a stream of rows is cut into batches does not matter. */
  lemma MergeConcat(t: Table, a: seq<Candle>, b: seq<Candle>)
    ensures Merge(t, a + b) == Merge(Merge(t, a), b)
  {
    forall k
      ensures Lookup(Merge(t, a + b), k) == Lookup(Merge(Merge(t, a), b), k)
    {
      MergeLookup(t, a + b, k);
      FirstWithConcat(a, b, k);
      MergeLookup(t, a, k);
      MergeLookup(Merge(t, a), b, k);
    }
    SameTable(Merge(t, a + b), Merge(Merge(t, a), b));
  }

  /** Replaying rows whose keys are stored already inserts nothing new, whatever the replayed values are. */
  lemma {:induction false} ReplayAddsNothing(t: Table, rows: seq<Candle>)
    requires KeySet(rows) <= t.Keys
    ensures Merge(t, rows) == t
  {
    if rows == [] {
    } else {
      assert rows[0] in rows;
      assert KeyOf(rows[0]) in KeySet(rows);
      assert KeySet(rows[1..]) <= KeySet(rows);
      ReplayAddsNothing(t, rows[1..]);
    }
  }

  lemma {:induction false} MergeKeys(t: Table, rows: seq<Candle>)
    ensures Merge(t, rows).Keys == t.Keys + KeySet(rows)
    decreases rows
  {
    if rows == [] {
      assert KeySet(rows) == {};
    } else {
      MergeKeys(InsertRow(t, rows[0]), rows[1..]);
      assert rows == [rows[0]] + rows[1..];
      assert KeySet(rows) == {KeyOf(rows[0])} + KeySet(rows[1..]);
      assert InsertRow(t, rows[0]).Keys == t.Keys + {KeyOf(rows[0])};
    }
  }

  /** The difference of the two row counts is the number of distinct new keys in the batch. */
  lemma InsertedCount(t: Table, rows: seq<Candle>)
    ensures |Merge(t, rows)| - |t| == |KeySet(rows) - t.Keys|
  {
    MergeKeys(t, rows);
    assert t.Keys + KeySet(rows) == t.Keys + (KeySet(rows) - t.Keys);
    assert |t.Keys + (KeySet(rows) - t.Keys)| == |t.Keys| + |KeySet(rows) - t.Keys|;
    assert |Merge(t, rows)| == |Merge(t, rows).Keys|;
    assert |t| == |t.Keys|;
  }

  /** The table `candles_1m`. */
  class CandleTable {
    var rows: Table

    constructor (contents: Table)
      ensures rows == contents
    {
      rows := contents;
    }

    /** One transaction of `insert_candles`; `commits` is the database's decision to keep it. */
    method InsertCandles(candles: seq<Candle>, commits: bool) returns (inserted: int)
      modifies this
      ensures rows == if commits then Merge(old(rows), candles) else old(rows)
      ensures inserted == |KeySet(candles) - old(rows).Keys|
    {
      var startCount := |rows|;
      var stage := [];
      for i := 0 to |candles|
        invariant stage == candles[..i]
      {
        stage := stage + [candles[i]];
      }
      var merged := rows;
      for i := 0 to |stage|
        invariant Merge(merged, stage[i..]) == Merge(old(rows), stage)
      {
        assert stage[i..][1..] == stage[i + 1..];
        merged := InsertRow(merged, stage[i]);
      }
      assert stage == candles;
      InsertedCount(rows, candles);
      inserted := |merged| - startCount;
      if commits {
        rows := merged;
      }
    }
  }
}
