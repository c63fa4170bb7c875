/** The writer, the broker it reads and the table it fills, as one state machine.
    A step is one append to the log, one turn of the consume loop with everything the outside decided about it,
    the late commit of an abandoned insert, a crash or a restart. */
module WriterModel {
  import opened Market
  import opened Database

  /** `max_records` of one poll. */
  const MAX_RECORDS := 500

  /** What a log entry does to the writer: decodes to a candle the table accepts, decodes to one the database
      always rejects (a null symbol, a NUL byte in it), raises an error the decoder skips, or raises one it does not
      catch (an `OverflowError` of the time-zone conversion). */
  datatype Message = Row(candle: Candle) | Refused | Malformed | Fatal

  type Logs = seq<seq<Message>>

  /** Part of a polled batch: the messages `lo..hi` of one partition. */
  datatype Fetch = Fetch(partition: nat, lo: nat, hi: nat)

  /** What became of a transaction whose caller saw it fail: kept, lost, or still in flight. */
  datatype Effect = Applied | NotApplied | Late

  datatype CommitResult = Acknowledged | Broken(landed: bool)

  datatype Outcome =
    | Stored(commit: CommitResult)    // insert_candles returned
    | InsertRaised(effect: Effect)    // it raised: seek back and retry
    | InsertCut(effect: Effect)       // the process was cancelled or killed inside it

  datatype Event =
    | Append(partition: nat, message: Message)
    | Turn(batch: seq<Fetch>, outcome: Outcome)
    | LateCommit(index: nat)
    | Crash
    | Restart

  /** `rewinds` is the client's behaviour in `seek_to_committed` for a partition without a committed offset. */
  datatype World = World(
    logs: Logs, committed: seq<Option<nat>>, rewinds: bool,
    position: seq<nat>, up: bool, written: int,
    table: Table, late: seq<seq<Fetch>>)

  // ---------- decoding ----------

  function Rows(msgs: seq<Message>): seq<Candle> {
    if msgs == [] then []
    else if msgs[0].Row? then [msgs[0].candle] + Rows(msgs[1..])
    else Rows(msgs[1..])
  }

  predicate FetchOk(logs: Logs, f: Fetch) {
    f.partition < |logs| && f.lo <= f.hi <= |logs[f.partition]|
  }

  function Segment(logs: Logs, f: Fetch): seq<Message>
    requires FetchOk(logs, f)
  {
    logs[f.partition][f.lo..f.hi]
  }

  predicate BatchOk(logs: Logs, batch: seq<Fetch>) {
    forall f :: f in batch ==> FetchOk(logs, f)
  }

  /** All messages of a batch, partition after partition. */
  function Polled(logs: Logs, batch: seq<Fetch>): seq<Message>
    requires BatchOk(logs, batch)
  {
    if batch == [] then [] else Segment(logs, batch[0]) + Polled(logs, batch[1..])
  }

  /** The messages that `parse_kafka_candle` turns into a candle. */
  function Decoded(msgs: seq<Message>): seq<Message> {
    if msgs == [] then []
    else if msgs[0].Row? || msgs[0].Refused? then [msgs[0]] + Decoded(msgs[1..])
    else Decoded(msgs[1..])
  }

  // ---------- offsets ----------

  /** Where consuming starts again: the committed offset, or the start of the log (`earliest`). */
  function ResumeAt(committed: Option<nat>): nat {
    if committed.Some? then committed.value else 0
  }

  /** `batch` continues the client's position in each partition it touches and is never empty there. */
  predicate PollOk(position: seq<nat>, logs: Logs, batch: seq<Fetch>)
    requires |position| == |logs|
    decreases batch
  {
    batch == [] ||
    var f := batch[0];
    && FetchOk(logs, f) && f.lo == position[f.partition] && f.lo < f.hi
    && PollOk(position[f.partition := f.hi], logs, batch[1..])
  }

  function Advance(position: seq<nat>, batch: seq<Fetch>): (r: seq<nat>)
    ensures |r| == |position|
    decreases batch
  {
    if batch == [] then position
    else if batch[0].partition < |position| then Advance(position[batch[0].partition := batch[0].hi], batch[1..])
    else Advance(position, batch[1..])
  }

  function Size(batch: seq<Fetch>): int {
    if batch == [] then 0 else batch[0].hi - batch[0].lo + Size(batch[1..])
  }

  // ---------- steps ----------

  predicate WellFormed(w: World) {
    |w.committed| == |w.logs| && |w.position| == |w.logs|
  }

  lemma {:induction false} PollGivesBatch(position: seq<nat>, logs: Logs, batch: seq<Fetch>)
    requires |position| == |logs| && PollOk(position, logs, batch)
    ensures BatchOk(logs, batch)
    decreases batch
  {
    if batch == [] {
    } else {
      PollGivesBatch(position[batch[0].partition := batch[0].hi], logs, batch[1..]);
      assert batch == [batch[0]] + batch[1..];
    }
  }

  predicate Enabled(w: World, e: Event) {
    WellFormed(w) &&
    match e
    case Append(p, m) => p < |w.logs|
    case Turn(batch, o) =>
      && w.up && PollOk(w.position, w.logs, batch) && Size(batch) <= MAX_RECORDS && BatchOk(w.logs, batch)
      && (Refused in Polled(w.logs, batch) ==> o == InsertRaised(NotApplied) || o == InsertCut(NotApplied))
    case LateCommit(i) => i < |w.late| && BatchOk(w.logs, w.late[i])
    case Crash => w.up
    case Restart => !w.up
  }

  /** What a failed insert leaves behind in the database. */
  function Aftermath(w: World, batch: seq<Fetch>, effect: Effect): World
    requires BatchOk(w.logs, batch)
  {
    match effect
    case Applied => w.(table := Merge(w.table, Rows(Polled(w.logs, batch))))
    case NotApplied => w
    case Late => w.(late := w.late + [batch])
  }

  function Seek(w: World): World
    requires WellFormed(w)
  {
    w.(position := seq(|w.position|, p requires 0 <= p < |w.position| =>
      if w.committed[p].None? && !w.rewinds then w.position[p] else ResumeAt(w.committed[p])))
  }

  function Commit(w: World): World {
    w.(committed := seq(|w.position|, p requires 0 <= p < |w.position| => Some(w.position[p])))
  }

  function Stop(w: World): World {
    w.(up := false)
  }

  /** One turn of the `while True` loop. */
  function TakeTurn(w: World, batch: seq<Fetch>, o: Outcome): World
    requires Enabled(w, Turn(batch, o))
  {
    if batch == [] then w
    else
      var msgs := Polled(w.logs, batch);
      var read := w.(position := Advance(w.position, batch));
      if Fatal in msgs then Stop(read)
      else if Decoded(msgs) == [] then read
      else
        match o
        case Stored(commit) =>
          var stored := read.(table := Merge(w.table, Rows(msgs)));
          if commit.Acknowledged? then Commit(stored).(written := w.written + |stored.table| - |w.table|)
          else if commit.landed then Stop(Commit(stored))
          else Stop(stored)
        case InsertRaised(effect) => Seek(Aftermath(read, batch, effect))
        case InsertCut(effect) => Stop(Aftermath(read, batch, effect))
  }

  function Step(w: World, e: Event): World
    requires Enabled(w, e)
  {
    match e
    case Append(p, m) => w.(logs := w.logs[p := w.logs[p] + [m]])
    case Turn(batch, o) => TakeTurn(w, batch, o)
    case LateCommit(i) => w.(table := Merge(w.table, Rows(Polled(w.logs, w.late[i]))))
    case Crash => Stop(w)
    case Restart =>
      w.(up := true, written := 0,
         position := seq(|w.committed|, p requires 0 <= p < |w.committed| => ResumeAt(w.committed[p])))
  }

  predicate ValidRun(w: World, events: seq<Event>)
    decreases events
  {
    events == [] || (Enabled(w, events[0]) && ValidRun(Step(w, events[0]), events[1..]))
  }

  function Run(w: World, events: seq<Event>): World
    requires ValidRun(w, events)
    decreases events
  {
    if events == [] then w else Run(Step(w, events[0]), events[1..])
  }

  /** Everything in the log has been read, and the loop is about to poll again. */
  predicate Drained(w: World)
    requires WellFormed(w)
  {
    w.up && forall p :: 0 <= p < |w.logs| ==> w.position[p] == |w.logs[p]|
  }

  /** The reference: one first-writer-wins pass over each partition from start to end, one partition after another. */
  function InOrderPass(t: Table, logs: Logs): Table
    decreases logs
  {
    if logs == [] then t else InOrderPass(Merge(t, Rows(logs[0])), logs[1..])
  }

  /** A world at rest: no insert in flight, the client at its committed offsets, and every candle below them stored.
      A deployment that has consumed nothing yet (no committed offset anywhere) is the first example. */
  ghost predicate Rested(w: World) {
    && WellFormed(w) && w.late == []
    && (forall p :: 0 <= p < |w.logs| ==> w.position[p] == ResumeAt(w.committed[p]) <= |w.logs[p]|)
    && (forall p, i :: 0 <= p < |w.logs| && 0 <= i < w.position[p] && w.logs[p][i].Row? ==>
          KeyOf(w.logs[p][i].candle) in w.table)
  }
}
