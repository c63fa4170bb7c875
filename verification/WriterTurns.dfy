/** What one turn of the consume loop does: when it ends the process, when it moves offsets, where it reads on, and
    what it leaves in the table. */
module WriterTurns {
  import opened Market
  import opened Database
  import opened WriterModel
  import opened WriterSafety

  /** The turn has something to insert and decodes all of it without an error that escapes. */
  ghost predicate Inserts(w: World, batch: seq<Fetch>)
    requires BatchOk(w.logs, batch)
  {
    var msgs := Polled(w.logs, batch);
    Fatal !in msgs && exists m :: m in msgs && !m.Malformed?
  }

  lemma {:induction false} DecodedIff(msgs: seq<Message>)
    requires Fatal !in msgs
    ensures Decoded(msgs) != [] <==> exists m :: m in msgs && !m.Malformed?
  {
    if msgs == [] {
    } else {
      assert msgs == [msgs[0]] + msgs[1..];
      assert msgs[0] in msgs && forall m :: m in msgs[1..] ==> m in msgs;
      DecodedIff(msgs[1..]);
      if m :| m in msgs && !m.Malformed? {
        assert m == msgs[0] || m in msgs[1..];
      }
    }
  }

  /** A turn ends the process exactly when an error escapes from decoding, when the process is cut inside the insert, or
      when the commit raises, landed or not. A failed insert does not end it. */
  lemma TurnStopsIff(w: World, batch: seq<Fetch>, o: Outcome)
    requires Enabled(w, Turn(batch, o))
    ensures !TakeTurn(w, batch, o).up <==>
      || Fatal in Polled(w.logs, batch)
      || (Inserts(w, batch) && (o.InsertCut? || (o.Stored? && o.commit.Broken?)))
  {
    if Fatal !in Polled(w.logs, batch) {
      DecodedIff(Polled(w.logs, batch));
    }
  }

  /** Offsets move exactly when the turn inserts, the insert returns, and the commit reaches the broker; then they are
      those the poll reached, in every partition. */
  lemma TurnCommitsIff(w: World, batch: seq<Fetch>, o: Outcome)
    requires Enabled(w, Turn(batch, o))
    ensures
      var committed := TakeTurn(w, batch, o).committed;
      if Inserts(w, batch) && o.Stored? && (o.commit.Acknowledged? || o.commit.landed) then
        && |committed| == |w.logs|
        && forall p :: 0 <= p < |w.logs| ==> committed[p] == Some(Advance(w.position, batch)[p])
      else committed == w.committed
  {
    if Fatal !in Polled(w.logs, batch) {
      DecodedIff(Polled(w.logs, batch));
    }
  }

  /** A process that goes on reads on where the poll ended, or, after a failed insert, from the committed offsets. */
  lemma TurnReadsOn(w: World, batch: seq<Fetch>, o: Outcome, p: nat)
    requires Enabled(w, Turn(batch, o)) && p < |w.logs| && TakeTurn(w, batch, o).up
    requires w.rewinds || w.committed[p].Some?
    ensures |TakeTurn(w, batch, o).position| == |w.logs|
    ensures TakeTurn(w, batch, o).position[p] ==
      if Inserts(w, batch) && o.InsertRaised? then (if w.committed[p].Some? then w.committed[p].value else 0)
      else Advance(w.position, batch)[p]
  {
    if Fatal !in Polled(w.logs, batch) {
      DecodedIff(Polled(w.logs, batch));
    }
  }

  /** The table takes the batch exactly when the turn inserts and the insert returns, or is kept although it failed. */
  lemma TurnStoresIff(w: World, batch: seq<Fetch>, o: Outcome)
    requires Enabled(w, Turn(batch, o))
    ensures TakeTurn(w, batch, o).table ==
      if Inserts(w, batch) && (o.Stored? || o == InsertRaised(Applied) || o == InsertCut(Applied)) then
        Merge(w.table, Rows(Polled(w.logs, batch)))
      else w.table
  {
    if Fatal !in Polled(w.logs, batch) {
      DecodedIff(Polled(w.logs, batch));
    }
  }

  /** An insert in flight is remembered, and the logs are left alone. */
  lemma TurnLeavesLate(w: World, batch: seq<Fetch>, o: Outcome)
    requires Enabled(w, Turn(batch, o))
    ensures TakeTurn(w, batch, o).late ==
      if Inserts(w, batch) && (o == InsertRaised(Late) || o == InsertCut(Late)) then w.late + [batch] else w.late
    ensures TakeTurn(w, batch, o).logs == w.logs
  {
    if Fatal !in Polled(w.logs, batch) {
      DecodedIff(Polled(w.logs, batch));
    }
  }

  /** A new process starts with nothing written, at the committed offsets or at 0; table, offsets, logs and the inserts
      in flight are as the old one left them. */
  lemma RestartResumes(w: World, p: nat)
    requires Enabled(w, Restart) && p < |w.logs|
    ensures
      var w' := Step(w, Restart);
      && w'.up && w'.written == 0 && |w'.position| == |w.logs|
      && w'.position[p] == (if w.committed[p].Some? then w.committed[p].value else 0)
      && w'.table == w.table && w'.committed == w.committed && w'.logs == w.logs && w'.late == w.late
  {
    assert Step(w, Restart).position[p] == ResumeAt(w.committed[p]);
  }
}
