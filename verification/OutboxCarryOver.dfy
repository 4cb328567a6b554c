/** What an unsafe reset leads to: from every reached state in which RetryFailed would meet a relay still
    at work on the failed row, the run can go on so that the row fails without a cause. */
module OutboxCarryOver {
  import opened Wrappers
  import R = Retry
  import T = Topics
  import opened Outbox
  import opened OutboxSafety
  import opened OutboxPublished
  import opened OutboxResets

  /** The states and steps of a run. */
  datatype Run = Run(states: seq<State>, events: seq<Event>) {
    ghost predicate Valid() {
      IsRun(states, events)
    }

    ghost function Last(): State
      requires Valid()
    {
      states[|events|]
    }

    ghost function Past(id: nat): Since
      requires Valid()
    {
      SinceReset(states, events, |events|, id)
    }
  }

  /** The second run goes on from the first, without a reset. */
  ghost predicate Continues(run: Run, run': Run) {
    && run.states <= run'.states && run.events <= run'.events
    && forall i: nat :: |run.events| <= i < |run'.events| ==> !run'.events[i].RetryAllFailed?
  }

  lemma GoesOn(a: Run, b: Run, c: Run)
    requires Continues(a, b) && Continues(b, c)
    ensures Continues(a, c)
  {
  }

  lemma {:induction false} SameSince(run: Run, run': Run, n: nat, id: nat)
    requires run.Valid() && run'.Valid() && run.states <= run'.states && run.events <= run'.events && n <= |run.events|
    ensures SinceReset(run'.states, run'.events, n, id) == SinceReset(run.states, run.events, n, id)
  {
    hide Next, Enabled, Advance;
    if n > 0 {
      SameSince(run, run', n - 1, id);
    }
  }

  lemma Go(run: Run, e: Event, id: nat) returns (run': Run)
    requires run.Valid() && Enabled(run.Last(), e)
    ensures run'.Valid() && run'.Last() == Next(run.Last(), e) && run'.Past(id) == Advance(run.Last(), e, id, run.Past(id))
    ensures run.states <= run'.states && run'.events == run.events + [e]
    ensures !e.RetryAllFailed? ==> Continues(run, run')
  {
    hide Next, Advance;
    var states, events, s := Extend(run.states, run.events, e);
    run' := Run(states, events);
    SameSince(run, run', |run.events|, id);
  }

  // ---------- a relay that gets to an entry ----------

  const UNREACHABLE: nat -> Pass := (i: nat) => Pass(false, Rejected(Cause(false, true, None, false), false), false)

  /** A round against a broker that cannot be reached. */
  lemma RoundUnreachable(topics: map<string, T.Meta>, entry: Row, now: int)
    requires WellWritten(topics, entry)
    ensures var r := RunRound(topics, entry, UNREACHABLE, now);
            && r.err.Some? && !PermanentCause(r, UNREACHABLE)
            && (if entry.retryCount + 1 >= MAX_ROUNDS then r.verdict == MarkFailed
                else r.verdict.Reschedule? && r.verdict.count == entry.retryCount + 1)
  {
    var attempts := Attempts(true, UNREACHABLE);
    var e := Some(R.Err(false, true, None, Some(true)));
    assert R.DoFrom(3, attempts, 3, e) == (e, 4);
    assert R.DoFrom(3, attempts, 2, e) == (e, 4);
    assert R.DoFrom(3, attempts, 1, e) == (e, 4);
    assert R.DoResult(3, attempts) == (e, 4);
  }

  /** The first entry in hand is handled, and its status write lost. */
  lemma SkipOne(run: Run, id: nat, q: RelayId) returns (run': Run)
    requires run.Valid() && q in run.Last().hands && run.Last().hands[q].batch != [] && run.Last().hands[q].batch[0].id != id
    ensures run'.Valid() && Continues(run, run') && run'.Past(id) == run.Past(id)
    ensures run'.Last().tables == run.Last().tables
    ensures q in run'.Last().hands && run'.Last().hands[q] == Hand(run.Last().hands[q].batch[1..], None)
  {
    hide RunRound, IsRun, SinceReset, PermanentCause;
    if run.Last().hands[q].owed == None {
      var mid := Go(run, PublishRound(q, UNREACHABLE, 0), id);
      run' := Go(mid, WriteStatus(q, false), id);
    } else {
      run' := Go(run, WriteStatus(q, false), id);
    }
  }

  /** The relay gets to entry k. */
  lemma {:induction false} SkipTo(run: Run, id: nat, q: RelayId, k: nat) returns (run': Run)
    requires run.Valid() && q in run.Last().hands && k < |run.Last().hands[q].batch|
    requires forall i :: 0 <= i < k ==> run.Last().hands[q].batch[i].id != id
    ensures run'.Valid() && Continues(run, run') && run'.Past(id) == run.Past(id)
    ensures run'.Last().tables == run.Last().tables && q in run'.Last().hands
    ensures run'.Last().hands[q].batch == run.Last().hands[q].batch[k..]
    ensures run'.Last().hands[q].owed == if k == 0 then run.Last().hands[q].owed else None
    decreases k
  {
    hide IsRun, SinceReset;
    var batch := run.Last().hands[q].batch;
    if k == 0 {
      run' := run;
      assert batch[0..] == batch;
    } else {
      var mid := SkipOne(run, id, q);
      assert batch[1..][k - 1..] == batch[k..];
      assert forall i :: 0 <= i < k - 1 ==> batch[1..][i] == batch[i + 1];
      run' := SkipTo(mid, id, q, k - 1);
    }
  }

  lemma HeldWellWritten(run: Run, q: RelayId, i: nat)
    requires run.Valid() && q in run.Last().hands && i < |run.Last().hands[q].batch|
    ensures WellWritten(run.Last().topics, run.Last().hands[q].batch[i])
  {
    RunRowsInv(run.states, run.events, |run.events|);
    RunRelayInv(run.states, run.events, |run.events|);
    var s := run.Last();
    assert OwedOk(s, s.hands[q]) && EntryOk(s, s.hands[q].batch[i]);
    assert WellWritten(s.topics, s.tables.rows[s.hands[q].batch[i].id]);
  }

  /** A round of the entry that ends in an error, and its status write. */
  lemma FailRound(run: Run, id: nat, q: RelayId) returns (run': Run)
    requires run.Valid() && id in run.Last().tables.rows && run.Last().tables.rows[id].status == Pending
    requires q in run.Last().hands && run.Last().hands[q].owed == None
    requires run.Last().hands[q].batch != [] && run.Last().hands[q].batch[0].id == id
    ensures run'.Valid() && Continues(run, run')
    ensures run'.Past(id).errors == run.Past(id).errors + 1 && run'.Past(id).permanent == run.Past(id).permanent
    ensures id in run'.Last().tables.rows
    ensures var (row, count) := (run'.Last().tables.rows[id], run.Last().hands[q].batch[0].retryCount + 1);
            if count >= MAX_ROUNDS then row.status == Failed else row.status == Pending && row.retryCount == count
  {
    hide RunRound, IsRun, SinceReset, PermanentCause, WellWritten, Continues;
    HeldWellWritten(run, q, 0);
    var s := run.Last();
    RoundUnreachable(s.topics, s.hands[q].batch[0], 0);
    var mid := Go(run, PublishRound(q, UNREACHABLE, 0), id);
    run' := Go(mid, WriteStatus(q, true), id);
    GoesOn(run, mid, run');
  }

  // ---------- a poll that brings a given row ----------

  lemma {:induction false} Unused(keys: set<nat>) returns (n: nat)
    ensures forall k :: k in keys ==> k < n
    decreases keys
  {
    n := 0;
    if keys != {} {
      var k :| k in keys;
      var m := Unused(keys - {k});
      n := if k < m then m else k + 1;
      assert forall j :: j in keys ==> j == k || j in keys - {k};
    }
  }

  /** The eligible rows with ids below n, in id order. */
  function EligibleBelow(rows: Rows, now: int, n: nat): seq<Row> {
    if n == 0 then []
    else EligibleBelow(rows, now, n - 1) + if n - 1 in rows && Eligible(rows[n - 1], now) then [rows[n - 1]] else []
  }

  ghost predicate Lists(rows: Rows, now: int, n: nat, batch: seq<Row>) {
    && (forall i, j :: 0 <= i < j < |batch| ==> batch[i].id < batch[j].id)
    && (forall i :: 0 <= i < |batch| ==>
          batch[i].id in rows && rows[batch[i].id] == batch[i] && Eligible(batch[i], now) && batch[i].id < n)
    && (forall id :: id in rows && id < n && Eligible(rows[id], now) ==> rows[id] in batch)
  }

  lemma ListsOneMore(rows: Rows, now: int, n: nat, before: seq<Row>)
    requires Keyed(rows) && Lists(rows, now, n, before) && n in rows && Eligible(rows[n], now)
    ensures Lists(rows, now, n + 1, before + [rows[n]])
  {
    hide Eligible;
    var row := rows[n];
    assert row.id == n;
    var batch := before + [row];
    forall i | 0 <= i < |batch|
      ensures batch[i].id in rows && rows[batch[i].id] == batch[i] && Eligible(batch[i], now) && batch[i].id < n + 1
      ensures i < |before| ==> batch[i].id < n
    {
      assert batch[i] == if i < |before| then before[i] else row;
    }
    forall i, j | 0 <= i < j < |batch|
      ensures batch[i].id < batch[j].id
    {
      if j < |before| {
        assert batch[i] == before[i] && batch[j] == before[j];
      }
    }
  }

  lemma ListsNothing(rows: Rows, now: int)
    ensures Lists(rows, now, 0, [])
  {
  }

  lemma ListsAsMany(rows: Rows, now: int, n: nat, batch: seq<Row>)
    requires Lists(rows, now, n, batch) && !(n in rows && Eligible(rows[n], now))
    ensures Lists(rows, now, n + 1, batch)
  {
    hide Eligible;
  }

  lemma {:induction false} EligibleInOrder(rows: Rows, now: int, n: nat)
    requires Keyed(rows)
    ensures Lists(rows, now, n, EligibleBelow(rows, now, n))
  {
    hide Eligible, Keyed, Lists;
    if n == 0 {
      ListsNothing(rows, now);
    } else {
      var before := EligibleBelow(rows, now, n - 1);
      EligibleInOrder(rows, now, n - 1);
      if n - 1 in rows && Eligible(rows[n - 1], now) {
        ListsOneMore(rows, now, n - 1, before);
      } else {
        assert EligibleBelow(rows, now, n) == before;
        ListsAsMany(rows, now, n - 1, before);
      }
    }
  }

  /** When the row's wait is over, some query brings it. */
  lemma BatchWith(rows: Rows, id: nat) returns (now: int, batch: seq<Row>, k: nat)
    requires Keyed(rows) && id in rows && rows[id].status == Pending
    ensures IsBatch(rows, now, |batch|, batch) && k < |batch| && batch[k] == rows[id]
    ensures forall i :: 0 <= i < k ==> batch[i].id != id
  {
    now := if rows[id].nextRetryAt == None then 0 else rows[id].nextRetryAt.value;
    var n := Unused(rows.Keys);
    batch := EligibleBelow(rows, now, n);
    EligibleInOrder(rows, now, n);
    assert rows[id] in batch;
    k :| 0 <= k < |batch| && batch[k] == rows[id];
  }

  /** A relay that holds nothing makes that query. */
  lemma FetchRow(run: Run, id: nat) returns (run': Run, q: RelayId, k: nat)
    requires run.Valid() && id in run.Last().tables.rows && run.Last().tables.rows[id].status == Pending
    ensures run'.Valid() && Continues(run, run') && run'.Past(id) == run.Past(id)
    ensures run'.Last().tables == run.Last().tables
    ensures q in run'.Last().hands && run'.Last().hands[q].owed == None && k < |run'.Last().hands[q].batch|
    ensures run'.Last().hands[q].batch[k] == run.Last().tables.rows[id] && run.Last().tables.rows[id].id == id
    ensures forall i :: 0 <= i < k ==> run'.Last().hands[q].batch[i].id != id
  {
    KeyedRows(run);
    hide IsRun, SinceReset, IsBatch, Continues;
    var s := run.Last();
    var now, batch;
    now, batch, k := BatchWith(s.tables.rows, id);
    q := Unused(s.hands.Keys);
    run' := Go(run, Fetch(q, now, |batch|, batch), id);
  }

  lemma KeyedRows(run: Run)
    requires run.Valid()
    ensures Keyed(run.Last().tables.rows)
  {
    RunRowsInv(run.states, run.events, |run.events|);
  }

  // ---------- counts carried over a reset ----------

  /** A pending row that has counted more than its errors fails too early. */
  lemma {:induction false} DeficitFails(run: Run, id: nat) returns (run': Run)
    requires run.Valid() && id in run.Last().tables.rows && run.Last().tables.rows[id].status == Pending
    requires run.Past(id).errors < run.Last().tables.rows[id].retryCount && !run.Past(id).permanent
    ensures run'.Valid() && Continues(run, run') && FailedUnjustly(run', id)
    decreases MAX_ROUNDS - run.Last().tables.rows[id].retryCount
  {
    RunRelayInv(run.states, run.events, |run.events|);
    assert RowOk(run.Last(), id);
    hide IsRun, SinceReset, RelayInv, Continues;
    var fetched, q, k := FetchRow(run, id);
    var reached := SkipTo(fetched, id, q, k);
    var after := FailRound(reached, id, q);
    GoesOn(run, fetched, reached);
    GoesOn(run, reached, after);
    if after.Last().tables.rows[id].status == Failed {
      run' := after;
    } else {
      run' := DeficitFails(after, id);
      GoesOn(run, after, run');
    }
  }

  /** The row is failed, without a permanent broker error or five errors since its last reset. */
  ghost predicate FailedUnjustly(run: Run, id: nat)
    requires run.Valid()
  {
    id in run.Last().tables.rows && run.Last().tables.rows[id].status == Failed && !HasCause(run.Past(id))
  }

  /** Entries in hand are in id order; what is owed to be rescheduled has counted a round. */
  ghost predicate HandShape(hand: Hand) {
    && (forall i, j :: 0 <= i < j < |hand.batch| ==> hand.batch[i].id < hand.batch[j].id)
    && (hand.batch != [] && hand.owed.Some? && hand.owed.value.Reschedule? ==> hand.owed.value.count >= 1)
  }

  lemma StepShape(s: State, e: Event)
    requires Enabled(s, e) && forall q :: q in s.hands ==> HandShape(s.hands[q])
    ensures forall q :: q in Next(s, e).hands ==> HandShape(Next(s, e).hands[q])
  {
    hide RunRound;
    if e.PublishRound? {
      RoundOutcome(s.topics, s.hands[e.q].batch[0], e.env, e.now);
    }
    if e.WriteStatus? {
      assert HandShape(s.hands[e.q]);
    }
  }

  lemma {:induction false} RunShape(run: Run, n: nat)
    requires run.Valid() && n <= |run.events|
    ensures forall q :: q in run.states[n].hands ==> HandShape(run.states[n].hands[q])
  {
    hide HandShape, Next;
    if n > 0 {
      RunShape(run, n - 1);
      StepShape(run.states[n - 1], run.events[n - 1]);
    }
  }

  /** A relay with a round to come whose count is from before the reset. */
  lemma StaleCountFails(run: Run, id: nat, q: RelayId, i: nat) returns (run': Run)
    requires run.Valid() && id in run.Last().tables.rows && run.Last().tables.rows[id].status == Pending
    requires run.Past(id) == Since(0, 0, 0, 0, false)
    requires q in run.Last().hands && HandShape(run.Last().hands[q])
    requires FirstOpen(run.Last().hands[q]) <= i < |run.Last().hands[q].batch|
    requires run.Last().hands[q].batch[i].id == id && run.Last().hands[q].batch[i].retryCount > 0
    ensures run'.Valid() && Continues(run, run') && FailedUnjustly(run', id)
  {
    hide IsRun, SinceReset, Continues;
    var reached := SkipTo(run, id, q, i);
    var after := FailRound(reached, id, q);
    GoesOn(run, reached, after);
    if after.Last().tables.rows[id].status == Failed {
      run' := after;
    } else {
      run' := DeficitFails(after, id);
      GoesOn(run, after, run');
    }
  }

  /** A relay that owes a verdict other than success from before the reset. */
  lemma StaleVerdictFails(run: Run, id: nat, q: RelayId) returns (run': Run)
    requires run.Valid() && id in run.Last().tables.rows && run.Last().tables.rows[id].status == Pending
    requires run.Past(id) == Since(0, 0, 0, 0, false)
    requires q in run.Last().hands && HandShape(run.Last().hands[q])
    requires Owes(run.Last().hands[q], id) && run.Last().hands[q].owed != Some(MarkPublished)
    ensures run'.Valid() && Continues(run, run') && FailedUnjustly(run', id)
  {
    hide IsRun, SinceReset, Continues;
    var after := Go(run, WriteStatus(q, true), id);
    if after.Last().tables.rows[id].status == Failed {
      run' := after;
    } else {
      run' := DeficitFails(after, id);
      GoesOn(run, after, run');
    }
  }

  // ---------- exactly the safe resets ----------

  /** The second run goes on from the first with a reset, and without another. */
  ghost predicate GoesOnWithReset(run: Run, run': Run) {
    && run.states <= run'.states && run.events + [RetryAllFailed] <= run'.events
    && forall i: nat :: |run.events| < i < |run'.events| ==> !run'.events[i].RetryAllFailed?
  }

  /** From every reached state with a failed row that some relay does not leave alone, a reset lets the
      run go on until the row is failed again without a cause since. */
  lemma UnsafeResetFails(run: Run, id: nat) returns (run': Run)
    requires run.Valid() && id in run.Last().tables.rows && run.Last().tables.rows[id].status == Failed
    requires !ResetSafe(run.Last(), id)
    ensures run'.Valid() && GoesOnWithReset(run, run') && FailedUnjustly(run', id)
  {
    hide IsRun, SinceReset, HandShape, FailedUnjustly;
    RunShape(run, |run.events|);
    var s := run.Last();
    var q :| q in s.hands && !LeftAlone(s.hands[q], id);
    var reset := Go(run, RetryAllFailed, id);
    if Owes(s.hands[q], id) && s.hands[q].owed != Some(MarkPublished) {
      run' := StaleVerdictFails(reset, id, q);
    } else {
      var i :| FirstOpen(s.hands[q]) <= i < |s.hands[q].batch| && s.hands[q].batch[i].id == id && s.hands[q].batch[i].retryCount != 0;
      run' := StaleCountFails(reset, id, q, i);
    }
  }

  /** The condition is exact: when a failed row is about to be reset on a run whose resets were safe so
      far, some relay does not leave it alone if and only if the run can go on, with that reset and no
      other, to a state in which the row is failed without a cause since. */
  lemma SafeResetExactly(run: Run, id: nat)
    requires run.Valid() && SafeResets(run.states, run.events, id)
    requires id in run.Last().tables.rows && run.Last().tables.rows[id].status == Failed
    ensures !ResetSafe(run.Last(), id)
            <==> exists run': Run :: run'.Valid() && GoesOnWithReset(run, run') && FailedUnjustly(run', id)
  {
    if ResetSafe(run.Last(), id) {
      forall run': Run | run'.Valid() && GoesOnWithReset(run, run')
        ensures !FailedUnjustly(run', id)
      {
        JustAfterSafe(run, run', id);
      }
    } else {
      var run' := UnsafeResetFails(run, id);
    }
  }

  lemma JustAfterSafe(run: Run, run': Run, id: nat)
    requires run.Valid() && SafeResets(run.states, run.events, id) && ResetSafe(run.Last(), id)
    requires run'.Valid() && GoesOnWithReset(run, run')
    ensures !FailedUnjustly(run', id)
  {
    hide ResetSafe, SinceReset;
    assert run.events <= run'.events;
    forall i: nat | i < |run'.events| && run'.events[i].RetryAllFailed?
      ensures ResetSafe(run'.states[i], id)
    {
      assert i <= |run.events| && run'.states[i] == run.states[i];
      if i < |run.events| {
        assert run'.events[i] == run.events[i];
      }
    }
    if id in run'.Last().tables.rows {
      FailedSinceReset(run'.states, run'.events, |run'.events|, id);
    }
  }
}
