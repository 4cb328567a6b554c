/** Rounds and causes since the last reset: what RetryFailed starts afresh, and when a relay that was
    still at work carries something over it. */
module OutboxResets {
  import opened Wrappers
  import T = Topics
  import opened Outbox
  import opened OutboxSafety
  import opened OutboxPublished
  import opened Sequences

  /** What happened to a row since it was written or last reset: its rounds, the calls of Publish in
      them, how many ended in an error, how many status writes were lost, and whether some call met a
      permanent broker error. */
  datatype Since = Since(rounds: nat, calls: nat, errors: nat, lost: nat, permanent: bool)

  /** The relay still has to write the outcome of a round of row id. */
  predicate Owes(hand: Hand, id: nat) {
    hand.batch != [] && hand.owed.Some? && hand.batch[0].id == id
  }

  ghost function Advance(s: State, e: Event, id: nat, a: Since): Since
    requires Enabled(s, e)
  {
    match e
    case PublishRound(q, env, now) =>
      var entry := s.hands[q].batch[0];
      if entry.id != id then a
      else
        var r := RunRound(s.topics, entry, env, now);
        Since(a.rounds + 1, a.calls + r.calls, if r.err.Some? then a.errors + 1 else a.errors, a.lost,
              a.permanent || PermanentCause(r, env))
    case WriteStatus(q, up) => if !up && Owes(s.hands[q], id) then a.(lost := a.lost + 1) else a
    case Drop(q) => if Owes(s.hands[q], id) then a.(lost := a.lost + 1) else a
    case RetryAllFailed =>
      if id in s.tables.rows && s.tables.rows[id].status == Failed then Since(0, 0, 0, 0, false) else a
    case _ => a
  }

  /** Over the first n steps of a run. */
  ghost function SinceReset(states: seq<State>, events: seq<Event>, n: nat, id: nat): Since
    requires IsRun(states, events) && n <= |events|
  {
    if n == 0 then Since(0, 0, 0, 0, false)
    else Advance(states[n - 1], events[n - 1], id, SinceReset(states, events, n - 1, id))
  }

  /** A step that gives row id a round, one whose round ended in an error, one that loses a status write
      owed to it, and one that resets it. */
  ghost predicate IsRoundOf(s: State, e: Event, id: nat)
    requires Enabled(s, e)
  {
    e.PublishRound? && s.hands[e.q].batch[0].id == id
  }

  ghost predicate IsErrorOf(s: State, e: Event, id: nat)
    requires Enabled(s, e)
  {
    IsRoundOf(s, e, id) && !Accepts(s.topics, s.hands[e.q].batch[0], e.env, RoundOf(s, e).calls)
  }

  ghost predicate IsLossOf(s: State, e: Event, id: nat)
    requires Enabled(s, e)
  {
    ((e.WriteStatus? && !e.up) || e.Drop?) && Owes(s.hands[e.q], id)
  }

  predicate IsResetOf(s: State, e: Event, id: nat) {
    e.RetryAllFailed? && id in s.tables.rows && s.tables.rows[id].status == Failed
  }

  lemma AdvanceBy(s: State, e: Event, id: nat, a: Since)
    requires Enabled(s, e) && !IsResetOf(s, e, id)
    ensures var b := Advance(s, e, id, a);
            && b.rounds == a.rounds + (if IsRoundOf(s, e, id) then 1 else 0)
            && b.errors == a.errors + (if IsErrorOf(s, e, id) then 1 else 0)
            && b.lost == a.lost + (if IsLossOf(s, e, id) then 1 else 0)
            && b.calls == a.calls + (if IsRoundOf(s, e, id) then RoundOf(s, e).calls else 0)
            && (b.permanent <==> a.permanent || (IsRoundOf(s, e, id) && PermanentCause(RoundOf(s, e), e.env)))
  {
    if e.PublishRound? {
      RoundOutcome(s.topics, s.hands[e.q].batch[0], e.env, e.now);
    }
    hide RunRound, Accepts, PermanentCause;
  }

  /** The steps of a run that are rounds of row id, rounds that ended in an error, and lost writes. */
  ghost function RoundsOf(states: seq<State>, events: seq<Event>, id: nat): nat -> bool
    requires IsRun(states, events)
  {
    (i: nat) => i < |events| && Enabled(states[i], events[i]) && IsRoundOf(states[i], events[i], id)
  }

  ghost function FailuresOf(states: seq<State>, events: seq<Event>, id: nat): nat -> bool
    requires IsRun(states, events)
  {
    (i: nat) => i < |events| && Enabled(states[i], events[i]) && IsErrorOf(states[i], events[i], id)
  }

  ghost function LossesOf(states: seq<State>, events: seq<Event>, id: nat): nat -> bool
    requires IsRun(states, events)
  {
    (i: nat) => i < |events| && Enabled(states[i], events[i]) && IsLossOf(states[i], events[i], id)
  }

  /** What is counted since the last reset of row id, after step m or never: the rounds of the row, those
      without a successful call, and its lost status writes; and whether some call was refused for good. */
  lemma {:induction false} SinceCounts(states: seq<State>, events: seq<Event>, m: nat, n: nat, id: nat)
    requires IsRun(states, events) && m <= n <= |events|
    requires m == 0 || IsResetOf(states[m - 1], events[m - 1], id)
    requires forall i: nat :: m <= i < n ==> !IsResetOf(states[i], events[i], id)
    ensures var a := SinceReset(states, events, n, id);
            && a.rounds == Number(m, n, RoundsOf(states, events, id))
            && a.errors == Number(m, n, FailuresOf(states, events, id))
            && a.lost == Number(m, n, LossesOf(states, events, id))
            && (a.permanent <==> exists i: nat :: m <= i < n && IsPermanentOf(states[i], events[i], id))
  {
    hide Advance, IsRoundOf, IsErrorOf, IsLossOf, IsPermanentOf, Next, Enabled, Number;
    if n == m {
      NumberNone(m, RoundsOf(states, events, id));
      NumberNone(m, FailuresOf(states, events, id));
      NumberNone(m, LossesOf(states, events, id));
      StartsAnew(states, events, m, id);
    } else {
      var p := n - 1;
      SinceCounts(states, events, m, p, id);
      AdvancePermanent(states[p], events[p], id, SinceReset(states, events, p, id));
      AdvanceBy(states[p], events[p], id, SinceReset(states, events, p, id));
      NumberNext(m, p, RoundsOf(states, events, id));
      NumberNext(m, p, FailuresOf(states, events, id));
      NumberNext(m, p, LossesOf(states, events, id));
    }
  }

  ghost predicate IsPermanentOf(s: State, e: Event, id: nat)
    requires Enabled(s, e)
  {
    IsRoundOf(s, e, id) && PermanentCause(RoundOf(s, e), e.env)
  }

  lemma AdvancePermanent(s: State, e: Event, id: nat, a: Since)
    requires Enabled(s, e) && !IsResetOf(s, e, id)
    ensures Advance(s, e, id, a).permanent <==> a.permanent || IsPermanentOf(s, e, id)
  {
    AdvanceBy(s, e, id, a);
  }

  lemma StartsAnew(states: seq<State>, events: seq<Event>, m: nat, id: nat)
    requires IsRun(states, events) && m <= |events|
    requires m == 0 || IsResetOf(states[m - 1], events[m - 1], id)
    ensures SinceReset(states, events, m, id) == Since(0, 0, 0, 0, false)
  {
  }

  // ---------- causes ----------

  predicate HasCause(a: Since) {
    a.permanent || a.errors >= MAX_ROUNDS
  }

  /** The first entry whose round is still to come. */
  function FirstOpen(hand: Hand): nat {
    if hand.owed.Some? then 1 else 0
  }

  ghost predicate HandOk(hand: Hand, id: nat, a: Since) {
    && (forall i :: FirstOpen(hand) <= i < |hand.batch| && hand.batch[i].id == id ==> hand.batch[i].retryCount <= a.errors)
    && (Owes(hand, id) ==>
          match hand.owed.value
          case MarkPublished => true
          case MarkFailed => HasCause(a)
          case Reschedule(count, _) => 1 <= count <= a.errors)
  }

  ghost predicate CauseInv(s: State, id: nat, a: Since) {
    && (id in s.tables.rows ==>
          s.tables.rows[id].retryCount <= a.errors && (s.tables.rows[id].status == Failed ==> HasCause(a)))
    && (forall q :: q in s.hands ==> HandOk(s.hands[q], id, a))
  }

  /** The relay has no round of the row to come with a count from before, and owes it nothing but success. */
  ghost predicate LeftAlone(hand: Hand, id: nat) {
    && (forall i :: FirstOpen(hand) <= i < |hand.batch| && hand.batch[i].id == id ==> hand.batch[i].retryCount == 0)
    && (Owes(hand, id) ==> hand.owed == Some(MarkPublished))
  }

  /** If the row is failed, and so about to be reset, every relay leaves it alone. */
  ghost predicate ResetSafe(s: State, id: nat) {
    id in s.tables.rows && s.tables.rows[id].status == Failed ==> forall q :: q in s.hands ==> LeftAlone(s.hands[q], id)
  }

  /** A reset keeps counts and causes honest exactly when every relay leaves the reset row alone. */
  lemma ResetExactly(s: State, id: nat, a: Since)
    requires CauseInv(s, id, a)
    ensures CauseInv(Next(s, RetryAllFailed), id, Advance(s, RetryAllFailed, id, a)) <==> ResetSafe(s, id)
  {
    var (s', a') := (Next(s, RetryAllFailed), Advance(s, RetryAllFailed, id, a));
    forall q | q in s.hands && id in s.tables.rows && s.tables.rows[id].status == Failed
      ensures HandOk(s'.hands[q], id, a') <==> LeftAlone(s.hands[q], id)
    {
      assert HandOk(s.hands[q], id, a);
    }
  }

  lemma RoundCause(s: State, q: RelayId, env: nat -> Pass, now: int, id: nat, a: Since)
    requires RowsInv(s) && RelayInv(s) && CauseInv(s, id, a) && Enabled(s, PublishRound(q, env, now))
    ensures CauseInv(Published1(s, q, env, now), id, Advance(s, PublishRound(q, env, now), id, a))
  {
    hide RunRound, PublishOutcome;
    var entry := s.hands[q].batch[0];
    var (s', a') := (Published1(s, q, env, now), Advance(s, PublishRound(q, env, now), id, a));
    RoundOutcome(s.topics, entry, env, now);
    assert OwedOk(s, s.hands[q]) && EntryOk(s, entry);
    assert WellWritten(s.topics, s.tables.rows[entry.id]);
    forall p | p in s'.hands
      ensures HandOk(s'.hands[p], id, a')
    {
      assert HandOk(s.hands[p], id, a);
    }
  }

  lemma WriteCause(s: State, q: RelayId, up: bool, id: nat, a: Since)
    requires CauseInv(s, id, a) && Enabled(s, WriteStatus(q, up))
    ensures CauseInv(Next(s, WriteStatus(q, up)), id, Advance(s, WriteStatus(q, up), id, a))
  {
    var s' := Next(s, WriteStatus(q, up));
    var batch, rest := s.hands[q].batch, s'.hands[q].batch;
    assert HandOk(s.hands[q], id, a);
    assert forall i :: 0 <= i < |rest| ==> rest[i] == batch[i + 1];
  }

  lemma OtherCause(s: State, e: Event, id: nat, a: Since)
    requires CauseInv(s, id, a) && Enabled(s, e) && !e.PublishRound? && !e.WriteStatus? && !e.RetryAllFailed?
    requires Keyed(s.tables.rows)
    ensures CauseInv(Next(s, e), id, Advance(s, e, id, a))
  {
    hide RunRound;
  }

  lemma StepCause(s: State, e: Event, id: nat, a: Since)
    requires RowsInv(s) && RelayInv(s) && CauseInv(s, id, a) && Enabled(s, e)
    requires e.RetryAllFailed? ==> ResetSafe(s, id)
    ensures CauseInv(Next(s, e), id, Advance(s, e, id, a))
  {
    hide RelayInv, CauseInv, ResetSafe, Advance, RunRound, Published1;
    match e
    case PublishRound(q, env, now) => RoundCause(s, q, env, now, id, a);
    case WriteStatus(q, up) => WriteCause(s, q, up, id, a);
    case RetryAllFailed => ResetExactly(s, id, a);
    case _ => OtherCause(s, e, id, a);
  }

  /** RetryFailed is only called when every relay leaves row id alone. */
  ghost predicate SafeResets(states: seq<State>, events: seq<Event>, id: nat)
    requires |states| == |events| + 1
  {
    forall i: nat :: i < |events| && events[i].RetryAllFailed? ==> ResetSafe(states[i], id)
  }

  lemma {:induction false} RunCause(states: seq<State>, events: seq<Event>, n: nat, id: nat)
    requires IsRun(states, events) && SafeResets(states, events, id) && n <= |events|
    ensures CauseInv(states[n], id, SinceReset(states, events, n, id))
  {
    if n > 0 {
      RunRowsInv(states, events, n - 1);
      RunRelayInv(states, events, n - 1);
      RunCause(states, events, n - 1, id);
      StepCause(states[n - 1], events[n - 1], id, SinceReset(states, events, n - 1, id));
    }
  }

  /** For any number of relays, as long as resets are safe: a failed row has met a permanent broker
      error, or five errors, since it was last reset, and a pending row has counted at most the errors
      since then. */
  lemma FailedSinceReset(states: seq<State>, events: seq<Event>, n: nat, id: nat)
    requires IsRun(states, events) && SafeResets(states, events, id) && n <= |events| && id in states[n].tables.rows
    ensures var (row, a) := (states[n].tables.rows[id], SinceReset(states, events, n, id));
            && (row.status == Failed ==> a.permanent || a.errors >= MAX_ROUNDS)
            && row.retryCount <= a.errors
  {
    RunCause(states, events, n, id);
  }

  // ---------- no entry in two hands ----------

  /** Held rows are pending, so a reset cannot meet a row at work. */
  lemma HeldIsSafe(s: State, id: nat)
    requires HeldInv(s)
    ensures ResetSafe(s, id)
  {
    forall q | q in s.hands && id in s.tables.rows && s.tables.rows[id].status == Failed
      ensures LeftAlone(s.hands[q], id)
    {
      assert HeldPending(s.tables.rows, s.hands[q].batch);
    }
  }

  lemma NoEntryTwiceIsSafe(states: seq<State>, events: seq<Event>, id: nat)
    requires IsRun(states, events) && NoEntryTwice(states, events)
    ensures SafeResets(states, events, id)
  {
    forall i: nat | i < |events|
      ensures ResetSafe(states[i], id)
    {
      RunHeldInv(states, events, i);
      HeldIsSafe(states[i], id);
    }
  }

  ghost predicate Owed(s: State, id: nat) {
    exists q :: q in s.hands && Owes(s.hands[q], id)
  }

  /** A pending row has had as many rounds as it has counted, but for lost writes and one that is owed. */
  ghost predicate RoundsInv(s: State, id: nat, a: Since) {
    && a.calls <= 4 * a.rounds && a.errors <= a.rounds
    && (id !in s.tables.rows ==> a.rounds == 0)
    && (id in s.tables.rows ==>
          var row := s.tables.rows[id];
          && (row.status == Pending ==> a.rounds <= row.retryCount + a.lost + if Owed(s, id) then 1 else 0)
          && (row.status != Pending ==> a.rounds <= MAX_ROUNDS + a.lost)
          && (forall q :: q in s.hands && Owes(s.hands[q], id) && s.hands[q].owed.value.Reschedule? ==>
                s.hands[q].owed.value.count == row.retryCount + 1))
  }

  /** The relay that has the row first in hand is the only one that can owe it anything. */
  lemma OnlyHolder(s: State, q: RelayId, id: nat)
    requires HeldInv(s) && q in s.hands && s.hands[q].batch != [] && s.hands[q].batch[0].id == id
    ensures Owed(s, id) <==> s.hands[q].owed.Some?
    ensures forall p :: p in s.hands && p != q ==> !Owes(s.hands[p], id)
    ensures id in s.tables.rows && s.tables.rows[id] == s.hands[q].batch[0] && s.tables.rows[id].status == Pending
  {
    assert HeldPending(s.tables.rows, s.hands[q].batch);
    forall p | p in s.hands && p != q
      ensures !Owes(s.hands[p], id)
    {
      ApartRest(s.hands[q].batch, s.hands[p].batch);
    }
    hide Apart;
    assert s.hands[q].owed.Some? ==> Owes(s.hands[q], id);
  }

  lemma RoundRounds(s: State, q: RelayId, env: nat -> Pass, now: int, id: nat, a: Since)
    requires HeldInv(s) && RoundsInv(s, id, a) && Enabled(s, PublishRound(q, env, now))
    ensures RoundsInv(Published1(s, q, env, now), id, Advance(s, PublishRound(q, env, now), id, a))
  {
    hide RunRound, PublishOutcome, PermanentCause, HeldInv;
    var hand := s.hands[q];
    var s' := Published1(s, q, env, now);
    RoundOutcome(s.topics, hand.batch[0], env, now);
    if hand.batch[0].id == id {
      OnlyHolder(s, q, id);
      assert Owes(s'.hands[q], id);
    } else {
      assert forall p :: p in s.hands ==> (Owes(s'.hands[p], id) <==> Owes(s.hands[p], id));
      assert Owed(s', id) <==> Owed(s, id);
    }
  }

  lemma WriteRounds(s: State, q: RelayId, up: bool, id: nat, a: Since)
    requires HeldInv(s) && RelayInv(s) && RoundsInv(s, id, a) && Enabled(s, WriteStatus(q, up))
    ensures RoundsInv(Next(s, WriteStatus(q, up)), id, Advance(s, WriteStatus(q, up), id, a))
  {
    hide HeldInv, RelayInv;
    var s' := Next(s, WriteStatus(q, up));
    assert !Owes(s'.hands[q], id);
    if s.hands[q].batch[0].id == id {
      OnlyHolder(s, q, id);
      RowCounts(s, id);
      assert !Owed(s', id);
    } else {
      assert forall p :: p in s.hands ==> (Owes(s'.hands[p], id) <==> Owes(s.hands[p], id));
      assert Owed(s', id) <==> Owed(s, id);
    }
  }

  lemma RowCounts(s: State, id: nat)
    requires RelayInv(s) && id in s.tables.rows && s.tables.rows[id].status == Pending
    ensures s.tables.rows[id].retryCount < MAX_ROUNDS
  {
    assert RowOk(s, id);
  }

  lemma DropRounds(s: State, q: RelayId, id: nat, a: Since)
    requires HeldInv(s) && RoundsInv(s, id, a) && Enabled(s, Drop(q))
    ensures RoundsInv(Next(s, Drop(q)), id, Advance(s, Drop(q), id, a))
  {
    hide HeldInv;
    var s' := Next(s, Drop(q));
    if Owes(s.hands[q], id) {
      OnlyHolder(s, q, id);
      assert !Owed(s', id);
    } else {
      assert forall p :: p in s'.hands <==> p in s.hands && p != q;
      assert forall p :: p in s'.hands ==> s'.hands[p] == s.hands[p];
      assert Owed(s', id) <==> Owed(s, id);
    }
  }

  lemma ResetRounds(s: State, id: nat, a: Since)
    requires HeldInv(s) && RoundsInv(s, id, a)
    ensures RoundsInv(Next(s, RetryAllFailed), id, Advance(s, RetryAllFailed, id, a))
  {
    hide HeldInv;
    var s' := Next(s, RetryAllFailed);
    assert Owed(s', id) <==> Owed(s, id);
    forall q | q in s.hands && Owes(s.hands[q], id)
      ensures id in s.tables.rows && s.tables.rows[id].status == Pending
    {
      OnlyHolder(s, q, id);
    }
  }

  /** Every relay owes what it owed before, and the row is as it was, or new. */
  lemma KeepsRounds(s: State, s': State, id: nat, a: Since)
    requires RoundsInv(s, id, a)
    requires forall p :: p in s.hands ==> p in s'.hands && s'.hands[p] == s.hands[p]
    requires forall p :: p in s'.hands && p !in s.hands ==> !Owes(s'.hands[p], id)
    requires id in s.tables.rows ==> id in s'.tables.rows && s'.tables.rows[id] == s.tables.rows[id]
    requires id !in s.tables.rows ==> !Owed(s, id)
    requires id !in s.tables.rows && id in s'.tables.rows ==>
               s'.tables.rows[id].status == Pending && s'.tables.rows[id].retryCount == 0
    ensures RoundsInv(s', id, a)
  {
    assert Owed(s', id) <==> Owed(s, id);
  }

  lemma OwedRowExists(s: State, id: nat)
    requires RelayInv(s) && Owed(s, id)
    ensures id in s.tables.rows
  {
    var q :| q in s.hands && Owes(s.hands[q], id);
    assert OwedOk(s, s.hands[q]) && EntryOk(s, s.hands[q].batch[0]);
  }

  lemma OtherRounds(s: State, e: Event, id: nat, a: Since)
    requires RelayInv(s) && RoundsInv(s, id, a) && Enabled(s, e)
    requires !e.PublishRound? && !e.WriteStatus? && !e.Drop? && !e.RetryAllFailed?
    ensures RoundsInv(Next(s, e), id, Advance(s, e, id, a))
  {
    hide RelayInv, RoundsInv, Owed, IsBatch, RunRound;
    if Owed(s, id) {
      OwedRowExists(s, id);
    }
    KeepsRounds(s, Next(s, e), id, a);
  }

  lemma {:induction false} RunRounds(states: seq<State>, events: seq<Event>, n: nat, id: nat)
    requires IsRun(states, events) && NoEntryTwice(states, events) && n <= |events|
    ensures RoundsInv(states[n], id, SinceReset(states, events, n, id))
  {
    if n > 0 {
      RunRelayInv(states, events, n - 1);
      RunHeldInv(states, events, n - 1);
      RunRounds(states, events, n - 1, id);
      StepRounds(states[n - 1], events[n - 1], id, SinceReset(states, events, n - 1, id));
    }
  }

  lemma StepRounds(s: State, e: Event, id: nat, a: Since)
    requires HeldInv(s) && RelayInv(s) && RoundsInv(s, id, a) && Enabled(s, e) && (e.Fetch? ==> forall p :: p in s.hands ==> Apart(e.batch, s.hands[p].batch))
    ensures RoundsInv(Next(s, e), id, Advance(s, e, id, a))
  {
    hide HeldInv, RelayInv, RoundsInv, Advance, RunRound, Published1, Apart;
    match e
    case PublishRound(q, env, now) => RoundRounds(s, q, env, now, id, a);
    case WriteStatus(q, up) => WriteRounds(s, q, up, id, a);
    case Drop(q) => DropRounds(s, q, id, a);
    case RetryAllFailed => ResetRounds(s, id, a);
    case _ => OtherRounds(s, e, id, a);
  }

  /** On every run in which no entry is in two hands at once, with crashes, cancelled contexts, lost writes and resets at
      any step: since its last reset a row has had at most five rounds and twenty calls of Publish, plus
      one round for each lost status write of its own; it is failed only after a permanent broker error
      or five errors since then; and with no write lost or owed, a pending row's retry count is the number
      of its rounds, all of which ended in errors. */
  lemma RoundsSinceReset(states: seq<State>, events: seq<Event>, n: nat, id: nat)
    requires IsRun(states, events) && NoEntryTwice(states, events) && n <= |events| && id in states[n].tables.rows
    ensures var (s, row, a) := (states[n], states[n].tables.rows[id], SinceReset(states, events, n, id));
            && a.rounds <= MAX_ROUNDS + a.lost && a.calls <= 20 + 4 * a.lost
            && (row.status == Failed ==> a.permanent || a.errors >= MAX_ROUNDS)
            && (row.status == Pending && a.lost == 0 && !Owed(s, id) ==> row.retryCount == a.rounds == a.errors)
  {
    NoEntryTwiceIsSafe(states, events, id);
    FailedSinceReset(states, events, n, id);
    RunRounds(states, events, n, id);
    RunRelayInv(states, events, n);
    assert RowOk(states[n], id);
  }

  // ---------- a verdict carried over a reset ----------

  /** If a relay owes `failed` to a row that is already failed, then RetryFailed followed by that relay's
      write fails the row again without a round since the reset. */
  lemma VerdictOutlivesReset(s: State, q: RelayId, id: nat, a: Since)
    requires OwesFailed(s, q, id) && id in s.tables.rows && s.tables.rows[id].status == Failed
    ensures var s1 := Next(s, RetryAllFailed);
            && s1.tables.rows[id].status == Pending
            && OwesFailed(s1, q, id)
            && var s2 := Next(s1, WriteStatus(q, true));
               && id in s2.tables.rows && s2.tables.rows[id].status == Failed
               && Advance(s1, WriteStatus(q, true), id, Advance(s, RetryAllFailed, id, a)) == Since(0, 0, 0, 0, false)
  {
  }

  /** Both relays hold the row when their rounds meet a permanent error; the first writes it down. */
  lemma OneVerdictWritten(row: Row, meta: T.Meta) returns (states: seq<State>, events: seq<Event>, s: State)
    requires row == NewRow(row.id, "t", "k", OtherEvent("x"), map[])
    ensures IsRun(states, events) && |events| == 7 && states[7] == s
    ensures OwesFailed(s, 1, row.id) && row.id in s.tables.rows && s.tables.rows[row.id].status == Failed
  {
    hide IsRun, RunRound, Next;
    states, events, s := OverlapStarts(row, meta);
    PermanentErrorsRepeat(s.topics, row, 0);
    RoundStep(s, 0, REFUSES, row, MarkFailed);
    states, events, s := Extend(states, events, PublishRound(0, REFUSES, 0));
    RoundStep(s, 1, REFUSES, row, MarkFailed);
    states, events, s := Extend(states, events, PublishRound(1, REFUSES, 0));
    WriteStep(s, 0, row, MarkFailed);
    states, events, s := Extend(states, events, WriteStatus(0, true));
  }

  lemma LastTwo(states: seq<State>, events: seq<Event>, id: nat)
    requires IsRun(states, events) && |events| == 9 && events[7] == RetryAllFailed && events[8] == WriteStatus(1, true)
    requires OwesFailed(states[7], 1, id) && id in states[7].tables.rows && states[7].tables.rows[id].status == Failed
    ensures id in states[9].tables.rows && states[9].tables.rows[id].status == Failed
    ensures SinceReset(states, events, 9, id) == Since(0, 0, 0, 0, false)
  {
    hide Next, Advance;
    var a := SinceReset(states, events, 7, id);
    VerdictOutlivesReset(states[7], 1, id, a);
    assert SinceReset(states, events, 8, id) == Advance(states[7], events[7], id, a);
    assert states[8] == Next(states[7], events[7]) && states[9] == Next(states[8], events[8]);
  }

  /** Two relays do that. */
  lemma OverlapCarriesVerdict(id: nat, meta: T.Meta) returns (states: seq<State>, events: seq<Event>)
    ensures IsRun(states, events) && |events| == 9
    ensures id in states[9].tables.rows && states[9].tables.rows[id].status == Failed
    ensures SinceReset(states, events, 9, id) == Since(0, 0, 0, 0, false)
  {
    hide IsRun, Next, SinceReset;
    var s;
    states, events, s := OneVerdictWritten(NewRow(id, "t", "k", OtherEvent("x"), map[]), meta);
    VerdictOutlivesReset(s, 1, id, Since(0, 0, 0, 0, false));
    states, events, s := Extend(states, events, RetryAllFailed);
    states, events, s := Extend(states, events, WriteStatus(1, true));
    LastTwo(states, events, id);
  }
}
